# Recipe store model

A Dafny model of the state store of a client-side recipe browser (the Pinia
store `recipeStore`). The store fetches a recipe dataset and normalises each
record into a canonical recipe. It filters the recipes by a search query and
pages through the matches nine at a time. It also keeps a user's saved
recipes mirrored in local storage.

The model has these parts:

- `Instructions`: the instruction formatter. The raw JavaScript value is the
  datatype `Raw`: a string, an array, an object with an optional `text`,
  `null`, `undefined`, or anything else.
- `Recipes`: the `Recipe` shape, the normaliser applied to fetched records,
  and the re-formatting that `saveRecipe` applies before it stores a recipe.
- `Search`: the author display name, and the filter of `filterRecipes`.
- `Pagination`: `totalPages`, the page slice, and the `nextPage` guard.
- `Store`: the class `RecipeStore`. Its fields are `recipes`,
  `savedRecipes`, `filteredRecipes` and `currentPage`. Each store action is a
  method that changes them in place. The getters are functions of the state.
- `Text`, `Sequences`, `Wrappers`: the runtime operations the store uses.
  These are `join`, `includes`, `trim`, `toLowerCase`, the regular expression
  cut, `Array.prototype.filter`, and optional fields. `Text.Split`, on one
  character, is not used by the store. It is a reference function: the
  round-trip lemmas use it to show that `join` loses no step.
- `Scenarios`: one fetched record followed through normalisation, search,
  paging, saving and removal.

The object invariant `RecipeStore.Valid()` holds three facts. The cursor is
at least 1. `filteredRecipes` is an order-preserving subsequence of
`recipes`. The ghost field `stored`, which is the list last written to local
storage, equals `savedRecipes`. Every action keeps `Valid()`.

`CursorInRange()` says the cursor is at most `max(1, totalPages)`. The
constructor, `FilterRecipes`, `AddRecipe`, `NextPage` and `PrevPage` keep it.
`FetchRecipes` does not reset `currentPage`, so a fetch that returns fewer
records can leave the cursor past the last page. The model states this as it
is.

Three edge cases of the code are worth knowing:

- `instructions` can be empty. `formatInstructions` returns `""` for an empty
  string and for an empty array.
- An empty instructions array passes the text-step test, because `every` is
  true of an empty array. It therefore takes the text-step branch, and the
  result is `""`.
- `saveRecipe` converts only a string author to `{name}` form. A `null` or
  missing author stays as it is.

## Model

| member | source | states |
|---|---|---|
| Instructions.FormatInstructions | src/store/recipeStore.ts:57-74 | A string is returned unchanged. An array of non-empty-`text` objects, the empty array included, gives the texts joined by newlines in order. A non-empty array of strings gives the strings joined by newlines. Every other value, mixed arrays included, gives exactly "Instructions not available". |
| Instructions.Throws | src/store/recipeStore.ts:59-63 | The formatter raises only on an array that holds a `null`, and always on an array whose first element is `null`. Strings and other non-arrays never raise. |
| Instructions.Texts | src/store/recipeStore.ts:64 | `map(step => step.text)` over text steps: one non-empty text per step, in order, each the `text` of its step. |
| Instructions.StepsThrowAt | src/store/recipeStore.ts:59-63 | The formatter raises exactly when some element is `null` and every element before it is a text step, because `every` stops at the first failing element. |
| Instructions.NoNullNoThrow | src/store/recipeStore.ts:59-62 | An array without `null` elements never makes the formatter raise. |
| Instructions.MixedStepsNotAvailable | src/store/recipeStore.ts:58-73 | An array holding both a string and a text object gives the "not available" text. |
| Instructions.FormatSplitsIntoTextSteps | src/store/recipeStore.ts:64 | Splitting the formatted text of a non-empty array of text steps on newlines gives back the step texts, provided no step contains a newline. |
| Instructions.FormatSplitsIntoStringSteps | src/store/recipeStore.ts:66-68 | The same round trip for a non-empty array of strings. |
| Text.Join | src/store/recipeStore.ts:64-67 | `join` of no parts is `""`. Otherwise the result starts with the first part, and its length is the parts' total length plus one separator per neighbouring pair. |
| Text.SplitJoin | src/store/recipeStore.ts:64-67 | The reference `Split` on the separator inverts `join` for a non-empty list of separator-free parts. |
| Text.Contains | src/store/recipeStore.ts:122-123 | `includes` holds only when the text is at least as long as the query. Every text includes the empty query. |
| Text.ContainsIffOccurs | src/store/recipeStore.ts:122-123 | `includes` holds exactly when the query occurs at some index of the text. |
| Text.NamePrefix | src/store/recipeStore.ts:117 | `split(/[^a-zA-Z\s]/)[0]` is a prefix of the input made only of letters and white space, and the next input character, if any, is neither. |
| Text.Trim | src/store/recipeStore.ts:118 | `trim` returns a slice of the input that has no white space at either end, and only white space lies outside that slice. |
| Text.Lower | src/store/recipeStore.ts:108-122 | `toLowerCase` keeps the length, leaves no upper-case ASCII letter, and leaves every other character in place. |
| Text.LowerOfNameChars | src/store/recipeStore.ts:119 | Lower-casing letters and white space gives lower-case letters and the same white space. |
| Recipes.HasUsableImage | src/store/recipeStore.ts:41 | An absent or empty image list is never usable, and a usable list has a first entry. |
| Recipes.NormaliseRecord | src/store/recipeStore.ts:35-50 | The `map` callback gives a canonical recipe with id `index + 1` and the raw instructions of its record. It keeps the record's image list when usable and otherwise gives exactly the placeholder. |
| Recipes.Normalise | src/store/recipeStore.ts:35-50 | One recipe per record, in order. Recipe `i` has id `i+1`. Name, author, description and raw instructions are copied. Both ingredient aliases hold the source list, or `[]` when it is absent. `instructions` is the formatted raw value. The image list is kept when its first entry has at least 5 characters; otherwise it is exactly the one placeholder. Every output is canonical, so its image list is never empty. |
| Recipes.NormaliseIdsDistinct | src/store/recipeStore.ts:36 | No two recipes of one fetched batch share an id. |
| Recipes.PrepareForSaving | src/store/recipeStore.ts:77-88 | A string author becomes `{name}` and any other author is kept. Both ingredient aliases get `recipeIngredient`, else `ingredients`, else `[]`. A non-empty `instructions` is kept; an empty one is recomputed from `recipeInstructions`. `id`, name, description, image and raw instructions are unchanged. |
| Recipes.PrepareIdempotent | src/store/recipeStore.ts:77-88 | Preparing an already prepared recipe changes nothing. |
| Recipes.PrepareCanonical | src/store/recipeStore.ts:77-88 | A canonical recipe stays canonical when prepared, and only the form of a string author changes. |
| Search.ResolvedAuthorName | src/store/recipeStore.ts:110-115 | The object's `name` or the string itself when non-empty; "Unknown Author" for an empty or missing name. Never empty. |
| Search.AuthorDisplayName | src/store/recipeStore.ts:110-119 | The display name holds only lower-case letters and white space, with no white space at either end. |
| Text.NamePrefixIs | src/store/recipeStore.ts:117 | The cut is unique: when exactly the first `k` characters are letters or white space, the cut is the prefix of length `k`. |
| Text.TrimUnchanged | src/store/recipeStore.ts:118 | A text with no white space at either end is its own trim. |
| Search.DisplayNameCut | src/store/recipeStore.ts:116-119 | The display name is the lower-cased trim of the resolved name, cut before its first character that is neither a letter nor white space. |
| Search.DisplayNameWhole | src/store/recipeStore.ts:116-119 | A resolved name made only of letters and inner white space is shown lower-cased and otherwise unchanged. |
| Search.DisplayNameUnknown | src/store/recipeStore.ts:111-119 | A missing or empty author name is searched as "unknown author". |
| Search.PrepareKeepsDisplayName | src/store/recipeStore.ts:84-87 | Saving a recipe changes the form of its author, not the name it is searched by. |
| Search.MatchesIffOccurs | src/store/recipeStore.ts:121-124 | The callback `Matches` keeps a recipe exactly when the lower-cased query occurs at some index of its lower-cased name or of its author display name. |
| Search.EmptyQueryMatchesAll | src/store/recipeStore.ts:121-124 | Every recipe matches the empty query. |
| Search.FilterByQuery | src/store/recipeStore.ts:108-125 | The result is an order-preserving subsequence of the recipes. Every kept recipe has a lower-cased name or display name that includes the lower-cased query. Every recipe that has one is kept, as many times as it occurs; no other recipe is. The empty query keeps every recipe. |
| Sequences.Filter | src/store/recipeStore.ts:109 | `filter` returns no more elements than it is given. Every element it returns passes the test, and every passing element is returned. |
| Sequences.FilterCounts | src/store/recipeStore.ts:109 | A value that passes occurs in the result exactly as often as in the input. Any other value does not occur at all. |
| Sequences.FilterIdempotent | src/store/recipeStore.ts:109 | Filtering again with the same test changes nothing. |
| Sequences.FilterIsSubsequence | src/store/recipeStore.ts:109 | `filter` keeps the original order. |
| Sequences.FilterConcat | src/store/recipeStore.ts:96-98 | Filtering a concatenation filters each part. |
| Pagination.TotalPages | src/store/recipeStore.ts:150-152 | The ceiling of `n / 9`: the fewest pages holding `n` items, and 0 exactly for an empty list. |
| Pagination.NextPageGuard | src/store/recipeStore.ts:130 | The guard `currentPage * 9 < length` holds exactly when `currentPage < totalPages`. |
| Pagination.Page | src/store/recipeStore.ts:144-148 | The slice from `(page-1)*9` of at most 9 items, clipped to the list, and empty when it starts past the end. |
| Pagination.PageNonEmptyIff | src/store/recipeStore.ts:144-152 | A page has items exactly when its number is at most `totalPages`. |
| Pagination.PagesFromCover | src/store/recipeStore.ts:144-148 | The pages from one page on hold exactly the items from that page's start on. |
| Pagination.PagesCoverAll | src/store/recipeStore.ts:144-152 | Pages 1 to `totalPages` laid end to end are the whole filtered list. |
| Store.RecipeStore.constructor | src/store/recipeStore.ts:18-26 | The store starts empty, on page 1, with the saved list read from storage. |
| Store.RecipeStore.FetchRecipes | src/store/recipeStore.ts:30-55 | On success, `recipes` becomes the normalised records and `filteredRecipes` equals `recipes`. A failed request, or a record whose instructions raise, leaves every field unchanged. The cursor and the saved list are never touched. |
| Store.RecipeStore.SaveRecipe | src/store/recipeStore.ts:76-93 | Appends exactly the prepared recipe at the end of `savedRecipes` and mirrors the list to storage. When the source raises, nothing changes. |
| Store.RecipeStore.RemoveRecipe | src/store/recipeStore.ts:95-100 | `savedRecipes` loses exactly the entries with the given id, and storage mirrors it. |
| Store.RecipeStore.AddRecipe | src/store/recipeStore.ts:102-105 | Appends the recipe to `recipes` and sets `filteredRecipes` to the new list. It keeps the cursor in range. |
| Store.RecipeStore.FilterRecipes | src/store/recipeStore.ts:107-127 | `filteredRecipes` becomes the query's matches, `currentPage` becomes 1, and `recipes` is unchanged. |
| Store.RecipeStore.NextPage | src/store/recipeStore.ts:129-133 | Advances one page only when the cursor is before the last page, so the cursor stays in range. |
| Store.RecipeStore.PrevPage | src/store/recipeStore.ts:135-139 | Goes back one page but never below 1. |
| Store.RecipeStore.PaginatedRecipes | src/store/recipeStore.ts:144-148 | At most 9 recipes: those of the filtered list from index `(currentPage-1)*9` on. The page is non-empty when the list is non-empty and the cursor is in range. |
| Store.RecipeStore.TotalPages | src/store/recipeStore.ts:150-152 | Enough pages for the filtered list, and 0 exactly when the list is empty. |
| Store.WithoutId | src/store/recipeStore.ts:96-98 | No remaining entry has the id. Every other entry is kept, in order, with as many copies as before. When the id is absent the list is unchanged. |
| Store.WithoutIdIdempotent | src/store/recipeStore.ts:96-98 | Removing the same id twice is the same as removing it once. |
| Store.WithoutIdConcat | src/store/recipeStore.ts:96-98 | Removal acts on each part of the list independently. |
| Scenarios.JaneDoeDisplayName | src/store/recipeStore.ts:116-119 | "Jane Doe (chef)" is searched as "jane doe". |
| Scenarios.PieNormalised | src/store/recipeStore.ts:35-50 | A fetched record with steps "Mix" and "Bake" and no image gets id 1, instructions "Mix\nBake", its author as given, and the placeholder image. |
| Scenarios.PieFound | src/store/recipeStore.ts:107-125 | Searching for "jane" finds that recipe through its author. |

## Left out

- The HTTP request to the fixed dataset URL, and the `console.error` logging of failures, are left out. `FetchRecipes` takes the request's outcome as a parameter. `None` stands for a failed request or a non-array payload.
- Local storage and JSON are left out. The initial `JSON.parse` of the stored list is the constructor's parameter. Each write is the ghost field `stored`. Serialisation and the round trip through it are not modelled, and neither is an unparsable stored value.
- Pinia's `defineStore` and Vue reactivity are left out. The getters are plain functions of the state. `itemsPerPage` is the constant 9, since no action changes it.
- `filteredRecipes = this.recipes` shares one array. The model copies values instead, because no action makes the sharing observable.
- HasUsableImage: string lengths are counted in Unicode characters, not in the UTF-16 code units that JavaScript's `length` counts. A first image entry with characters outside the Basic Multilingual Plane can be usable in the source but not in the model; for example, three emoji have length 6 in JavaScript and 3 here.
- Lower-casing the recipe name and the query covers ASCII letters only; Unicode case mapping is not modelled. The display name is exact, because after the cut it holds only ASCII letters and white space.
- Instructions values outside `Raw` are left out. A step object whose `text` is a truthy non-string, such as a number, is not modelled.
- A non-array `image` is left out, except that a string image gives a one-character first entry and so behaves like an absent one.
- Record fields of other types are left out: a `name` or `description` that is not a string, and an `author` that is an array or a number.
- The `TypeError` from a `null` step is modelled as a condition (`Throws`), not as an exception. `FormatInstructions` requires that it does not hold. `FetchRecipes` models the catch that follows. `SaveRecipe` reports the raise as its `raised` result; the propagation to its caller is not modelled.
- `Math.ceil` over a floating-point quotient is modelled as integer ceiling division.
- Overlapping fetches are not modelled: the store is single-threaded, and when two fetches overlap the last to finish wins.
- src/router/index.ts is a declarative route table with no logic; it is not part of this model.

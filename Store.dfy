/** The Pinia store `recipeStore` (src/store/recipeStore.ts:17-154) as an
    object whose actions update its fields in place. */
module Store {
  import opened Wrappers
  import opened Sequences
  import opened Instructions
  import opened Recipes
  import opened Search
  import Pagination

  class RecipeStore {
    /** The full normalised list, replaced by a fetch and grown by `AddRecipe`. */
    var recipes: seq<Recipe>
    /** The user's saved recipes. */
    var savedRecipes: seq<Recipe>
    /** The recipes matching the last search. */
    var filteredRecipes: seq<Recipe>
    /** The 1-based page cursor into `filteredRecipes`. */
    var currentPage: int
    /** The list last written under the local-storage key "savedRecipes". */
    ghost var stored: seq<Recipe>

    /** The invariant every action keeps: the cursor is at least 1, the
        filtered list is an order-preserving selection of `recipes`, and
        local storage mirrors the saved list. */
    ghost predicate Valid()
      reads this
    {
      1 <= currentPage &&
      IsSubsequence(filteredRecipes, recipes) &&
      stored == savedRecipes
    }

    /** The cursor names an existing page, or page 1 of an empty list. */
    ghost predicate CursorInRange()
      reads this
    {
      currentPage <= Pagination.Max(1, Pagination.TotalPages(|filteredRecipes|))
    }

    /** The initial state; `saved` is what local storage held at start-up. */
    constructor (saved: seq<Recipe>)
      ensures Valid() && CursorInRange()
      ensures recipes == [] && filteredRecipes == [] && currentPage == 1
      ensures savedRecipes == saved && stored == saved
    {
      recipes := [];
      savedRecipes := saved;
      filteredRecipes := [];
      currentPage := 1;
      stored := saved;
    }

    /** `fetchRecipes`, given the outcome of the request: `None` when the
        request failed or its payload is not an array. A failure, or a
        record whose instructions make the formatter raise, is caught and
        leaves the state untouched; otherwise the normalised records replace
        `recipes` and `filteredRecipes`. The cursor is not reset. */
    method FetchRecipes(response: Option<seq<RawRecord>>)
      requires Valid()
      modifies this
      ensures Valid()
      ensures if response.Some? && Normalisable(response.value) then
                recipes == Normalise(response.value) && filteredRecipes == recipes
              else
                recipes == old(recipes) && filteredRecipes == old(filteredRecipes)
      ensures savedRecipes == old(savedRecipes) && currentPage == old(currentPage)
      ensures stored == old(stored)
    {
      if response.Some? && Normalisable(response.value) {
        recipes := Normalise(response.value);
        filteredRecipes := recipes;
        SubsequenceRefl(recipes);
      }
    }

    /** `saveRecipe`: appends the prepared recipe at the end of the saved
        list and writes the whole list to storage. `raised` reports the
        `TypeError` the source raises before the push, when `instructions`
        is empty and formatting `recipeInstructions` raises; nothing changes
        then. */
    method SaveRecipe(recipe: Recipe) returns (raised: bool)
      requires Valid()
      modifies this
      ensures Valid()
      ensures raised == SavingThrows(recipe)
      ensures raised ==> savedRecipes == old(savedRecipes)
      ensures !raised ==> savedRecipes == old(savedRecipes) + [PrepareForSaving(recipe)]
      ensures recipes == old(recipes) && filteredRecipes == old(filteredRecipes)
      ensures currentPage == old(currentPage)
    {
      raised := SavingThrows(recipe);
      if !raised {
        savedRecipes := savedRecipes + [PrepareForSaving(recipe)];
        stored := savedRecipes;
      }
    }

    /** `removeRecipe`: keeps the saved entries whose id differs from the
        given recipe's, and writes the whole list to storage. */
    method RemoveRecipe(recipe: Recipe)
      requires Valid()
      modifies this
      ensures Valid()
      ensures savedRecipes == WithoutId(old(savedRecipes), recipe.id)
      ensures recipes == old(recipes) && filteredRecipes == old(filteredRecipes)
      ensures currentPage == old(currentPage)
    {
      savedRecipes := WithoutId(savedRecipes, recipe.id);
      stored := savedRecipes;
    }

    /** `addRecipe`: appends the recipe as given (it is not normalised) and
        shows the full list again. */
    method AddRecipe(recipe: Recipe)
      requires Valid()
      modifies this
      ensures Valid()
      ensures recipes == old(recipes) + [recipe] && filteredRecipes == recipes
      ensures savedRecipes == old(savedRecipes) && currentPage == old(currentPage)
      ensures stored == old(stored)
      ensures old(CursorInRange()) ==> CursorInRange()
    {
      SubsequenceLength(filteredRecipes, recipes);
      recipes := recipes + [recipe];
      filteredRecipes := recipes;
      SubsequenceRefl(recipes);
    }

    /** `filterRecipes`: the recipes matching the query, and back to page 1. */
    method FilterRecipes(query: string)
      requires Valid()
      modifies this
      ensures Valid() && CursorInRange()
      ensures filteredRecipes == FilterByQuery(recipes, query) && currentPage == 1
      ensures recipes == old(recipes) && savedRecipes == old(savedRecipes)
      ensures stored == old(stored)
    {
      filteredRecipes := FilterByQuery(recipes, query);
      currentPage := 1;
      assert Pagination.Max(1, Pagination.TotalPages(|filteredRecipes|)) >= 1;
    }

    /** `nextPage`: one page on, unless the current page is the last. */
    method NextPage()
      requires Valid()
      modifies this
      ensures Valid()
      ensures currentPage == if old(currentPage) < Pagination.TotalPages(|filteredRecipes|)
                             then old(currentPage) + 1 else old(currentPage)
      ensures old(CursorInRange()) ==> CursorInRange()
      ensures recipes == old(recipes) && filteredRecipes == old(filteredRecipes)
      ensures savedRecipes == old(savedRecipes) && stored == old(stored)
    {
      Pagination.NextPageGuard(currentPage, |filteredRecipes|);
      if currentPage * Pagination.ItemsPerPage < |filteredRecipes| {
        currentPage := currentPage + 1;
      }
    }

    /** `prevPage`: one page back, never below page 1. */
    method PrevPage()
      requires Valid()
      modifies this
      ensures Valid()
      ensures currentPage == if old(currentPage) > 1 then old(currentPage) - 1 else 1
      ensures old(CursorInRange()) ==> CursorInRange()
      ensures recipes == old(recipes) && filteredRecipes == old(filteredRecipes)
      ensures savedRecipes == old(savedRecipes) && stored == old(stored)
    {
      if currentPage > 1 {
        currentPage := currentPage - 1;
      }
    }

    /** The getter `paginatedRecipes`: the current page of the filtered list. */
    function PaginatedRecipes(): (page: seq<Recipe>)
      reads this
      requires Valid()
      ensures |page| <= Pagination.ItemsPerPage
      ensures |page| == Pagination.Max(0, Pagination.Min(Pagination.ItemsPerPage,
                          |filteredRecipes| - (currentPage - 1) * Pagination.ItemsPerPage))
      ensures forall k :: 0 <= k < |page| ==>
                page[k] == filteredRecipes[(currentPage - 1) * Pagination.ItemsPerPage + k]
      ensures CursorInRange() && filteredRecipes != [] ==> page != []
    {
      Pagination.PageNonEmptyIff(filteredRecipes, currentPage);
      Pagination.Page(filteredRecipes, currentPage)
    }

    /** The getter `totalPages`. */
    function TotalPages(): (n: nat)
      reads this
      ensures n * Pagination.ItemsPerPage >= |filteredRecipes|
      ensures n == 0 <==> filteredRecipes == []
    {
      Pagination.TotalPages(|filteredRecipes|)
    }
  }

  /** `saved.filter(r => r.id !== id)`: every entry with another id keeps
      its place and its number of copies, and no entry with `id` remains. */
  function WithoutId(saved: seq<Recipe>, id: int): (r: seq<Recipe>)
    ensures IsSubsequence(r, saved)
    ensures forall i :: 0 <= i < |r| ==> r[i].id != id
    ensures forall i :: 0 <= i < |saved| && saved[i].id != id ==> saved[i] in r
    ensures forall x :: multiset(r)[x] == if x.id != id then multiset(saved)[x] else 0
    ensures (forall i :: 0 <= i < |saved| ==> saved[i].id != id) ==> r == saved
  {
    var keep := (x: Recipe) => x.id != id;
    FilterIsSubsequence(saved, keep);
    FilterCounts(saved, keep);
    if forall i :: 0 <= i < |saved| ==> saved[i].id != id then
      FilterAllPass(saved, keep);
      Filter(saved, keep)
    else
      Filter(saved, keep)
  }

  /** Removing the same id twice removes nothing more the second time. */
  lemma WithoutIdIdempotent(saved: seq<Recipe>, id: int)
    ensures WithoutId(WithoutId(saved, id), id) == WithoutId(saved, id)
  {
    FilterIdempotent(saved, (x: Recipe) => x.id != id);
  }

  /** Removal distributes over the parts of the list: in particular,
      entries saved later do not affect what happens to earlier ones. */
  lemma WithoutIdConcat(a: seq<Recipe>, b: seq<Recipe>, id: int)
    ensures WithoutId(a + b, id) == WithoutId(a, id) + WithoutId(b, id)
  {
    FilterConcat(a, b, (x: Recipe) => x.id != id);
  }
}

/** The `Recipe` shape (src/store/recipeStore.ts:4-14), the normaliser that
    `fetchRecipes` maps over the fetched records (lines 35-50), and the
    defensive re-formatting that `saveRecipe` applies (lines 77-88). */
module Recipes {
  import opened Wrappers
  import opened Instructions

  /** The `author` union: an object with a `name` (an absent name is the
      empty string, both being falsy), a plain string, or no author at all
      (`null` or `undefined`). */
  datatype Author = Named(name: string) | Plain(s: string) | NoAuthor

  /** A canonical recipe. `recipeIngredient` and `ingredients` are optional
      in the interface; the normaliser always fills both. */
  datatype Recipe = Recipe(
    id: int,
    name: string,
    author: Author,
    description: string,
    image: seq<string>,
    recipeIngredient: Option<seq<string>>,
    ingredients: Option<seq<string>>,
    recipeInstructions: Raw,
    instructions: string)

  /** A fetched record, as far as the normaliser reads it; an absent
      `recipeInstructions` is `Undefined`. */
  datatype RawRecord = RawRecord(
    name: string,
    author: Author,
    description: string,
    image: Option<seq<string>>,
    recipeIngredient: Option<seq<string>>,
    recipeInstructions: Raw)

  const Placeholder := "https://via.placeholder.com/300x200?text=Image+Not+Available"

  /** `recipe.image && recipe.image[0]?.length >= 5`: an absent or empty
      image list is never usable, and a usable one has a first entry. */
  predicate HasUsableImage(image: Option<seq<string>>)
    ensures HasUsableImage(image) ==> image.Some? && |image.value| >= 1
    ensures image == None || image == Some([]) ==> !HasUsableImage(image)
  {
    image.Some? && |image.value| > 0 && |image.value[0]| >= 5
  }

  /** The invariant the normaliser establishes: there is at least one image,
      both ingredient fields hold the same list, and `instructions` is the
      formatted `recipeInstructions`. */
  predicate Canonical(r: Recipe)
  {
    |r.image| >= 1 &&
    r.recipeIngredient.Some? && r.ingredients == r.recipeIngredient &&
    !Throws(r.recipeInstructions) && r.instructions == FormatInstructions(r.recipeInstructions)
  }

  /** No record makes the formatter raise (a raise aborts the whole `map`). */
  predicate Normalisable(raws: seq<RawRecord>)
  {
    forall i :: 0 <= i < |raws| ==> !Throws(raws[i].recipeInstructions)
  }

  /** The arrow function given to `map`, for the record at 0-based `index`:
      a canonical recipe numbered `index + 1` that keeps the record's image
      list only when it is usable. */
  function NormaliseRecord(raw: RawRecord, index: nat): (r: Recipe)
    requires !Throws(raw.recipeInstructions)
    ensures Canonical(r) && r.id == index + 1
    ensures r.recipeInstructions == raw.recipeInstructions
    ensures HasUsableImage(raw.image) ==> r.image == raw.image.value
    ensures !HasUsableImage(raw.image) ==> r.image == [Placeholder]
  {
    var ingredients := raw.recipeIngredient.GetOr([]);
    Recipe(
      index + 1,
      raw.name,
      raw.author,
      raw.description,
      if HasUsableImage(raw.image) then raw.image.value else [Placeholder],
      Some(ingredients),
      Some(ingredients),
      raw.recipeInstructions,
      FormatInstructions(raw.recipeInstructions))
  }

  /** `response.data.map(...)`: one canonical recipe per record, in order,
      numbered from 1; name, author, description and raw instructions are
      copied; the ingredient list (or `[]`) is held by both aliases; the
      image list is kept when its first entry has at least five characters
      and is the one placeholder otherwise. */
  function Normalise(raws: seq<RawRecord>): (rs: seq<Recipe>)
    requires Normalisable(raws)
    ensures |rs| == |raws|
    ensures forall i :: 0 <= i < |raws| ==>
              && rs[i].id == i + 1
              && rs[i].name == raws[i].name
              && rs[i].author == raws[i].author
              && rs[i].description == raws[i].description
              && rs[i].recipeInstructions == raws[i].recipeInstructions
              && rs[i].recipeIngredient == rs[i].ingredients == Some(raws[i].recipeIngredient.GetOr([]))
              && rs[i].instructions == FormatInstructions(raws[i].recipeInstructions)
              && (HasUsableImage(raws[i].image) ==> rs[i].image == raws[i].image.value)
              && (!HasUsableImage(raws[i].image) ==> rs[i].image == [Placeholder])
              && Canonical(rs[i])
  {
    seq(|raws|, i requires 0 <= i < |raws| && Normalisable(raws) => NormaliseRecord(raws[i], i))
  }

  /** The ids the normaliser hands out are the positions 1..n, so no two
      recipes of one batch share an id. */
  lemma NormaliseIdsDistinct(raws: seq<RawRecord>, i: nat, j: nat)
    requires Normalisable(raws)
    requires i < |raws| && j < |raws| && i != j
    ensures Normalise(raws)[i].id != Normalise(raws)[j].id
  {
  }

  /** `saveRecipe` raises before it changes anything when `instructions` is
      empty and formatting `recipeInstructions` raises. */
  predicate SavingThrows(r: Recipe)
  {
    r.instructions == "" && Throws(r.recipeInstructions)
  }

  /** `formattedRecipe` in `saveRecipe`: a string author becomes `{name}`,
      both ingredient aliases get `recipeIngredient || ingredients || []`,
      an empty `instructions` is recomputed from `recipeInstructions`, and
      every other field is kept as given. */
  function PrepareForSaving(r: Recipe): (p: Recipe)
    requires !SavingThrows(r)
    ensures !p.author.Plain?
    ensures r.author.Plain? ==> p.author == Named(r.author.s)
    ensures !r.author.Plain? ==> p.author == r.author
    ensures p.recipeIngredient == p.ingredients
    ensures p.recipeIngredient == Some(r.recipeIngredient.GetOr(r.ingredients.GetOr([])))
    ensures r.instructions != "" ==> p.instructions == r.instructions
    ensures r.instructions == "" ==> p.instructions == FormatInstructions(r.recipeInstructions)
    ensures p.id == r.id && p.name == r.name && p.description == r.description
    ensures p.image == r.image && p.recipeInstructions == r.recipeInstructions
  {
    var ingredients := r.recipeIngredient.GetOr(r.ingredients.GetOr([]));
    r.(
      ingredients := Some(ingredients),
      recipeIngredient := Some(ingredients),
      instructions := if r.instructions != "" then r.instructions else FormatInstructions(r.recipeInstructions),
      author := if r.author.Plain? then Named(r.author.s) else r.author)
  }

  /** Preparing an already prepared recipe changes nothing. */
  lemma PrepareIdempotent(r: Recipe)
    requires !SavingThrows(r)
    ensures !SavingThrows(PrepareForSaving(r))
    ensures PrepareForSaving(PrepareForSaving(r)) == PrepareForSaving(r)
  {
  }

  /** A canonical recipe stays canonical when saved, and only the form of a
      string author changes. */
  lemma PrepareCanonical(r: Recipe)
    requires Canonical(r)
    ensures !SavingThrows(r)
    ensures Canonical(PrepareForSaving(r))
    ensures PrepareForSaving(r) == r.(author := if r.author.Plain? then Named(r.author.s) else r.author)
  {
  }
}

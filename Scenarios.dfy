/** Worked cases of the store's behaviour: one fetched record followed
    through normalisation, search, saving and removal. */
module Scenarios {
  import opened Wrappers
  import opened Text
  import opened Instructions
  import opened Recipes
  import opened Search
  import opened Store

  const PieRecord := RawRecord("Pie", Plain(JaneDoe), "", None, Some(["flour"]),
                               Arr([Str("Mix"), Str("Bake")]))

  const JaneDoe := "Jane Doe (chef)"

  /** The first nine characters of "Jane Doe (chef)" are letters and
      spaces, and the tenth is a parenthesis. */
  lemma JaneDoeCutAtNine()
    ensures forall i :: 0 <= i < 9 ==> IsNameChar(JaneDoe[i])
    ensures !IsNameChar(JaneDoe[9])
    ensures JaneDoe[..9] == "Jane Doe "
  {
    forall i | 0 <= i < 9 ensures IsNameChar(JaneDoe[i]) {
      assert IsLetter(JaneDoe[i]) || JaneDoe[i] as int == 0x20;
    }
  }

  /** "Jane Doe (chef)" is cut at the parenthesis, trimmed and lower-cased. */
  lemma JaneDoeDisplayName()
    ensures AuthorDisplayName(Plain(JaneDoe)) == "jane doe"
  {
    JaneDoeCutAtNine();
    DisplayNameCut(Plain(JaneDoe), 9);
    JaneDoeTrim();
    JaneDoeLower();
  }

  lemma JaneDoeTrim()
    ensures Trim("Jane Doe ") == "Jane Doe"
  {
    var s := "Jane Doe ";
    assert !IsSpace(s[0]) && IsSpace(s[8]);
    assert TrimStart(s) == s;
    assert s[..8] == "Jane Doe";
    assert !IsSpace("Jane Doe"[7]);
    assert TrimEnd("Jane Doe") == "Jane Doe";
    assert TrimEnd(s) == "Jane Doe";
  }

  lemma JaneDoeLower()
    ensures Lower("Jane Doe") == "jane doe"
    ensures Lower("jane") == "jane"
  {
    var l := Lower("Jane Doe");
    forall i | 0 <= i < |l| ensures l[i] == "jane doe"[i] {
      assert l[i] == LowerChar("Jane Doe"[i]);
    }
    var m := Lower("jane");
    forall i | 0 <= i < |m| ensures m[i] == "jane"[i] {
      assert m[i] == LowerChar("jane"[i]);
    }
  }

  /** The recipe the pie record normalises to. */
  const PieRecipe := Recipe(1, "Pie", Plain(JaneDoe), "", [Placeholder], Some(["flour"]), Some(["flour"]),
                            Arr([Str("Mix"), Str("Bake")]), "Mix\nBake")

  lemma PieInstructions()
    ensures !Throws(PieRecord.recipeInstructions)
    ensures FormatInstructions(PieRecord.recipeInstructions) == "Mix\nBake"
  {
    NoNullNoThrow(PieRecord.recipeInstructions.items);
    assert !IsTextStep(Str("Mix"));
    assert Strings([Str("Mix"), Str("Bake")]) == ["Mix", "Bake"];
    assert Join(["Mix", "Bake"], "\n") == "Mix\nBake";
  }

  /** The fetched pie gets id 1, its two steps joined by a newline, its
      author as given and the placeholder image. */
  lemma PieNormalised()
    ensures Normalisable([PieRecord])
    ensures Normalise([PieRecord]) == [PieRecipe]
  {
    PieInstructions();
    assert !HasUsableImage(PieRecord.image);
  }

  /** The pie's display name "jane doe" includes the query "jane". */
  lemma PieMatchesJane()
    ensures Matches(PieRecipe, Lower("jane"))
  {
    PieAuthorIncludesJane();
    JaneDoeLower();
  }

  lemma PieAuthorIncludesJane()
    ensures Contains(AuthorDisplayName(PieRecipe.author), "jane")
  {
    JaneDoeDisplayName();
    JaneDoeIncludesJane();
  }

  lemma JaneDoeIncludesJane()
    ensures Contains("jane doe", "jane")
  {
    assert "jane doe"[..4] == "jane";
    assert IsPrefix("jane", "jane doe");
  }

  /** Searching for "jane" finds the pie through its author. */
  lemma PieFound()
    ensures FilterByQuery([PieRecipe], "jane") == [PieRecipe]
  {
    PieMatchesJane();
    var out := FilterByQuery([PieRecipe], "jane");
    Sequences.SubsequenceLength(out, [PieRecipe]);
    assert PieRecipe in out;
  }

  /** A client run of the store: fetch, search and page. */
  method StoreRun()
  {
    var store := new RecipeStore([]);
    PieNormalised();
    store.FetchRecipes(Some([PieRecord]));
    assert store.recipes == [PieRecipe];

    PieFound();
    store.FilterRecipes("jane");
    assert store.filteredRecipes == [PieRecipe] && store.currentPage == 1;
    OnePage([PieRecipe]);
    assert store.TotalPages() == 1;
    store.NextPage();
    assert store.currentPage == 1;
    assert store.PaginatedRecipes() == [PieRecipe];
  }

  /** A one-item list fills exactly one page. */
  lemma OnePage(items: seq<Recipe>)
    requires |items| == 1
    ensures Pagination.TotalPages(|items|) == 1
    ensures Pagination.Page(items, 1) == items
  {
  }

  /** A client run of saving: the saved pie is stored with an `{name}`
      author, and removing it by id empties the list again. */
  method SaveRun()
  {
    var store := new RecipeStore([]);
    var pie := PieRecipe;
    PieSaved();
    var raised := store.SaveRecipe(pie);
    assert !raised;
    assert store.savedRecipes == [PieRecipe.(author := Named(JaneDoe))];

    RemoveOnlyEntry(store.savedRecipes, pie.id);
    store.RemoveRecipe(pie);
    assert store.savedRecipes == [];
  }

  /** Saving the pie keeps it as fetched, except that its string author
      becomes `{name: "Jane Doe (chef)"}`. */
  lemma PieSaved()
    ensures !SavingThrows(PieRecipe)
    ensures PrepareForSaving(PieRecipe) == PieRecipe.(author := Named(JaneDoe))
  {
  }

  /** Removing the id of the only saved entry empties the list. */
  lemma RemoveOnlyEntry(saved: seq<Recipe>, id: int)
    requires |saved| == 1 && saved[0].id == id
    ensures WithoutId(saved, id) == []
  {
    assert multiset(WithoutId(saved, id))[saved[0]] == 0;
  }
}

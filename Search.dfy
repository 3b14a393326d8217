/** The search of `filterRecipes` (src/store/recipeStore.ts:107-127): an
    author display name is derived from the `author` union, and a recipe is
    kept when its lower-cased name or that display name includes the
    lower-cased query. */
module Search {
  import opened Text
  import opened Sequences
  import opened Recipes

  const UnknownAuthor := "Unknown Author"

  /** `recipe.author.name || "Unknown Author"` for an object author,
      `recipe.author || "Unknown Author"` otherwise. */
  function ResolvedAuthorName(a: Author): (n: string)
    ensures n != ""
    ensures a.Named? && a.name != "" ==> n == a.name
    ensures a.Plain? && a.s != "" ==> n == a.s
    ensures a.NoAuthor? || a == Named("") || a == Plain("") ==> n == UnknownAuthor
  {
    match a
    case Named(name) => if name != "" then name else UnknownAuthor
    case Plain(s) => if s != "" then s else UnknownAuthor
    case NoAuthor => UnknownAuthor
  }

  /** `authorName.split(/[^a-zA-Z\s]/)[0].trim().toLowerCase()`: only
      lower-case letters and white space remain, and no white space at
      either end. */
  function AuthorDisplayName(a: Author): (r: string)
    ensures forall i :: 0 <= i < |r| ==> IsLower(r[i]) || IsSpace(r[i])
    ensures r == "" || (!IsSpace(r[0]) && !IsSpace(r[|r| - 1]))
  {
    var t := Trim(NamePrefix(ResolvedAuthorName(a)));
    TrimmedNamePrefix(ResolvedAuthorName(a));
    LowerOfNameChars(t);
    Lower(t)
  }

  /** The trimmed name prefix is made of name characters. */
  lemma TrimmedNamePrefix(n: string)
    ensures forall i :: 0 <= i < |Trim(NamePrefix(n))| ==> IsNameChar(Trim(NamePrefix(n))[i])
  {
    var p := NamePrefix(n);
    var t := Trim(p);
    var k :| TrimmedAt(p, t, k);
    forall i | 0 <= i < |t| ensures IsNameChar(t[i]) {
      assert t[i] == p[k + i];
    }
  }

  /** The display name is the lower-cased trim of the resolved name cut at
      its first character that is neither a letter nor white space. */
  lemma DisplayNameCut(a: Author, k: nat)
    requires k <= |ResolvedAuthorName(a)|
    requires forall i :: 0 <= i < k ==> IsNameChar(ResolvedAuthorName(a)[i])
    requires k == |ResolvedAuthorName(a)| || !IsNameChar(ResolvedAuthorName(a)[k])
    ensures AuthorDisplayName(a) == Lower(Trim(ResolvedAuthorName(a)[..k]))
  {
    NamePrefixIs(ResolvedAuthorName(a), k);
  }

  /** A resolved name made only of letters and inner white space is shown
      lower-cased and otherwise unchanged. */
  lemma DisplayNameWhole(a: Author)
    requires forall i :: 0 <= i < |ResolvedAuthorName(a)| ==> IsNameChar(ResolvedAuthorName(a)[i])
    requires !IsSpace(ResolvedAuthorName(a)[0])
    requires !IsSpace(ResolvedAuthorName(a)[|ResolvedAuthorName(a)| - 1])
    ensures AuthorDisplayName(a) == Lower(ResolvedAuthorName(a))
  {
    var n := ResolvedAuthorName(a);
    DisplayNameCut(a, |n|);
    assert n[..|n|] == n;
    TrimUnchanged(n);
  }

  /** "Unknown Author" consists of letters and one inner space. */
  lemma UnknownAuthorNameChars()
    ensures forall i :: 0 <= i < |UnknownAuthor| ==> IsNameChar(UnknownAuthor[i])
    ensures !IsSpace(UnknownAuthor[0]) && !IsSpace(UnknownAuthor[|UnknownAuthor| - 1])
  {
    forall i | 0 <= i < |UnknownAuthor| ensures IsNameChar(UnknownAuthor[i]) {
      assert IsLetter(UnknownAuthor[i]) || UnknownAuthor[i] as int == 0x20;
    }
  }

  /** A missing or empty author name is searched as "unknown author". */
  lemma DisplayNameUnknown(a: Author)
    requires a.NoAuthor? || a == Named("") || a == Plain("")
    ensures AuthorDisplayName(a) == "unknown author"
  {
    UnknownAuthorNameChars();
    DisplayNameWhole(a);
    LowerUnknownAuthor();
  }

  lemma LowerUnknownAuthor()
    ensures Lower(UnknownAuthor) == "unknown author"
  {
    var l := Lower(UnknownAuthor);
    forall i | 0 <= i < |l| ensures l[i] == "unknown author"[i] {
      assert l[i] == LowerChar(UnknownAuthor[i]);
    }
  }

  /** Saving a recipe changes the form of its author, not the name it is
      found by. */
  lemma PrepareKeepsDisplayName(r: Recipe)
    requires !SavingThrows(r)
    ensures AuthorDisplayName(PrepareForSaving(r).author) == AuthorDisplayName(r.author)
  {
    var a := PrepareForSaving(r).author;
    if r.author.Plain? {
      assert a == Named(r.author.s);
    } else {
      assert a == r.author;
    }
    assert ResolvedAuthorName(a) == ResolvedAuthorName(r.author);
  }

  /** The filter callback, for an already lower-cased query. */
  predicate Matches(r: Recipe, cleanedQuery: string)
  {
    Contains(Lower(r.name), cleanedQuery) || Contains(AuthorDisplayName(r.author), cleanedQuery)
  }

  /** A recipe matches exactly when the query occurs at some index of its
      lower-cased name or of its author display name. */
  lemma MatchesIffOccurs(r: Recipe, cleanedQuery: string)
    ensures Matches(r, cleanedQuery) <==>
              (exists i :: OccursAt(Lower(r.name), cleanedQuery, i)) ||
              (exists i :: OccursAt(AuthorDisplayName(r.author), cleanedQuery, i))
  {
    ContainsIffOccurs(Lower(r.name), cleanedQuery);
    ContainsIffOccurs(AuthorDisplayName(r.author), cleanedQuery);
  }

  /** `this.recipes.filter(...)` with the lower-cased query: an
      order-preserving selection of exactly the recipes whose lower-cased
      name or display name includes the query, each as often as it occurs;
      the empty query keeps all. */
  function FilterByQuery(rs: seq<Recipe>, query: string): (out: seq<Recipe>)
    ensures IsSubsequence(out, rs)
    ensures forall i :: 0 <= i < |out| ==> out[i] in rs && Matches(out[i], Lower(query))
    ensures forall i :: 0 <= i < |rs| && Matches(rs[i], Lower(query)) ==> rs[i] in out
    ensures forall x :: multiset(out)[x] == if Matches(x, Lower(query)) then multiset(rs)[x] else 0
    ensures query == "" ==> out == rs
  {
    var keep := r => Matches(r, Lower(query));
    FilterIsSubsequence(rs, keep);
    FilterCounts(rs, keep);
    if query == "" then
      EmptyQueryMatchesAll(rs);
      FilterAllPass(rs, keep);
      Filter(rs, keep)
    else
      Filter(rs, keep)
  }

  /** Every recipe matches the empty query. */
  lemma EmptyQueryMatchesAll(rs: seq<Recipe>)
    ensures forall i :: 0 <= i < |rs| ==> Matches(rs[i], Lower(""))
  {
    forall i | 0 <= i < |rs| ensures Matches(rs[i], Lower("")) {
      assert Lower("") == "";
    }
  }
}

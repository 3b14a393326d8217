/** The page arithmetic of the store: the getters `paginatedRecipes` and
    `totalPages` (src/store/recipeStore.ts:144-152) and the guard of
    `nextPage` (line 130), with the fixed page size of 9 (line 25). */
module Pagination {

  const ItemsPerPage := 9

  function Min(a: int, b: int): int { if a <= b then a else b }

  function Max(a: int, b: int): int { if a >= b then a else b }

  /** `Math.ceil(n / itemsPerPage)`: the fewest pages that hold `n` items;
      no pages at all for no items. */
  function TotalPages(n: nat): (t: nat)
    ensures t * ItemsPerPage >= n
    ensures t > 0 ==> (t - 1) * ItemsPerPage < n
    ensures t == 0 <==> n == 0
  {
    (n + ItemsPerPage - 1) / ItemsPerPage
  }

  /** The `nextPage` guard `currentPage * itemsPerPage < length` holds
      exactly when the current page is not the last one. */
  lemma NextPageGuard(page: int, n: nat)
    requires page >= 1
    ensures page * ItemsPerPage < n <==> page < TotalPages(n)
  {
  }

  /** `items.slice(start, start + itemsPerPage)` with
      `start = (page - 1) * itemsPerPage`: the items from `start` on, at most
      one page of them and none when `start` is past the end. */
  function Page<T>(items: seq<T>, page: int): (r: seq<T>)
    requires page >= 1
    ensures |r| <= ItemsPerPage
    ensures |r| == Max(0, Min(ItemsPerPage, |items| - (page - 1) * ItemsPerPage))
    ensures forall k :: 0 <= k < |r| ==> r[k] == items[(page - 1) * ItemsPerPage + k]
  {
    var start := (page - 1) * ItemsPerPage;
    if start >= |items| then [] else items[start..Min(start + ItemsPerPage, |items|)]
  }

  /** A page has items exactly when its number is at most `TotalPages`. */
  lemma PageNonEmptyIff<T>(items: seq<T>, page: int)
    requires page >= 1
    ensures Page(items, page) != [] <==> page <= TotalPages(|items|)
  {
  }

  /** Pages `page`, `page + 1`, ..., `TotalPages` laid end to end. */
  function PagesFrom<T>(items: seq<T>, page: int): seq<T>
    requires page >= 1
    decreases TotalPages(|items|) + 1 - page
  {
    if page > TotalPages(|items|) then [] else Page(items, page) + PagesFrom(items, page + 1)
  }

  /** From page `page` on, the pages hold exactly the items from that
      page's start on. */
  lemma {:induction false} PagesFromCover<T>(items: seq<T>, page: int)
    requires 1 <= page <= TotalPages(|items|) + 1
    ensures PagesFrom(items, page) == items[Min((page - 1) * ItemsPerPage, |items|)..]
    decreases TotalPages(|items|) + 1 - page
  {
    var start := (page - 1) * ItemsPerPage;
    if page > TotalPages(|items|) {
      assert items[Min(start, |items|)..] == [];
    } else {
      PagesFromCover(items, page + 1);
      var stop := Min(start + ItemsPerPage, |items|);
      assert Page(items, page) == items[start..stop];
      assert items[start..] == items[start..stop] + items[stop..];
    }
  }

  /** The pages 1 to `TotalPages` split the list: every item is on exactly
      one page, in order. */
  lemma PagesCoverAll<T>(items: seq<T>)
    ensures PagesFrom(items, 1) == items
  {
    PagesFromCover(items, 1);
  }
}

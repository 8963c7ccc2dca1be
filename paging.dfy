/**
 * The pagers of the dashboard's three rankings
 * (lab/spotify_history_viz/app.js): ten entries a page, a page number kept
 * between 1 and the page count, and previous/next buttons that are disabled
 * exactly when they would not move.
 */
module Paging {

  /** Entries shown on one page of a ranking. */
  const PageSize := 10

  /** `Math.max(1, Math.ceil(n / 10))`: an empty list still has one page. */
  function TotalPages(n: nat): (r: nat)
    ensures r >= 1
    ensures n <= r * PageSize
    ensures n == 0 || (r - 1) * PageSize < n
  {
    if n == 0 then 1 else (n + PageSize - 1) / PageSize
  }

  /** `items.slice((page - 1) * 10, (page - 1) * 10 + 10)`; `slice` stops at the end of the list. */
  function PageItems<V>(items: seq<V>, page: int): (r: seq<V>)
    requires page >= 1
    ensures |r| <= PageSize
    ensures |r| == if (page - 1) * PageSize >= |items| then 0 else Min(PageSize, |items| - (page - 1) * PageSize)
    ensures forall j :: 0 <= j < |r| ==> r[j] == items[(page - 1) * PageSize + j]
  {
    var start := (page - 1) * PageSize;
    if start >= |items| then []
    else items[start..start + Min(PageSize, |items| - start)]
  }

  function Min(a: int, b: int): int {
    if a <= b then a else b
  }

  function Max(a: int, b: int): int {
    if a >= b then a else b
  }

  /** `Math.min(totalPages, Math.max(1, page + dir))`: the page a pager button leads to. */
  function NextPage(page: int, total: int, dir: int): int {
    Min(total, Max(1, page + dir))
  }

  /** `(dir < 0 && page <= 1) || (dir > 0 && page >= totalPages)`: when `renderRank` disables a button. */
  predicate Disabled(dir: int, page: int, total: int) {
    (dir < 0 && page <= 1) || (dir > 0 && page >= total)
  }

  /** A button leads to a page in range. */
  lemma NextPageInRange(page: int, total: int, dir: int)
    requires total >= 1
    ensures 1 <= NextPage(page, total, dir) <= total
  {
  }

  /** A button stays where it is exactly when it is disabled, or has no direction. */
  lemma DisabledExactlyWhenStill(page: int, total: int, dir: int)
    requires 1 <= page <= total
    ensures NextPage(page, total, dir) == page <==> dir == 0 || Disabled(dir, page, total)
  {
  }

  /** Every entry of a ranking is shown on exactly one page: entry `k` is the `k % 10`-th of page `k / 10 + 1`. */
  lemma PageOfEntry<V>(items: seq<V>, k: int)
    requires 0 <= k < |items|
    ensures var p := k / PageSize + 1;
      1 <= p <= TotalPages(|items|)
      && k % PageSize < |PageItems(items, p)| && PageItems(items, p)[k % PageSize] == items[k]
  {
  }

  /** Any other page does not show entry `k`'s position. */
  lemma PageOfEntryUnique<V>(items: seq<V>, k: int, p: int, j: int)
    requires 0 <= k < |items| && p >= 1 && 0 <= j < |PageItems(items, p)|
    requires (p - 1) * PageSize + j == k
    ensures p == k / PageSize + 1 && j == k % PageSize
  {
  }

  /** One ranking's `rankState` entry: its entries, the page shown and the page count. */
  class Pager<V> {
    var items: seq<V>
    var page: int
    var totalPages: int

    /** The page is within range and the count matches the entries. */
    predicate Valid()
      reads this
    {
      1 <= page <= totalPages && totalPages == TotalPages(|items|)
    }

    /** `{ page: 1, totalPages: 1, items: [] }`. */
    constructor()
      ensures items == [] && page == 1 && totalPages == 1
      ensures Valid()
    {
      items := [];
      page := 1;
      totalPages := 1;
    }

    /** The entries `renderRank` shows. */
    function Shown(): (r: seq<V>)
      reads this
      requires Valid()
      ensures |r| <= PageSize
      ensures items != [] ==> r != []
    {
      PageItems(items, page)
    }

    /** New entries after a filter change: the page count follows them and the page is pulled back into range. */
    method SetItems(xs: seq<V>)
      requires Valid()
      modifies this
      ensures items == xs && totalPages == TotalPages(|xs|)
      ensures page == Min(old(page), totalPages)
      ensures Valid()
    {
      items := xs;
      totalPages := TotalPages(|xs|);
      page := Min(page, totalPages);
    }

    /** A click on a pager button; `moved` is false when the page stays, and then nothing is redrawn. */
    method Click(dir: int) returns (moved: bool)
      requires Valid()
      modifies this
      ensures items == old(items) && totalPages == old(totalPages)
      ensures page == NextPage(old(page), totalPages, dir)
      ensures moved <==> page != old(page)
      ensures Valid()
    {
      var next := NextPage(page, totalPages, dir);
      if next == page {
        return false;
      }
      page := next;
      moved := true;
    }
  }
}

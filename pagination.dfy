/**
 * The page arithmetic shared by the posts timeline (20 per page) and the stories grid (50 per
 * page): `Math.ceil(n / perPage)` pages, page `p` showing `items.slice((p - 1) * perPage,
 * (p - 1) * perPage + perPage)`, a page change accepted only inside `[1, totalPages]`, and the
 * previous / next buttons disabled at the first and the last page.
 */
module Pagination {

  /** `Math.ceil(n / per)`. */
  function TotalPages(n: nat, per: nat): (r: nat)
    requires per > 0
    ensures n <= r * per
    ensures r > 0 ==> (r - 1) * per < n
    ensures n == 0 <==> r == 0
  {
    var q := (n + per - 1) / per;
    var rem := (n + per - 1) % per;
    assert n + per - 1 == q * per + rem && 0 <= rem < per;
    assert q * per == n + per - 1 - rem;
    assert (q - 1) * per == q * per - per;
    q
  }

  /** A bound given to `slice`: a negative one counts from the end; the result lies in `[0, n]`. */
  function SliceBound(x: int, n: nat): (r: nat)
    ensures r <= n
    ensures 0 <= x <= n ==> r == x
    ensures x > n ==> r == n
  {
    if x < 0 then (if n + x < 0 then 0 else n + x) else if x > n then n else x
  }

  /** `s.slice(start, end)`. */
  function Slice<T>(s: seq<T>, start: int, end: int): (r: seq<T>)
    ensures |r| <= |s|
  {
    var from := SliceBound(start, |s|);
    var to := SliceBound(end, |s|);
    if from < to then s[from..to] else []
  }

  /** `startIndex = (currentPage - 1) * itemsPerPage`. */
  function PageStart(page: int, per: nat): int {
    (page - 1) * per
  }

  /** The items shown on `page`. */
  function PageItems<T>(s: seq<T>, page: int, per: nat): seq<T> {
    Slice(s, PageStart(page, per), PageStart(page, per) + per)
  }

  /** The guard of `handlePageChange`. */
  predicate ValidPage(page: int, total: nat) {
    1 <= page <= total
  }

  /** The pagination bar is drawn only when there is more than one page's worth of items. */
  predicate ShowControls(n: nat, per: nat) {
    n > per
  }

  /** `disabled={currentPage === 1}` on the previous-page button. */
  predicate PrevDisabled(page: int) {
    page == 1
  }

  /** `disabled={currentPage === totalPages}` on the next-page button. */
  predicate NextDisabled(page: int, total: nat) {
    page == total
  }

  function Min(a: int, b: int): int {
    if a <= b then a else b
  }

  /**
   * Page `p >= 1` holds the elements at indices `[(p - 1) * per, min(n, p * per))` of the list,
   * in order; it is non-empty exactly on a valid page, and never longer than `per`.
   */
  lemma PageItemsRange<T>(s: seq<T>, page: int, per: nat)
    requires per > 0 && page >= 1
    ensures PageStart(page, per) >= 0
    ensures PageStart(page, per) < |s| ==>
      PageItems(s, page, per) == s[PageStart(page, per)..Min(|s|, page * per)]
    ensures PageStart(page, per) >= |s| ==> PageItems(s, page, per) == []
    ensures |PageItems(s, page, per)| <= per
    ensures PageItems(s, page, per) != [] <==> ValidPage(page, TotalPages(|s|, per))
  {
    var start := PageStart(page, per);
    var total := TotalPages(|s|, per);
    MulMono(1, page, per);
    assert start == page * per - per;
    assert start < |s| <==> ValidPage(page, total) by {
      if page <= total {
        MulMono(page - 1, total - 1, per);
        assert (total - 1) * per == total * per - per;
      } else {
        MulMono(total, page - 1, per);
      }
    }
  }

  lemma MulMono(a: int, b: int, c: nat)
    requires a <= b
    ensures a * c <= b * c
  {
    assert b * c - a * c == (b - a) * c;
  }

  /** Each item of page `p` is the item at its global index `startIndex + i`. */
  lemma PageItemsAt<T>(s: seq<T>, page: int, per: nat, i: nat)
    requires per > 0 && page >= 1 && i < |PageItems(s, page, per)|
    ensures PageStart(page, per) + i < |s|
    ensures PageItems(s, page, per)[i] == s[PageStart(page, per) + i]
  {
    PageItemsRange(s, page, per);
  }

  /** Pages `1..k` one after the other. */
  function Paged<T>(s: seq<T>, per: nat, k: nat): seq<T> {
    if k == 0 then [] else Paged(s, per, k - 1) + PageItems(s, k, per)
  }

  lemma {:induction false} PagedPrefix<T>(s: seq<T>, per: nat, k: nat)
    requires per > 0
    ensures Paged(s, per, k) == s[..Min(|s|, k * per)]
  {
    if k > 0 {
      PagedPrefix(s, per, k - 1);
      PageItemsRange(s, k, per);
      var a := (k - 1) * per;
      var b := k * per;
      assert a == b - per && a == PageStart(k, per);
      assert Paged(s, per, k) == s[..Min(|s|, a)] + PageItems(s, k, per);
      if a < |s| {
        PrefixJoin(s, a, Min(|s|, b));
      }
    }
  }

  lemma PrefixJoin<T>(s: seq<T>, a: nat, c: nat)
    requires a <= c <= |s|
    ensures s[..a] + s[a..c] == s[..c]
  {
  }

  /** Read one after the other, pages `1..totalPages` show the whole list exactly once, in order. */
  lemma PagesCover<T>(s: seq<T>, per: nat)
    requires per > 0
    ensures Paged(s, per, TotalPages(|s|, per)) == s
  {
    PagedPrefix(s, per, TotalPages(|s|, per));
  }

  /** The bar is drawn exactly when there are at least two pages. */
  lemma ShowControlsIff(n: nat, per: nat)
    requires per > 0
    ensures ShowControls(n, per) <==> TotalPages(n, per) > 1
  {
    var total := TotalPages(n, per);
    assert total <= 1 ==> total * per <= per by {
      if total <= 1 {
        MulMono(total, 1, per);
      }
    }
    assert total >= 2 ==> (total - 1) * per >= per by {
      if total >= 2 {
        MulMono(1, total - 1, per);
      }
    }
  }

  /** On a valid page, each button is enabled exactly when the page it asks for is accepted. */
  lemma ButtonsMatchGuard(page: int, total: nat)
    requires ValidPage(page, total)
    ensures !PrevDisabled(page) <==> ValidPage(page - 1, total)
    ensures !NextDisabled(page, total) <==> ValidPage(page + 1, total)
  {
  }

  /** A list of 45: three pages of 20, 20 and 5, and no fourth page. */
  lemma FortyFive<T>(s: seq<T>)
    requires |s| == 45
    ensures TotalPages(|s|, 20) == 3
    ensures |PageItems(s, 1, 20)| == 20 && |PageItems(s, 2, 20)| == 20 && |PageItems(s, 3, 20)| == 5
    ensures PageItems(s, 3, 20) == s[40..]
    ensures PageItems(s, 4, 20) == []
  {
  }
}

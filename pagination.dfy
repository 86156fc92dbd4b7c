/**
 * Pagination of the filtered list (page.tsx:145-147), the previous/next
 * buttons (page.tsx:343, 381) and the page-number strip (page.tsx:351-377).
 */
module Pagination {

  // `itemsPerPage` is 12 (page.tsx:50); the arithmetic below spells it out so
  // that the solver sees multiplication by a literal.

  /** `Math.ceil(count / itemsPerPage)`: the fewest pages that hold `count` entries. */
  function TotalPages(count: nat): (r: nat)
    ensures count <= r * 12
    ensures r > 0 ==> (r - 1) * 12 < count
  {
    (count + 11) / 12
  }

  // ---------------------------------------------------------------------------
  // `Array.prototype.slice`
  // ---------------------------------------------------------------------------

  /** Where a `slice` bound lands: a negative one counts from the end; both are clamped to `[0, len]`. */
  function SliceIndex(i: int, len: nat): (r: nat)
    ensures r <= len
    ensures 0 <= i <= len ==> r == i
    ensures i > len ==> r == len
    ensures i < 0 && -i <= len ==> r == len + i
    ensures i < 0 && -i > len ==> r == 0
  {
    if i < 0 then (if len + i < 0 then 0 else len + i)
    else if i > len then len
    else i
  }

  function Slice<T>(s: seq<T>, start: int, end: int): seq<T> {
    var from, to := SliceIndex(start, |s|), SliceIndex(end, |s|);
    if from < to then s[from..to] else []
  }

  /** `filteredContent.slice(startIndex, startIndex + itemsPerPage)` for page `page`. */
  function PageItems<T>(s: seq<T>, page: int): seq<T> {
    var start := (page - 1) * 12;
    Slice(s, start, start + 12)
  }

  /** No page, whatever its number, holds more than 12 entries. */
  lemma PageItemsBounded<T>(s: seq<T>, page: int)
    ensures |PageItems(s, page)| <= 12
  {
  }

  function Min(a: int, b: int): int {
    if a <= b then a else b
  }

  /** Page `page >= 1` is the stretch of the list from `(page - 1) * 12` to `page * 12`, clamped. */
  lemma PageItemsWindow<T>(s: seq<T>, page: int)
    requires page >= 1
    ensures Min((page - 1) * 12, |s|) <= Min(page * 12, |s|)
    ensures PageItems(s, page) == s[Min((page - 1) * 12, |s|)..Min(page * 12, |s|)]
  {
  }

  /** The first page holds `min(L, 12)` entries. */
  lemma FirstPageSize<T>(s: seq<T>)
    ensures |PageItems(s, 1)| == Min(|s|, 12)
  {
    PageItemsWindow(s, 1);
  }

  /** Every page from 1 to `TotalPages` is non-empty; every page after it is empty. */
  lemma PagesInRange<T>(s: seq<T>, page: int)
    requires page >= 1
    ensures page <= TotalPages(|s|) ==> |PageItems(s, page)| > 0
    ensures page > TotalPages(|s|) ==> PageItems(s, page) == []
  {
    PageItemsWindow(s, page);
  }

  /** Pages 1 to `n`, concatenated. */
  function PagesUpTo<T>(s: seq<T>, n: nat): seq<T>
    decreases n
  {
    if n == 0 then [] else PagesUpTo(s, n - 1) + PageItems(s, n)
  }

  lemma {:induction false} PagesUpToPrefix<T>(s: seq<T>, n: nat)
    ensures PagesUpTo(s, n) == s[..Min(n * 12, |s|)]
    decreases n
  {
    if n > 0 {
      PagesUpToPrefix(s, n - 1);
      PageItemsWindow(s, n);
      var a, b := Min((n - 1) * 12, |s|), Min(n * 12, |s|);
      assert s[..a] + s[a..b] == s[..b];
    }
  }

  /** Pages 1 to `TotalPages`, concatenated, give back the whole list. */
  lemma PagesReassemble<T>(s: seq<T>)
    ensures PagesUpTo(s, TotalPages(|s|)) == s
  {
    PagesUpToPrefix(s, TotalPages(|s|));
    assert s[..|s|] == s;
  }

  // ---------------------------------------------------------------------------
  // Previous and next.
  // ---------------------------------------------------------------------------

  /** `Math.max(prev - 1, 1)` */
  function PreviousPage(p: int): int {
    if p - 1 >= 1 then p - 1 else 1
  }

  /** `Math.min(prev + 1, totalPages)` */
  function FollowingPage(p: int, total: nat): int {
    if p + 1 <= total then p + 1 else total
  }

  /**
   * Previous never goes below page 1 and next never beyond the last page;
   * from a page in range both stay in range and move by at most one.
   */
  lemma NavigationBounds(p: int, total: nat)
    ensures PreviousPage(p) >= 1
    ensures total >= 1 ==> FollowingPage(p, total) <= total
    ensures 1 <= p <= total ==> 1 <= PreviousPage(p) <= p <= FollowingPage(p, total) <= total
    ensures 1 <= p <= total ==> p - PreviousPage(p) <= 1 && FollowingPage(p, total) - p <= 1
    ensures PreviousPage(1) == 1 && FollowingPage(total, total) == total
  {
  }

  // ---------------------------------------------------------------------------
  // The page-number strip.
  // ---------------------------------------------------------------------------

  datatype PageMark = Button | Ellipsis | Omitted

  /** The fate of page `page` in the strip (page.tsx:352-376). */
  function Classify(page: int, current: int, total: int): PageMark {
    if page == 1 || page == total || (current - 2 <= page && page <= current + 2) then Button
    else if page == current - 3 || page == current + 3 then Ellipsis
    else Omitted
  }

  /** The marks of pages 1 to `n`. */
  function MarksUpTo(n: nat, current: int, total: int): (r: seq<PageMark>)
    ensures |r| == n
    decreases n
  {
    if n == 0 then [] else MarksUpTo(n - 1, current, total) + [Classify(n, current, total)]
  }

  /** `Array.from({ length: totalPages }, (_, i) => i + 1).map(...)` */
  function PageMarks(current: int, total: nat): seq<PageMark> {
    MarksUpTo(total, current, total)
  }

  lemma {:induction false} MarksUpToAt(n: nat, current: int, total: int, i: nat)
    requires i < n
    ensures MarksUpTo(n, current, total)[i] == Classify(i + 1, current, total)
    decreases n
  {
    if i < n - 1 {
      MarksUpToAt(n - 1, current, total, i);
    }
  }

  /** Entry `i` of the strip is the mark of page `i + 1`. */
  lemma PageMarksAt(current: int, total: nat, i: nat)
    requires i < total
    ensures PageMarks(current, total)[i] == Classify(i + 1, current, total)
  {
    MarksUpToAt(total, current, total, i);
  }

  /** How many of the pages 1..n lie within two of `current`. */
  function Window(n: nat, current: int): nat {
    var lo := if current - 2 >= 1 then current - 2 else 1;
    var hi := if current + 2 <= n then current + 2 else n;
    if lo <= hi then hi - lo + 1 else 0
  }

  function Indicator(b: bool): nat {
    if b then 1 else 0
  }

  lemma {:induction false} ButtonsUpTo(n: nat, current: int, total: int)
    ensures multiset(MarksUpTo(n, current, total))[Button] <=
      Indicator(n >= 1) + Indicator(1 <= total <= n) + Window(n, current)
    decreases n
  {
    if n > 0 {
      ButtonsUpTo(n - 1, current, total);
      assert multiset(MarksUpTo(n, current, total)) ==
        multiset(MarksUpTo(n - 1, current, total)) + multiset{Classify(n, current, total)};
    }
  }

  lemma {:induction false} EllipsesUpTo(n: nat, current: int, total: int)
    ensures multiset(MarksUpTo(n, current, total))[Ellipsis] <=
      Indicator(1 <= current - 3 <= n) + Indicator(1 <= current + 3 <= n)
    decreases n
  {
    if n > 0 {
      EllipsesUpTo(n - 1, current, total);
      assert multiset(MarksUpTo(n, current, total)) ==
        multiset(MarksUpTo(n - 1, current, total)) + multiset{Classify(n, current, total)};
    }
  }

  /** The strip shows at most seven page buttons: first, last and five around the current page. */
  lemma AtMostSevenButtons(current: int, total: nat)
    ensures multiset(PageMarks(current, total))[Button] <= 7
  {
    ButtonsUpTo(total, current, total);
  }

  /** The strip shows at most two ellipses, one on either side of the current page. */
  lemma AtMostTwoEllipses(current: int, total: nat)
    ensures multiset(PageMarks(current, total))[Ellipsis] <= 2
  {
    EllipsesUpTo(total, current, total);
  }

  /** The first page, the last page and the current page always get a button. */
  lemma EndsAndCurrentShown(current: int, total: nat)
    requires 1 <= current <= total
    ensures Classify(1, current, total) == Button
    ensures Classify(total, current, total) == Button
    ensures Classify(current, current, total) == Button
  {
  }

  /**
   * An omitted page never goes unannounced: the page three away from the
   * current one, on the omitted page's side, carries an ellipsis.
   */
  lemma OmittedPageHasEllipsis(current: int, total: nat, page: int)
    requires 1 <= current <= total && 1 <= page <= total
    requires Classify(page, current, total) == Omitted
    ensures page < current ==> page < current - 3 && Classify(current - 3, current, total) == Ellipsis
    ensures page > current ==> current + 3 < page && Classify(current + 3, current, total) == Ellipsis
  {
  }
}

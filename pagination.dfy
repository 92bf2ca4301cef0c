// The compact page selector shared by the product grid, the user list and
// the shift report: page 1, a window of radius 2 around the current page,
// the last page, and "..." markers where pages are skipped. The three pages
// carry character-for-character identical copies of the helper, so it is
// modelled once here, together with the previous/next guards.

module Pagination {

  import opened Common

  /** One control in the page selector: a page number or the "..." marker. */
  datatype Entry = Page(n: int) | Ellipsis

  /** Radius of the window around the current page (`delta`). */
  const Delta: int := 2

  function Max(a: int, b: int): int { if a < b then b else a }
  function Min(a: int, b: int): int { if a < b then a else b }

  /** The consecutive page entries lo, lo+1, ..., hi (empty when hi < lo). */
  function Pages(lo: int, hi: int): (r: seq<Entry>)
    ensures |r| == Max(0, hi - lo + 1)
    ensures forall k :: 0 <= k < |r| ==> r[k] == Page(lo + k)
  {
    seq(Max(0, hi - lo + 1), k requires 0 <= k < Max(0, hi - lo + 1) => Page(lo + k))
  }

  function WindowStart(currentPage: int): int { Max(2, currentPage - Delta) }
  function WindowEnd(currentPage: int, totalPages: int): int { Min(totalPages - 1, currentPage + Delta) }
  predicate LeadingGap(currentPage: int) { currentPage - Delta > 2 }
  predicate TrailingGap(currentPage: int, totalPages: int) { currentPage + Delta < totalPages - 1 }

  /** The selector as a value: what getPaginationNumbers returns for these inputs. */
  function Selector(currentPage: int, totalPages: int): seq<Entry> {
    [Page(1)]
    + (if LeadingGap(currentPage) then [Ellipsis] else [])
    + Pages(WindowStart(currentPage), WindowEnd(currentPage, totalPages))
    + (if TrailingGap(currentPage, totalPages) then [Ellipsis] else [])
    + (if totalPages > 1 then [Page(totalPages)] else [])
  }

  /**
   * getPaginationNumbers: a loop pushes the window into `range`, then the
   * markers and the end pages are added with unshift and push.
   */
  method PaginationNumbers(currentPage: int, totalPages: int) returns (range: seq<Entry>)
    ensures range == Selector(currentPage, totalPages)
  {
    range := [];
    var lo := Max(2, currentPage - Delta);
    var hi := Min(totalPages - 1, currentPage + Delta);
    var i := lo;
    while i <= hi
      invariant lo <= i <= Max(lo, hi + 1)
      invariant range == Pages(lo, i - 1)
    {
      range := range + [Page(i)];
      i := i + 1;
    }
    if currentPage - Delta > 2 {
      range := [Ellipsis] + range;
    }
    if currentPage + Delta < totalPages - 1 {
      range := range + [Ellipsis];
    }
    range := [Page(1)] + range;
    if totalPages > 1 {
      range := range + [Page(totalPages)];
    }
  }

  /** The page inputs the callers keep: 1 <= currentPage <= totalPages. */
  predicate InRange(currentPage: int, totalPages: int) { 1 <= currentPage <= totalPages }

  predicate IsPage(r: seq<Entry>, i: int) { 0 <= i < |r| && r[i].Page? }

  /** The selector begins with page 1, ends with the last page, and is [1] for a single page. */
  lemma SelectorEnds(c: int, t: int)
    requires InRange(c, t)
    ensures var r := Selector(c, t);
      && |r| >= 1 && r[0] == Page(1)
      && (t > 1 ==> |r| >= 2 && r[|r| - 1] == Page(t))
      && (t == 1 ==> r == [Page(1)])
  {
    var r := Selector(c, t);
    if t == 1 {
      assert Pages(WindowStart(c), WindowEnd(c, t)) == [];
    }
  }

  /** At most nine controls: 1, "...", five window pages, "...", last. */
  lemma SelectorLength(c: int, t: int)
    ensures |Selector(c, t)| <= 9
  {
  }

  /** Position of every piece of the selector, for the index-level lemmas below. */
  lemma SelectorLayout(c: int, t: int)
    requires InRange(c, t)
    ensures var r := Selector(c, t);
      var a := if LeadingGap(c) then 2 else 1;
      var w := Max(0, WindowEnd(c, t) - WindowStart(c) + 1);
      var b := a + w;
      var e := if TrailingGap(c, t) then b + 1 else b;
      && |r| == (if t > 1 then e + 1 else e)
      && r[0] == Page(1)
      && (LeadingGap(c) ==> r[1] == Ellipsis)
      && (forall k :: a <= k < b ==> r[k] == Page(WindowStart(c) + k - a))
      && (TrailingGap(c, t) ==> r[b] == Ellipsis)
      && (t > 1 ==> r[e] == Page(t))
  {
  }

  /** The window contains the current page whenever it is neither the first nor the last. */
  lemma WindowHoldsCurrent(c: int, t: int)
    requires InRange(c, t) && 1 < c < t
    ensures WindowStart(c) <= c <= WindowEnd(c, t)
  {
  }

  /**
   * Page entries are strictly increasing, lie in [1, totalPages], and the
   * current page is among them.
   */
  lemma {:induction false} SelectorPagesOrdered(c: int, t: int)
    requires InRange(c, t)
    ensures var r := Selector(c, t);
      && (forall i :: IsPage(r, i) ==> 1 <= r[i].n <= t)
      && (forall i, j :: IsPage(r, i) && IsPage(r, j) && i < j ==> r[i].n < r[j].n)
      && Page(c) in r
  {
    SelectorPagesIncrease(c, t);
    SelectorHoldsCurrent(c, t);
  }

  /** Where the page entries sit: 1 first, then the window, then the last page. */
  lemma SelectorPageKinds(c: int, t: int)
    requires InRange(c, t)
    ensures var r := Selector(c, t);
      var a := if LeadingGap(c) then 2 else 1;
      var b := a + Max(0, WindowEnd(c, t) - WindowStart(c) + 1);
      var e := if TrailingGap(c, t) then b + 1 else b;
      forall i :: IsPage(r, i) ==>
        (i == 0 && r[i].n == 1) ||
        (a <= i < b && r[i].n == WindowStart(c) + i - a) ||
        (t > 1 && i == e && r[i].n == t)
  {
    SelectorLayout(c, t);
  }

  lemma SelectorPagesIncrease(c: int, t: int)
    requires InRange(c, t)
    ensures var r := Selector(c, t);
      && (forall i :: IsPage(r, i) ==> 1 <= r[i].n <= t)
      && (forall i, j :: IsPage(r, i) && IsPage(r, j) && i < j ==> r[i].n < r[j].n)
  {
    SelectorLayout(c, t);
    SelectorPageKinds(c, t);
  }

  lemma SelectorHoldsCurrent(c: int, t: int)
    requires InRange(c, t)
    ensures Page(c) in Selector(c, t)
  {
    var r := Selector(c, t);
    SelectorLayout(c, t);
    var a := if LeadingGap(c) then 2 else 1;
    var b := a + Max(0, WindowEnd(c, t) - WindowStart(c) + 1);
    var e := if TrailingGap(c, t) then b + 1 else b;
    if c == 1 {
      assert r[0] == Page(c);
    } else if c == t {
      assert r[e] == Page(c);
    } else {
      WindowHoldsCurrent(c, t);
      assert r[a + c - WindowStart(c)] == Page(c);
    }
  }

  /**
   * A leading "..." appears exactly when currentPage - 2 > 2, a trailing one
   * exactly when currentPage + 2 < totalPages - 1.
   */
  lemma {:induction false} SelectorMarkers(c: int, t: int)
    requires InRange(c, t)
    ensures var r := Selector(c, t);
      && (|r| >= 2 && r[1] == Ellipsis <==> c - 2 > 2)
      && (|r| >= 2 && r[|r| - 2] == Ellipsis <==> c + 2 < t - 1)
  {
    var r := Selector(c, t);
    SelectorLayout(c, t);
    SelectorEnds(c, t);
    var a := if LeadingGap(c) then 2 else 1;
    var w := Max(0, WindowEnd(c, t) - WindowStart(c) + 1);
    var b := a + w;
    if !LeadingGap(c) && |r| >= 2 {
      // Entry 1 is then the first window page or the last page.
      assert w > 0 ==> r[1] == Page(WindowStart(c));
    }
    if !TrailingGap(c, t) && |r| >= 2 {
      // Entry |r|-2 is then the last window page, or page 1, or the leading marker.
      if w > 0 {
        assert r[b - 1] == Page(WindowEnd(c, t));
      } else {
        assert t > 1 && !LeadingGap(c);
      }
    }
  }

  /**
   * Each "..." stands for at least one skipped page, and two page entries
   * side by side are consecutive pages: the selector skips pages only where
   * it shows a marker.
   */
  lemma {:induction false} SelectorGaps(c: int, t: int)
    requires InRange(c, t)
    ensures var r := Selector(c, t);
      && (forall i :: 0 <= i < |r| && r[i] == Ellipsis ==>
            0 < i < |r| - 1 && r[i - 1].Page? && r[i + 1].Page? && r[i + 1].n - r[i - 1].n >= 2)
      && (forall i :: 0 <= i < |r| - 1 && r[i].Page? && r[i + 1].Page? ==> r[i + 1].n == r[i].n + 1)
  {
    var r := Selector(c, t);
    SelectorLayout(c, t);
    var a := if LeadingGap(c) then 2 else 1;
    var w := Max(0, WindowEnd(c, t) - WindowStart(c) + 1);
    var b := a + w;
    var e := if TrailingGap(c, t) then b + 1 else b;
    assert LeadingGap(c) ==> w > 0 && WindowStart(c) == c - 2 && WindowStart(c) >= 3;
    assert TrailingGap(c, t) ==> w > 0 && WindowEnd(c, t) == c + 2 && t > 1 && WindowEnd(c, t) <= t - 2;
    assert !LeadingGap(c) && w > 0 ==> WindowStart(c) == 2;
    assert !TrailingGap(c, t) && w > 0 ==> WindowEnd(c, t) == t - 1;
    assert w == 0 ==> t <= 2;
  }

  /** handlePrevPage: the page it moves to, or None when it does nothing. */
  function PrevPage(currentPage: int): Option<int> {
    if currentPage > 1 then Some(currentPage - 1) else None
  }

  /** handleNextPage: the page it moves to, or None when it does nothing. */
  function NextPage(currentPage: int, totalPages: int): Option<int> {
    if currentPage < totalPages then Some(currentPage + 1) else None
  }

  /**
   * The guards keep the page in range: from a page in [1, totalPages] the
   * previous and next buttons only ever ask for a page in [1, totalPages],
   * and they do nothing exactly at the first and the last page.
   */
  lemma GuardsStayInRange(c: int, t: int)
    requires InRange(c, t)
    ensures PrevPage(c).Some? ==> InRange(PrevPage(c).value, t) && PrevPage(c).value == c - 1
    ensures NextPage(c, t).Some? ==> InRange(NextPage(c, t).value, t) && NextPage(c, t).value == c + 1
    ensures PrevPage(c).None? <==> c == 1
    ensures NextPage(c, t).None? <==> c == t
  {
  }
}

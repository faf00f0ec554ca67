/**
 * The pagination bar shared by the Alerts and Raw Data views: the Previous
 * and Next guards and the window of numbered page buttons.
 */
module Pager {
  import opened Common

  /** At most this many numbered buttons are offered. */
  const WindowSize: int := 5

  /** The first numbered button: two before the current page, but never below 1. */
  function WindowStart(page: int): int {
    Max(1, page - 2)
  }

  /** `n` consecutive page numbers from `start`. */
  function Run(start: int, n: nat): seq<int> {
    seq(n, i => start + i)
  }

  /** The candidates that are real pages, in order: a candidate past the last page renders nothing. */
  function DropPast(c: seq<int>, totalPages: int): (r: seq<int>)
    ensures |r| <= |c|
  {
    if |c| == 0 then []
    else (if c[0] > totalPages then [] else [c[0]]) + DropPast(c[1..], totalPages)
  }

  /**
   * The numbered buttons: `min(totalPages, 5)` candidates from the window
   * start, keeping those that do not exceed `totalPages`.
   */
  function Window(page: int, totalPages: int): (w: seq<int>)
    ensures |w| <= Max(0, Min(totalPages, WindowSize))
    ensures forall i :: 0 <= i < |w| ==> w[i] == WindowStart(page) + i
    ensures forall i :: 0 <= i < |w| ==> 1 <= w[i] <= totalPages
    ensures 1 <= page <= totalPages ==> page in w
  {
    var start, n := WindowStart(page), Max(0, Min(totalPages, WindowSize));
    DropPastRun(start, n, totalPages);
    var w := DropPast(Run(start, n), totalPages);
    if 1 <= page <= totalPages then
      assert w[page - start] == page;
      w
    else
      w
  }

  /**
   * Filtering a run of consecutive candidates keeps a prefix of it: the
   * candidates up to `totalPages`.
   */
  lemma {:induction false} DropPastRun(start: int, n: nat, totalPages: int)
    ensures DropPast(Run(start, n), totalPages) == Run(start, Min(n, Max(0, totalPages - start + 1)))
    decreases n
  {
    if n > 0 {
      var c := Run(start, n);
      assert c[0] == start && c[1..] == Run(start + 1, n - 1);
      assert DropPast(c, totalPages) == (if start > totalPages then [] else [start]) + DropPast(c[1..], totalPages);
      DropPastRun(start + 1, n - 1, totalPages);
      var m, m1 := Min(n, Max(0, totalPages - start + 1)), Min(n - 1, Max(0, totalPages - start));
      if start > totalPages {
        assert m == 0 && m1 == 0;
      } else {
        assert m == m1 + 1;
        RunCons(start, m);
      }
    }
  }

  /** A non-empty run is its start followed by the run after it. */
  lemma RunCons(start: int, n: nat)
    requires n > 0
    ensures Run(start, n) == [start] + Run(start + 1, n - 1)
  {
    assert forall i :: 0 <= i < n ==> Run(start, n)[i] == ([start] + Run(start + 1, n - 1))[i];
  }

  /** The window equals the closed form: from the start, as many pages as fit under both limits. */
  lemma WindowClosedForm(page: int, totalPages: int)
    ensures Window(page, totalPages)
      == Run(WindowStart(page), Min(Max(0, Min(totalPages, WindowSize)), Max(0, totalPages - WindowStart(page) + 1)))
  {
    DropPastRun(WindowStart(page), Max(0, Min(totalPages, WindowSize)), totalPages);
  }

  /** A click on the pagination bar. */
  datatype Nav = Prev | Next | Goto(target: int)

  /** Previous is disabled on the first page. */
  predicate PrevEnabled(page: int) {
    !(page <= 1)
  }

  /** Next is disabled on or past the last page of the displayed data. */
  predicate NextEnabled(page: int, totalPages: int) {
    !(page >= totalPages)
  }

  /**
   * The page a click leads to, or `None` when the clicked control is
   * disabled or not on the bar.
   */
  function Navigate(page: int, totalPages: int, nav: Nav): (r: Option<int>)
    ensures nav.Prev? ==> (r.Some? <==> page > 1) && (r.Some? ==> r.value == page - 1)
    ensures nav.Next? ==> (r.Some? <==> page < totalPages) && (r.Some? ==> r.value == page + 1)
    ensures nav.Goto? ==> (r.Some? <==> nav.target in Window(page, totalPages)) && (r.Some? ==> r.value == nav.target)
  {
    match nav
    case Prev => if PrevEnabled(page) then Some(page - 1) else None
    case Next => if NextEnabled(page, totalPages) then Some(page + 1) else None
    case Goto(t) => if t in Window(page, totalPages) then Some(t) else None
  }

  /** Every enabled control, clicked on a valid page, leads to a valid page. */
  lemma NavigateStaysInRange(page: int, totalPages: int, nav: Nav)
    requires 1 <= page <= totalPages
    ensures Navigate(page, totalPages, nav).Some? ==> 1 <= Navigate(page, totalPages, nav).value <= totalPages
  {
  }

  /** From any page at least 1, every enabled control leads to a page at least 1. */
  lemma NavigateKeepsPositive(page: int, totalPages: int, nav: Nav)
    requires page >= 1
    ensures Navigate(page, totalPages, nav).Some? ==> Navigate(page, totalPages, nav).value >= 1
  {
  }
}

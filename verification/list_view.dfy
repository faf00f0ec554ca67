/**
 * The state machine shared by the two paginated views (Alerts and Raw Data):
 * the displayed snapshot, the current page, the filter selection and the
 * loading flag.  `F` is the view's filter selection.
 *
 * Requests are issued by an effect that re-runs whenever the page or the
 * filter changes; each run first raises the loading flag.  Responses may
 * arrive in any order: every response is applied as it comes.
 */
module ListView {
  import opened Common
  import opened Listing
  import Pager

  datatype View<T, F> = View(data: Option<Page<T>>, page: int, filter: F, loading: bool)

  /** What can happen to a view. */
  datatype Event<T, F> =
    | FilterSelected(selection: F)     // a filter `<select>` changed
    | Clicked(nav: Pager.Nav)          // a pagination control was clicked
    | FetchSucceeded(response: Page<T>)
    | FetchFailed

  /** The view on mount: no snapshot, first page, the given (empty) filter, loading. */
  function Initial<T, F>(filter: F): View<T, F> {
    View(None, 1, filter, true)
  }

  /** The empty-state placeholder replaces the table and the pagination bar when there is nothing to list. */
  predicate PaginationShown<T, F>(v: View<T, F>) {
    v.data.Some? && |v.data.value.items| > 0
  }

  /** Only the first load shows the spinner: once a snapshot exists it stays on screen while reloading. */
  predicate SpinnerShown<T, F>(v: View<T, F>) {
    v.loading && v.data.None?
  }

  /** Moves to `page` and `filter`; the fetch effect re-runs, raising `loading`, when either changed. */
  function MoveTo<T, F(==)>(v: View<T, F>, page: int, filter: F): (w: View<T, F>)
    ensures w.data == v.data && w.page == page && w.filter == filter
    ensures w.loading <==> v.loading || page != v.page || filter != v.filter
  {
    View(v.data, page, filter, v.loading || page != v.page || filter != v.filter)
  }

  /** One transition of the view. */
  function Step<T, F(==)>(v: View<T, F>, e: Event<T, F>): (w: View<T, F>)
    ensures e.FilterSelected? ==> w == MoveTo(v, 1, e.selection)
    ensures e.Clicked? && PaginationShown(v)
      && Pager.Navigate(v.page, v.data.value.totalPages, e.nav).Some?
      ==> w == MoveTo(v, Pager.Navigate(v.page, v.data.value.totalPages, e.nav).value, v.filter)
    ensures e.Clicked? && !(PaginationShown(v) && Pager.Navigate(v.page, v.data.value.totalPages, e.nav).Some?) ==> w == v
    ensures e.FetchSucceeded? ==> w == v.(data := Some(e.response), loading := false)
    ensures e.FetchFailed? ==> w == v.(loading := false)
  {
    match e
    case FilterSelected(f) => MoveTo(v, 1, f)
    case Clicked(nav) =>
      if PaginationShown(v) then
        match Pager.Navigate(v.page, v.data.value.totalPages, nav)
        case Some(p) => MoveTo(v, p, v.filter)
        case None => v
      else v
    case FetchSucceeded(r) => v.(data := Some(r), loading := false)
    case FetchFailed => v.(loading := false)
  }

  /** The state after a sequence of events. */
  function Run<T, F(==)>(v: View<T, F>, events: seq<Event<T, F>>): View<T, F>
    decreases |events|
  {
    if |events| == 0 then v else Run(Step(v, events[0]), events[1..])
  }

  /** A step never moves the page below 1. */
  lemma StepKeepsPagePositive<T, F>(v: View<T, F>, e: Event<T, F>)
    requires v.page >= 1
    ensures Step(v, e).page >= 1
  {
    if e.Clicked? && PaginationShown(v) {
      Pager.NavigateKeepsPositive(v.page, v.data.value.totalPages, e.nav);
    }
  }

  /** Every reachable view is on a page at least 1, so its requests always pass the backend's paging check. */
  lemma {:induction false} ReachablePagePositive<T, F>(filter: F, events: seq<Event<T, F>>, pageSize: int)
    requires 1 <= pageSize <= MaxPageSize
    ensures Run(Initial(filter), events).page >= 1
    ensures ValidPaging(Run(Initial(filter), events).page, pageSize)
  {
    RunKeepsPagePositive(Initial(filter), events);
  }

  lemma {:induction false} RunKeepsPagePositive<T, F>(v: View<T, F>, events: seq<Event<T, F>>)
    requires v.page >= 1
    ensures Run(v, events).page >= 1
    decreases |events|
  {
    if |events| > 0 {
      StepKeepsPagePositive(v, events[0]);
      RunKeepsPagePositive(Step(v, events[0]), events[1..]);
    }
  }

  /** A click on a valid page of the displayed data never leads off its page range. */
  lemma ClickStaysInRange<T, F>(v: View<T, F>, nav: Pager.Nav)
    requires PaginationShown(v) && 1 <= v.page <= v.data.value.totalPages
    ensures 1 <= Step(v, Clicked(nav)).page <= v.data.value.totalPages
  {
    Pager.NavigateStaysInRange(v.page, v.data.value.totalPages, nav);
  }

  /** Once a snapshot has been displayed the view never goes back to the spinner. */
  lemma {:induction false} SnapshotPersists<T, F>(v: View<T, F>, events: seq<Event<T, F>>)
    requires v.data.Some?
    ensures Run(v, events).data.Some?
    ensures !SpinnerShown(Run(v, events))
    decreases |events|
  {
    if |events| > 0 {
      SnapshotPersists(Step(v, events[0]), events[1..]);
    }
  }

  /**
   * Responses are applied in arrival order with no request token: a slow
   * response to an older request that arrives last replaces a newer snapshot.
   */
  lemma LateResponseWins<T, F>(v: View<T, F>, newer: Page<T>, older: Page<T>)
    ensures Run(v, [FetchSucceeded(newer), FetchSucceeded(older)]).data == Some(older)
    ensures Run(v, [FetchSucceeded(newer), FetchSucceeded(older)]).page == v.page
  {
    var events: seq<Event<T, F>> := [FetchSucceeded(newer), FetchSucceeded(older)];
    var last: seq<Event<T, F>> := [FetchSucceeded(older)];
    assert events[1..] == last && last[1..] == [];
    var v1 := Step(v, events[0]);
    assert Run(v, events) == Run(v1, last);
    assert Run(v1, last) == Run(Step(v1, last[0]), []);
  }

  /** A failed fetch keeps the displayed snapshot, the page and the filter; only the loading flag drops. */
  lemma FailureKeepsSnapshot<T, F>(v: View<T, F>)
    ensures Step(v, FetchFailed).data == v.data
    ensures Step(v, FetchFailed).page == v.page && Step(v, FetchFailed).filter == v.filter
    ensures !Step(v, FetchFailed).loading
  {
  }
}

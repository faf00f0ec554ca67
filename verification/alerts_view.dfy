/** The Alerts page: a paginated alert table with topic and severity selects. */
module AlertsView {
  import opened Common
  import opened Models
  import opened Listing
  import Pager
  import ListView
  import ApiClient
  import AlertsApi

  /** Rows per page requested by this view. */
  const PageSize: int := 15

  /** The two `<select>` values; the empty string is the "All" option. */
  datatype Selection = Selection(topic: string, severity: string)

  const AllSelected: Selection := Selection("", "")

  /** The page's state: the paginated list and the topic options loaded on mount. */
  datatype Screen = Screen(list: ListView.View<Alert, Selection>, topics: seq<string>)

  datatype Event =
    | TopicSelected(topic: string)
    | SeveritySelected(severity: string)
    | Clicked(nav: Pager.Nav)
    | AlertsFetched(response: Page<Alert>)
    | AlertsFetchFailed
    | TopicsFetched(topics: seq<string>)
    | TopicsFetchFailed

  function Initial(): Screen {
    Screen(ListView.Initial(AllSelected), [])
  }

  /** One transition of the page. */
  function Step(s: Screen, e: Event): (t: Screen)
    ensures e.TopicSelected? ==> t.list.page == 1 && t.list.filter == s.list.filter.(topic := e.topic)
    ensures e.SeveritySelected? ==> t.list.page == 1 && t.list.filter == s.list.filter.(severity := e.severity)
    ensures e.AlertsFetchFailed? ==> t.list.data == s.list.data && !t.list.loading
    ensures e.AlertsFetched? ==> t.list.data == Some(e.response) && !t.list.loading
    ensures e.TopicsFetched? ==> t == s.(topics := e.topics)
    ensures e.TopicsFetchFailed? ==> t == s
    ensures !e.TopicsFetched? ==> t.topics == s.topics
  {
    match e
    case TopicSelected(x) => s.(list := ListView.Step(s.list, ListView.FilterSelected(s.list.filter.(topic := x))))
    case SeveritySelected(x) => s.(list := ListView.Step(s.list, ListView.FilterSelected(s.list.filter.(severity := x))))
    case Clicked(nav) => s.(list := ListView.Step(s.list, ListView.Clicked(nav)))
    case AlertsFetched(r) => s.(list := ListView.Step(s.list, ListView.FetchSucceeded(r)))
    case AlertsFetchFailed => s.(list := ListView.Step(s.list, ListView.FetchFailed))
    case TopicsFetched(ts) => s.(topics := ts)
    case TopicsFetchFailed => s
  }

  /** `x || undefined`: the empty selection is passed as an omitted argument. */
  function Blank(x: string): (r: Option<string>)
    ensures NonEmpty(r) <==> x != ""
    ensures r.Some? ==> r.value == x
  {
    if x == "" then None else Some(x)
  }

  /** The arguments `fetchAlerts` passes to `getAlerts`. */
  function Request(s: Screen): ApiClient.AlertArgs {
    ApiClient.AlertArgs(Some(s.list.page), Some(PageSize), Blank(s.list.filter.topic), Blank(s.list.filter.severity), None, None)
  }

  /**
   * The query string of a view request: the view's page and page size first,
   * then a topic or severity key exactly when that select is not on "All".
   */
  lemma RequestQuery(s: Screen)
    ensures var q := ApiClient.AlertsQuery(Request(s));
      && q[0] == ApiClient.Param("page", ApiClient.Num(s.list.page))
      && q[1] == ApiClient.Param("page_size", ApiClient.Num(PageSize))
      && (forall k :: ApiClient.HasKey(q, k) <==>
           || k == "page" || k == "page_size"
           || (k == "topic" && s.list.filter.topic != "")
           || (k == "severity" && s.list.filter.severity != ""))
  {
    ApiClient.AlertsQueryKeys(Request(s));
  }

  /** The filter the backend applies to a view request: omitted keys are no constraint. */
  function ServerFilter(sel: Selection): (f: AlertsApi.AlertFilter)
    ensures NonEmpty(f.topic) <==> sel.topic != ""
    ensures NonEmpty(f.severity) <==> sel.severity != ""
    ensures f.startTime.None? && f.endTime.None?
  {
    AlertsApi.AlertFilter(Blank(sel.topic), Blank(sel.severity), None, None)
  }

  /** With both selects on "All" every alert matches. */
  lemma AllSelectedMatchesEverything(a: Alert)
    ensures AlertsApi.AlertMatches(ServerFilter(AllSelected), a)
  {
  }

  /** Picking a topic or severity never lists more alerts than "All" does. */
  lemma SelectionNeverAddsAlerts(alerts: seq<Alert>, sel: Selection, page: int)
    requires ValidPaging(page, PageSize)
    ensures AlertsApi.GetAlerts(alerts, AlertsApi.AlertQuery(Some(page), Some(PageSize), ServerFilter(sel))).value.total
         <= AlertsApi.GetAlerts(alerts, AlertsApi.AlertQuery(Some(page), Some(PageSize), ServerFilter(AllSelected))).value.total
  {
    AlertsApi.NarrowerFilterNoMoreAlerts(alerts, ServerFilter(sel), ServerFilter(AllSelected), page, PageSize);
  }

  /** The state after a sequence of events. */
  function Run(s: Screen, events: seq<Event>): Screen
    decreases |events|
  {
    if |events| == 0 then s else Run(Step(s, events[0]), events[1..])
  }

  /** Every request the page can issue passes the backend's paging check. */
  lemma {:induction false} RequestsAlwaysValid(s: Screen, events: seq<Event>)
    requires s.list.page >= 1
    ensures Run(s, events).list.page >= 1
    ensures ValidPaging(Request(Run(s, events)).page.value, Request(Run(s, events)).pageSize.value)
    decreases |events|
  {
    if |events| > 0 {
      var e := events[0];
      match e {
        case TopicSelected(x) =>
          ListView.StepKeepsPagePositive(s.list, ListView.FilterSelected(s.list.filter.(topic := x)));
        case SeveritySelected(x) =>
          ListView.StepKeepsPagePositive(s.list, ListView.FilterSelected(s.list.filter.(severity := x)));
        case Clicked(nav) =>
          ListView.StepKeepsPagePositive(s.list, ListView.Clicked(nav));
        case _ =>
      }
      RequestsAlwaysValid(Step(s, e), events[1..]);
    }
  }
}

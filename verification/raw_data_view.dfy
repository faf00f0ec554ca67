/** The Raw Data page: a paginated reading table with a topic select and breach highlights. */
module RawDataView {
  import opened Common
  import opened Models
  import opened Listing
  import Pager
  import ListView
  import ApiClient
  import SensorDataApi
  import Breach

  /** Rows per page requested by this view. */
  const PageSize: int := 20

  /**
   * The page's state: the paginated list (its filter is the topic select,
   * `""` for "All"), the topic options and the thresholds loaded on mount.
   */
  datatype Screen = Screen(list: ListView.View<SensorRow, string>, topics: seq<string>, thresholds: Breach.ClientThresholds)

  datatype Event =
    | TopicSelected(topic: string)
    | Clicked(nav: Pager.Nav)
    | DataFetched(response: Page<SensorRow>)
    | DataFetchFailed
    | TopicsFetched(topics: seq<string>)
    | ThresholdsFetched(field: Option<Breach.ClientThresholds>)   // the response's `thresholds` field, possibly missing

  /** On mount nothing is highlighted: the thresholds start as the empty map. */
  function Initial(): Screen {
    Screen(ListView.Initial(""), [], map[])
  }

  /**
   * One transition.  The two mount requests settle independently, so a
   * failed one is simply no event.
   */
  function Step(s: Screen, e: Event): (t: Screen)
    ensures e.TopicSelected? ==> t.list.page == 1 && t.list.filter == e.topic
    ensures e.DataFetchFailed? ==> t.list.data == s.list.data && !t.list.loading
    ensures e.DataFetched? ==> t.list.data == Some(e.response) && !t.list.loading
    ensures e.ThresholdsFetched? ==> t == s.(thresholds := Breach.ThresholdsOrEmpty(e.field))
    ensures e.ThresholdsFetched? && e.field.None? ==> t.thresholds == map[]
    ensures e.TopicsFetched? ==> t == s.(topics := e.topics)
    ensures !e.ThresholdsFetched? ==> t.thresholds == s.thresholds
  {
    match e
    case TopicSelected(x) => s.(list := ListView.Step(s.list, ListView.FilterSelected(x)))
    case Clicked(nav) => s.(list := ListView.Step(s.list, ListView.Clicked(nav)))
    case DataFetched(r) => s.(list := ListView.Step(s.list, ListView.FetchSucceeded(r)))
    case DataFetchFailed => s.(list := ListView.Step(s.list, ListView.FetchFailed))
    case TopicsFetched(ts) => s.(topics := ts)
    case ThresholdsFetched(f) => s.(thresholds := Breach.ThresholdsOrEmpty(f))
  }

  /** The arguments `fetchData` passes to `getSensorData`; an empty topic is omitted. */
  function Request(s: Screen): ApiClient.SensorDataArgs {
    ApiClient.SensorDataArgs(Some(s.list.page), Some(PageSize), if s.list.filter == "" then None else Some(s.list.filter), None, None)
  }

  /**
   * The query string of a view request: the page and page size first, then
   * a topic key exactly when a topic is selected.
   */
  lemma RequestQuery(s: Screen)
    ensures var q := ApiClient.SensorDataQuery(Request(s));
      && q[0] == ApiClient.Param("page", ApiClient.Num(s.list.page))
      && q[1] == ApiClient.Param("page_size", ApiClient.Num(PageSize))
      && (forall k :: ApiClient.HasKey(q, k) <==> k == "page" || k == "page_size" || (k == "topic" && s.list.filter != ""))
  {
    ApiClient.SensorDataQueryKeys(Request(s));
  }

  /** The highlight flags of every displayed row. */
  function Highlights(s: Screen): (h: seq<seq<bool>>)
    ensures s.list.data.None? ==> h == []
    ensures s.list.data.Some? ==> |h| == |s.list.data.value.items|
    ensures s.list.data.Some? ==> forall i :: 0 <= i < |h| ==> h[i] == Breach.BreachFlags(s.thresholds, s.list.data.value.items[i])
  {
    match s.list.data
    case None => []
    case Some(d) => seq(|d.items|, i requires 0 <= i < |d.items| => Breach.BreachFlags(s.thresholds, d.items[i]))
  }

  /** The state after a sequence of events. */
  function Run(s: Screen, events: seq<Event>): Screen
    decreases |events|
  {
    if |events| == 0 then s else Run(Step(s, events[0]), events[1..])
  }

  /** Until a thresholds response with the field arrives, no cell is highlighted. */
  lemma {:induction false} NoHighlightWithoutThresholds(events: seq<Event>)
    requires forall i :: 0 <= i < |events| ==> !(events[i].ThresholdsFetched? && events[i].field.Some?)
    ensures Run(Initial(), events).thresholds == map[]
  {
    RunKeepsEmptyThresholds(Initial(), events);
  }

  lemma {:induction false} RunKeepsEmptyThresholds(s: Screen, events: seq<Event>)
    requires s.thresholds == map[]
    requires forall i :: 0 <= i < |events| ==> !(events[i].ThresholdsFetched? && events[i].field.Some?)
    ensures Run(s, events).thresholds == map[]
    decreases |events|
  {
    if |events| > 0 {
      assert !(events[0].ThresholdsFetched? && events[0].field.Some?);
      RunKeepsEmptyThresholds(Step(s, events[0]), events[1..]);
    }
  }

  /** With the thresholds the backend serves, a row's flags are exactly its out-of-range columns. */
  lemma ServedThresholdsFlagOutOfRange(row: SensorRow, i: int)
    requires 0 <= i < |Config.SensorParams|
    ensures Breach.BreachFlags(SensorDataApi.GetThresholds(), row)[i]
        == Config.Thresholds[Config.SensorParams[i]].Excludes(Reading(row, Config.SensorParams[i]).value)
  {
    Config.ParamsMatchTable();
    assert Config.SensorParams[i] in Config.SensorParams;
  }
}

/** The read-only alert endpoints, as functions over the `alerts` table. */
module AlertsApi {
  import opened Common
  import opened Models
  import opened Listing
  import Seqs

  /** The listing's optional filters; instants are integers. */
  datatype AlertFilter = AlertFilter(
    topic: Option<string>,
    severity: Option<string>,
    startTime: Option<int>,
    endTime: Option<int>)

  /** Query parameters of the paginated alert listing; `None` is an omitted parameter. */
  datatype AlertQuery = AlertQuery(page: Option<int>, pageSize: Option<int>, filter: AlertFilter) {

    /** The requested page, 1 when omitted. */
    function PageNumber(): int {
      page.GetOr(DefaultPage)
    }

    /** The requested page size, 20 when omitted. */
    function Size(): int {
      pageSize.GetOr(DefaultPageSize)
    }
  }

  /**
   * Topic and severity must be equal when given, the timestamp must lie in
   * the inclusive window; an empty topic or severity is no filter.
   */
  predicate AlertMatches(f: AlertFilter, a: Alert) {
    && (NonEmpty(f.topic) ==> a.topic == f.topic.value)
    && (NonEmpty(f.severity) ==> a.severity == f.severity.value)
    && (f.startTime.Some? ==> f.startTime.value <= a.timestamp)
    && (f.endTime.Some? ==> a.timestamp <= f.endTime.value)
  }

  function Matcher(f: AlertFilter): Alert -> bool {
    (a: Alert) => AlertMatches(f, a)
  }

  /**
   * `GET /api/alerts/`: one page of the matching alerts, newest first, with
   * the match count and the page count; out-of-bounds paging is refused.
   */
  function GetAlerts(alerts: seq<Alert>, q: AlertQuery): (r: Result<Page<Alert>, QueryError>)
    ensures r.Err? <==> !ValidPaging(q.PageNumber(), q.Size())
    ensures r.Ok? ==> IsPage(alerts, Matcher(q.filter), AlertTime, q.PageNumber(), q.Size(), r.value)
    ensures r.Ok? ==>
      && r.value.page == q.PageNumber() && r.value.pageSize == q.Size()
      && |r.value.items| <= q.Size()
      && (forall i :: 0 <= i < |r.value.items| ==> r.value.items[i] in alerts && AlertMatches(q.filter, r.value.items[i]))
  {
    var r := ListPage(alerts, Matcher(q.filter), AlertTime, q.PageNumber(), q.Size());
    assert r.Ok? ==> |r.value.items| <= q.Size();
    r
  }

  /** Omitted paging parameters mean the first page of 20 alerts. */
  lemma OmittedPagingIsFirstPage(alerts: seq<Alert>, f: AlertFilter)
    ensures GetAlerts(alerts, AlertQuery(None, None, f)).Ok?
    ensures GetAlerts(alerts, AlertQuery(None, None, f)).value.page == 1
    ensures GetAlerts(alerts, AlertQuery(None, None, f)).value.pageSize == 20
    ensures GetAlerts(alerts, AlertQuery(None, None, f)) == GetAlerts(alerts, AlertQuery(Some(1), Some(20), f))
  {
  }

  /**
   * `f` constrains at least as much as `g`: every filter `g` applies, `f`
   * applies too, with the same value or a window inside `g`'s.
   */
  predicate Narrows(f: AlertFilter, g: AlertFilter) {
    && (NonEmpty(g.topic) ==> f.topic == g.topic)
    && (NonEmpty(g.severity) ==> f.severity == g.severity)
    && (g.startTime.Some? ==> f.startTime.Some? && f.startTime.value >= g.startTime.value)
    && (g.endTime.Some? ==> f.endTime.Some? && f.endTime.value <= g.endTime.value)
  }

  /** Adding or tightening a filter never increases `total`. */
  lemma NarrowerFilterNoMoreAlerts(alerts: seq<Alert>, f: AlertFilter, g: AlertFilter, page: int, pageSize: int)
    requires ValidPaging(page, pageSize) && Narrows(f, g)
    ensures GetAlerts(alerts, AlertQuery(Some(page), Some(pageSize), f)).value.total
            <= GetAlerts(alerts, AlertQuery(Some(page), Some(pageSize), g)).value.total
  {
    Seqs.CountMonotone(alerts, Matcher(f), Matcher(g));
  }

  /** The `/recent` limit's default and upper bound. */
  const DefaultRecentLimit: int := 10
  const MaxRecentLimit: int := 50

  /**
   * `GET /api/alerts/recent`: the `limit` newest alerts (10 when not given);
   * a limit outside `[1, 50]` is refused.
   */
  function GetRecentAlerts(alerts: seq<Alert>, limit: Option<int>): (r: Result<seq<Alert>, QueryError>)
    ensures r.Err? <==> !(1 <= limit.GetOr(DefaultRecentLimit) <= MaxRecentLimit)
    ensures r.Ok? ==> |r.value| == Min(limit.GetOr(DefaultRecentLimit), |alerts|)
    ensures r.Ok? ==> Seqs.SortedDesc(r.value, AlertTime)
    ensures r.Ok? ==> multiset(r.value) <= multiset(alerts)
    ensures r.Ok? ==> forall x, y :: x in r.value && y in multiset(alerts) - multiset(r.value) ==> AlertTime(x) >= AlertTime(y)
  {
    var n := limit.GetOr(DefaultRecentLimit);
    if !(1 <= n <= MaxRecentLimit) then Err(Unprocessable)
    else
      Ok(Seqs.TakeNewest(alerts, AlertTime, n))
  }

  /** The `/count` response. */
  datatype AlertCounts = AlertCounts(totalAlerts: nat, criticalCount: nat, warningCount: nat)

  function HasSeverity(severity: string): Alert -> bool {
    (a: Alert) => a.severity == severity
  }

  /** `GET /api/alerts/count`: all alerts, and those labelled critical and warning. */
  function GetAlertCounts(alerts: seq<Alert>): (r: AlertCounts)
    ensures r.totalAlerts == |alerts|
    ensures r.criticalCount == Seqs.Count(alerts, HasSeverity(Critical))
    ensures r.warningCount == Seqs.Count(alerts, HasSeverity(Warning))
    ensures r.criticalCount + r.warningCount <= r.totalAlerts
  {
    Seqs.CountDisjoint(alerts, HasSeverity(Critical), HasSeverity(Warning));
    AlertCounts(|alerts|, Seqs.Count(alerts, HasSeverity(Critical)), Seqs.Count(alerts, HasSeverity(Warning)))
  }

  /** When every stored label is one of the two, the two counts add up to the total. */
  lemma CountsCoverLabelledTable(alerts: seq<Alert>)
    requires forall i :: 0 <= i < |alerts| ==> alerts[i].severity == Critical || alerts[i].severity == Warning
    ensures GetAlertCounts(alerts).criticalCount + GetAlertCounts(alerts).warningCount == |alerts|
  {
    Seqs.CountPartition(alerts, HasSeverity(Critical), HasSeverity(Warning));
  }

  /** The critical count equals the `total` of the listing filtered to critical alerts. */
  lemma CriticalCountMatchesListing(alerts: seq<Alert>, page: int, pageSize: int)
    requires ValidPaging(page, pageSize)
    ensures GetAlertCounts(alerts).criticalCount
            == GetAlerts(alerts, AlertQuery(Some(page), Some(pageSize), AlertFilter(None, Some(Critical), None, None))).value.total
  {
    Seqs.CountExtensional(alerts, HasSeverity(Critical), Matcher(AlertFilter(None, Some(Critical), None, None)));
  }
}

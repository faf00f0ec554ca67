/**
 * The client's request builders: each list request becomes an ordered list
 * of query-string pairs.  Transport (base URL, timeout, percent-encoding) is
 * not modelled.
 */
module ApiClient {
  import opened Common

  /** A query-string value: a number as given, or text. */
  datatype QueryValue = Num(n: int) | Text(s: string)

  /** One `key=value` pair of the query string. */
  datatype Param = Param(key: string, value: QueryValue)

  /** The arguments of `getSensorData`; `None` is an omitted (undefined) argument. */
  datatype SensorDataArgs = SensorDataArgs(
    page: Option<int>,
    pageSize: Option<int>,
    topic: Option<string>,
    startTime: Option<string>,
    endTime: Option<string>)

  /** The arguments of `getAlerts`. */
  datatype AlertArgs = AlertArgs(
    page: Option<int>,
    pageSize: Option<int>,
    topic: Option<string>,
    severity: Option<string>,
    startTime: Option<string>,
    endTime: Option<string>)

  const DefaultPage: int := 1
  const DefaultPageSize: int := 20
  const DefaultRecentLimit: int := 10

  /**
   * Position of a list-request key in the order the builders set them:
   * page, page_size, topic, severity, start_time, end_time.
   */
  function Rank(key: string): nat {
    match key
    case "page" => 0
    case "page_size" => 1
    case "topic" => 2
    case "severity" => 3
    case "start_time" => 4
    case "end_time" => 5
    case _ => 6
  }

  /**
   * Every key is a list-request key and the keys strictly follow the
   * builders' order, so none repeats.
   */
  predicate InKeyOrder(q: seq<Param>) {
    && (forall i :: 0 <= i < |q| ==> Rank(q[i].key) < 6)
    && (forall i, j :: 0 <= i < j < |q| ==> Rank(q[i].key) < Rank(q[j].key))
  }

  /** Some pair of `q` has key `key`. */
  predicate HasKey(q: seq<Param>, key: string) {
    exists i :: 0 <= i < |q| && q[i].key == key
  }

  /** The two pairs every list request starts with; omitted arguments take their defaults. */
  function Paging(page: Option<int>, pageSize: Option<int>): seq<Param> {
    [Param("page", Num(page.GetOr(DefaultPage))), Param("page_size", Num(pageSize.GetOr(DefaultPageSize)))]
  }

  /** The pair for an optional text argument: set only when the argument is truthy. */
  function Optional(key: string, v: Option<string>): (q: seq<Param>)
    ensures |q| <= 1
    ensures |q| == 1 <==> NonEmpty(v)
    ensures |q| == 1 ==> q[0] == Param(key, Text(v.value))
  {
    if NonEmpty(v) then [Param(key, Text(v.value))] else []
  }

  /** Every key of `q` ranks in `[lo, hi)`. */
  predicate RanksWithin(q: seq<Param>, lo: nat, hi: nat) {
    forall i :: 0 <= i < |q| ==> lo <= Rank(q[i].key) < hi
  }

  lemma PagingOrdered(page: Option<int>, pageSize: Option<int>)
    ensures InKeyOrder(Paging(page, pageSize)) && RanksWithin(Paging(page, pageSize), 0, 2)
    ensures forall k :: HasKey(Paging(page, pageSize), k) <==> k == "page" || k == "page_size"
  {
    var p := Paging(page, pageSize);
    assert p[0].key == "page" && p[1].key == "page_size";
  }

  /** The optional pair carries exactly its own key, and only when set. */
  lemma OptionalOrdered(key: string, v: Option<string>)
    requires Rank(key) < 6
    ensures InKeyOrder(Optional(key, v)) && RanksWithin(Optional(key, v), Rank(key), Rank(key) + 1)
    ensures forall k :: HasKey(Optional(key, v), k) <==> k == key && NonEmpty(v)
  {
    if NonEmpty(v) {
      assert Optional(key, v)[0].key == key;
    }
  }

  /** Key-ordered query strings with adjacent rank ranges concatenate to a key-ordered one. */
  lemma OrderedConcat(a: seq<Param>, b: seq<Param>, lo: nat, mid: nat, hi: nat)
    requires InKeyOrder(a) && InKeyOrder(b)
    requires lo <= mid <= hi
    requires RanksWithin(a, lo, mid) && RanksWithin(b, mid, hi)
    ensures InKeyOrder(a + b) && RanksWithin(a + b, lo, hi)
  {
  }

  /** The keys of a concatenation are the keys of its parts. */
  lemma HasKeyConcat(a: seq<Param>, b: seq<Param>)
    ensures forall k :: HasKey(a + b, k) <==> HasKey(a, k) || HasKey(b, k)
  {
    forall k | HasKey(a + b, k) ensures HasKey(a, k) || HasKey(b, k) {
      var i :| 0 <= i < |a + b| && (a + b)[i].key == k;
      if i >= |a| {
        assert b[i - |a|] == (a + b)[i];
      }
    }
    forall k | HasKey(a, k) ensures HasKey(a + b, k) {
      var i :| 0 <= i < |a| && a[i].key == k;
      assert (a + b)[i] == a[i];
    }
    forall k | HasKey(b, k) ensures HasKey(a + b, k) {
      var i :| 0 <= i < |b| && b[i].key == k;
      assert (a + b)[|a| + i] == b[i];
    }
  }

  /** The query string of `getSensorData`: paging first, then each truthy filter. */
  function SensorDataQuery(a: SensorDataArgs): (q: seq<Param>)
    ensures |q| >= 2
    ensures q[0] == Param("page", Num(a.page.GetOr(DefaultPage)))
    ensures q[1] == Param("page_size", Num(a.pageSize.GetOr(DefaultPageSize)))
    ensures InKeyOrder(q)
  {
    var p, t, s, e := Paging(a.page, a.pageSize), Optional("topic", a.topic),
      Optional("start_time", a.startTime), Optional("end_time", a.endTime);
    PagingOrdered(a.page, a.pageSize);
    OptionalOrdered("topic", a.topic);
    OptionalOrdered("start_time", a.startTime);
    OptionalOrdered("end_time", a.endTime);
    OrderedConcat(p, t, 0, 2, 3);
    OrderedConcat(p + t, s, 0, 4, 5);
    OrderedConcat(p + t + s, e, 0, 5, 6);
    p + t + s + e
  }

  /**
   * The sensor-data query string holds the paging keys always, a filter key
   * exactly when its argument is truthy, and never `severity`.
   */
  lemma SensorDataQueryKeys(a: SensorDataArgs)
    ensures forall k :: HasKey(SensorDataQuery(a), k) <==>
      || k == "page" || k == "page_size"
      || (k == "topic" && NonEmpty(a.topic))
      || (k == "start_time" && NonEmpty(a.startTime))
      || (k == "end_time" && NonEmpty(a.endTime))
  {
    var p, t, s, e := Paging(a.page, a.pageSize), Optional("topic", a.topic),
      Optional("start_time", a.startTime), Optional("end_time", a.endTime);
    PagingOrdered(a.page, a.pageSize);
    OptionalOrdered("topic", a.topic);
    OptionalOrdered("start_time", a.startTime);
    OptionalOrdered("end_time", a.endTime);
    HasKeyConcat(p, t);
    HasKeyConcat(p + t, s);
    HasKeyConcat(p + t + s, e);
  }

  /** A truthy filter argument is sent as text under its own key. */
  lemma SensorDataQueryValues(a: SensorDataArgs)
    ensures NonEmpty(a.topic) ==> Param("topic", Text(a.topic.value)) in SensorDataQuery(a)
    ensures NonEmpty(a.startTime) ==> Param("start_time", Text(a.startTime.value)) in SensorDataQuery(a)
    ensures NonEmpty(a.endTime) ==> Param("end_time", Text(a.endTime.value)) in SensorDataQuery(a)
  {
  }

  /** The query string of `getAlerts`: as for sensor data, with `severity` between topic and the time range. */
  function AlertsQuery(a: AlertArgs): (q: seq<Param>)
    ensures |q| >= 2
    ensures q[0] == Param("page", Num(a.page.GetOr(DefaultPage)))
    ensures q[1] == Param("page_size", Num(a.pageSize.GetOr(DefaultPageSize)))
    ensures InKeyOrder(q)
  {
    var p, t, v, s, e := Paging(a.page, a.pageSize), Optional("topic", a.topic),
      Optional("severity", a.severity), Optional("start_time", a.startTime),
      Optional("end_time", a.endTime);
    PagingOrdered(a.page, a.pageSize);
    OptionalOrdered("topic", a.topic);
    OptionalOrdered("severity", a.severity);
    OptionalOrdered("start_time", a.startTime);
    OptionalOrdered("end_time", a.endTime);
    OrderedConcat(p, t, 0, 2, 3);
    OrderedConcat(p + t, v, 0, 3, 4);
    OrderedConcat(p + t + v, s, 0, 4, 5);
    OrderedConcat(p + t + v + s, e, 0, 5, 6);
    p + t + v + s + e
  }

  /** The alerts query string holds the paging keys always and a filter key exactly when its argument is truthy. */
  lemma AlertsQueryKeys(a: AlertArgs)
    ensures forall k :: HasKey(AlertsQuery(a), k) <==>
      || k == "page" || k == "page_size"
      || (k == "topic" && NonEmpty(a.topic))
      || (k == "severity" && NonEmpty(a.severity))
      || (k == "start_time" && NonEmpty(a.startTime))
      || (k == "end_time" && NonEmpty(a.endTime))
  {
    var p, t, v, s, e := Paging(a.page, a.pageSize), Optional("topic", a.topic),
      Optional("severity", a.severity), Optional("start_time", a.startTime),
      Optional("end_time", a.endTime);
    PagingOrdered(a.page, a.pageSize);
    OptionalOrdered("topic", a.topic);
    OptionalOrdered("severity", a.severity);
    OptionalOrdered("start_time", a.startTime);
    OptionalOrdered("end_time", a.endTime);
    HasKeyConcat(p, t);
    HasKeyConcat(p + t, v);
    HasKeyConcat(p + t + v, s);
    HasKeyConcat(p + t + v + s, e);
  }

  /** A truthy filter argument of `getAlerts` is sent as text under its own key. */
  lemma AlertsQueryValues(a: AlertArgs)
    ensures NonEmpty(a.topic) ==> Param("topic", Text(a.topic.value)) in AlertsQuery(a)
    ensures NonEmpty(a.severity) ==> Param("severity", Text(a.severity.value)) in AlertsQuery(a)
    ensures NonEmpty(a.startTime) ==> Param("start_time", Text(a.startTime.value)) in AlertsQuery(a)
    ensures NonEmpty(a.endTime) ==> Param("end_time", Text(a.endTime.value)) in AlertsQuery(a)
  {
  }

  /** Without a severity the two list requests send the same query string. */
  lemma AlertsQueryWithoutSeverity(a: AlertArgs)
    requires !NonEmpty(a.severity)
    ensures AlertsQuery(a) == SensorDataQuery(SensorDataArgs(a.page, a.pageSize, a.topic, a.startTime, a.endTime))
  {
    assert Optional("severity", a.severity) == [];
  }

  /** The query string of `getRecentAlerts`: the single `limit` pair. */
  function RecentAlertsQuery(limit: Option<int>): (q: seq<Param>)
    ensures |q| == 1 && q[0].key == "limit"
    ensures limit.Some? ==> q[0].value == Num(limit.value)
    ensures limit.None? ==> q[0].value == Num(DefaultRecentLimit)
  {
    [Param("limit", Num(limit.GetOr(DefaultRecentLimit)))]
  }
}

/** The read-only sensor-data endpoints, as functions over the `sensor_data` table. */
module SensorDataApi {
  import opened Common
  import opened Config
  import opened Models
  import opened Listing
  import Seqs
  import Lex

  /** The listing's optional filters; instants are integers. */
  datatype SensorFilter = SensorFilter(topic: Option<string>, startTime: Option<int>, endTime: Option<int>)

  /** Query parameters of the paginated listing; `None` is an omitted parameter. */
  datatype SensorQuery = SensorQuery(page: Option<int>, pageSize: Option<int>, filter: SensorFilter) {

    /** The requested page, 1 when omitted. */
    function PageNumber(): int {
      page.GetOr(DefaultPage)
    }

    /** The requested page size, 20 when omitted. */
    function Size(): int {
      pageSize.GetOr(DefaultPageSize)
    }
  }

  /**
   * The listing's filter: the topic must be equal when one is given and the
   * timestamp must lie in the inclusive window; an empty topic is no filter.
   */
  predicate RowMatches(f: SensorFilter, row: SensorRow) {
    && (NonEmpty(f.topic) ==> row.topic == f.topic.value)
    && (f.startTime.Some? ==> f.startTime.value <= row.timestamp)
    && (f.endTime.Some? ==> row.timestamp <= f.endTime.value)
  }

  function Matcher(f: SensorFilter): SensorRow -> bool {
    (row: SensorRow) => RowMatches(f, row)
  }

  /**
   * `GET /api/sensor-data/`: one page of the matching rows, newest first,
   * with the match count and the page count; out-of-bounds paging is refused.
   */
  function GetSensorData(rows: seq<SensorRow>, q: SensorQuery): (r: Result<Page<SensorRow>, QueryError>)
    ensures r.Err? <==> !ValidPaging(q.PageNumber(), q.Size())
    ensures r.Ok? ==> IsPage(rows, Matcher(q.filter), RowTime, q.PageNumber(), q.Size(), r.value)
    ensures r.Ok? ==>
      && r.value.page == q.PageNumber() && r.value.pageSize == q.Size()
      && (forall i :: 0 <= i < |r.value.items| ==> r.value.items[i] in rows && RowMatches(q.filter, r.value.items[i]))
  {
    ListPage(rows, Matcher(q.filter), RowTime, q.PageNumber(), q.Size())
  }

  /** Omitted paging parameters mean the first page of 20 rows. */
  lemma OmittedPagingIsFirstPage(rows: seq<SensorRow>, f: SensorFilter)
    ensures GetSensorData(rows, SensorQuery(None, None, f)).Ok?
    ensures GetSensorData(rows, SensorQuery(None, None, f)).value.page == 1
    ensures GetSensorData(rows, SensorQuery(None, None, f)).value.pageSize == 20
    ensures GetSensorData(rows, SensorQuery(None, None, f)) == GetSensorData(rows, SensorQuery(Some(1), Some(20), f))
  {
  }

  /** Every matching row is listed on some page between 1 and `total_pages`. */
  lemma MatchingRowListed(rows: seq<SensorRow>, f: SensorFilter, pageSize: int, x: SensorRow)
    requires 1 <= pageSize <= MaxPageSize
    requires x in rows && RowMatches(f, x)
    ensures exists p :: 1 <= p <= TotalPages(Seqs.Count(rows, Matcher(f)), pageSize)
                        && x in GetSensorData(rows, SensorQuery(Some(p), Some(pageSize), f)).value.items
  {
    var k :| 0 <= k < |rows| && rows[k] == x;
    ListedOnSomePage(rows, Matcher(f), RowTime, pageSize, k);
    var p :| 1 <= p <= TotalPages(Seqs.Count(rows, Matcher(f)), pageSize)
             && x in ListPage(rows, Matcher(f), RowTime, p, pageSize).value.items;
    assert GetSensorData(rows, SensorQuery(Some(p), Some(pageSize), f)) == ListPage(rows, Matcher(f), RowTime, p, pageSize);
  }

  /** Per-topic row counts, one entry per topic. */
  datatype TopicCount = TopicCount(topic: string, count: nat)

  function TopicsOf(c: seq<TopicCount>): (ts: seq<string>)
    ensures |ts| == |c|
    ensures forall i :: 0 <= i < |c| ==> ts[i] == c[i].topic
  {
    if |c| == 0 then [] else [c[0].topic] + TopicsOf(c[1..])
  }

  /** The count recorded for topic `t`, 0 when `t` has no entry. */
  function CountOf(c: seq<TopicCount>, t: string): nat {
    if |c| == 0 then 0 else (if c[0].topic == t then c[0].count else 0) + CountOf(c[1..], t)
  }

  /** The sum of all recorded counts. */
  function Sum(c: seq<TopicCount>): nat {
    if |c| == 0 then 0 else c[0].count + Sum(c[1..])
  }

  /** Counts one more row of topic `t`. */
  function Bump(c: seq<TopicCount>, t: string): (r: seq<TopicCount>)
    requires Seqs.Distinct(TopicsOf(c))
    ensures Seqs.Distinct(TopicsOf(r))
    ensures forall u :: u in TopicsOf(r) <==> u in TopicsOf(c) || u == t
    ensures forall u :: CountOf(r, u) == CountOf(c, u) + (if u == t then 1 else 0)
    ensures Sum(r) == Sum(c) + 1
  {
    if |c| == 0 then [TopicCount(t, 1)]
    else if c[0].topic == t then
      assert t !in TopicsOf(c[1..]);
      [TopicCount(t, c[0].count + 1)] + c[1..]
    else
      assert TopicsOf(c) == [c[0].topic] + TopicsOf(c[1..]);
      var rest := Bump(c[1..], t);
      assert ([c[0]] + rest)[1..] == rest;
      assert c[0].topic !in TopicsOf(rest);
      assert TopicsOf([c[0]] + rest) == [c[0].topic] + TopicsOf(rest);
      [c[0]] + rest
  }

  function HasTopic(t: string): SensorRow -> bool {
    (row: SensorRow) => row.topic == t
  }

  /** The `GROUP BY topic` count over the table. */
  function Tally(rows: seq<SensorRow>): (r: seq<TopicCount>)
    ensures Seqs.Distinct(TopicsOf(r))
    ensures forall u :: u in TopicsOf(r) <==> exists x :: x in rows && x.topic == u
    ensures forall u :: CountOf(r, u) == Seqs.Count(rows, HasTopic(u))
    ensures Sum(r) == |rows|
  {
    if |rows| == 0 then []
    else
      assert rows == [rows[0]] + rows[1..];
      Bump(Tally(rows[1..]), rows[0].topic)
  }

  /** A duplicate-free sequence has as many distinct elements as entries. */
  lemma {:induction false} DistinctCardinality(s: seq<string>)
    requires Seqs.Distinct(s)
    ensures |set x | x in s| == |s|
  {
    if |s| > 0 {
      DistinctCardinality(s[1..]);
      assert (set x | x in s) == {s[0]} + (set x | x in s[1..]);
      assert s[0] !in (set x | x in s[1..]);
    }
  }

  /** `GET /api/sensor-data/topics`: each topic that has sent data, once. */
  function GetTopics(rows: seq<SensorRow>): (r: seq<string>)
    ensures Seqs.Distinct(r)
    ensures forall u :: u in r <==> exists x :: x in rows && x.topic == u
    ensures |r| == |set x | x in rows :: x.topic|
  {
    var r := TopicsOf(Tally(rows));
    DistinctCardinality(r);
    assert (set x | x in r) == (set x | x in rows :: x.topic);
    r
  }

  /** The row with the greatest id among those of topic `t`, if any. */
  function LatestOfTopic(rows: seq<SensorRow>, t: string): (r: Option<SensorRow>)
    ensures r.None? <==> forall x :: x in rows ==> x.topic != t
    ensures r.Some? ==> r.value in rows && r.value.topic == t
    ensures r.Some? ==> forall x :: x in rows && x.topic == t ==> x.id <= r.value.id
  {
    if |rows| == 0 then None
    else
      assert rows == [rows[0]] + rows[1..];
      var rest := LatestOfTopic(rows[1..], t);
      if rows[0].topic != t then rest
      else if rest.Some? && rest.value.id > rows[0].id then rest
      else Some(rows[0])
  }

  /** The latest row of each topic of `topics`, in that order. */
  function LatestForEach(rows: seq<SensorRow>, topics: seq<string>): (r: seq<SensorRow>)
    requires forall t :: t in topics ==> exists x :: x in rows && x.topic == t
    ensures |r| == |topics|
    ensures forall i :: 0 <= i < |r| ==> r[i] in rows && r[i].topic == topics[i]
    ensures forall i, x :: 0 <= i < |r| && x in rows && x.topic == r[i].topic ==> x.id <= r[i].id
  {
    if |topics| == 0 then []
    else
      assert topics[0] in topics;
      assert forall t :: t in topics[1..] ==> t in topics;
      var latest := LatestOfTopic(rows, topics[0]);
      [latest.value] + LatestForEach(rows, topics[1..])
  }

  /**
   * `GET /api/sensor-data/latest`: for each topic the row with the greatest
   * id, one row per topic, ordered by topic.
   */
  function GetLatestReadings(rows: seq<SensorRow>): (r: seq<SensorRow>)
    ensures |r| == |set x | x in rows :: x.topic|
    ensures forall i, j :: 0 <= i < j < |r| ==> Lex.Less(r[i].topic, r[j].topic)
    ensures forall i :: 0 <= i < |r| ==> r[i] in rows
    ensures forall i, x :: 0 <= i < |r| && x in rows && x.topic == r[i].topic ==> x.id <= r[i].id
    ensures forall x :: x in rows ==> exists i :: 0 <= i < |r| && r[i].topic == x.topic
  {
    var topics := Lex.Sort(GetTopics(rows));
    var r := LatestForEach(rows, topics);
    assert forall x :: x in rows ==> x.topic in topics;
    r
  }

  /** The `/stats` response. */
  datatype Stats = Stats(
    totalMessages: nat,
    totalTopics: nat,
    topicCounts: seq<TopicCount>,
    latestTimestamp: Option<int>)

  /** The newest timestamp in the table, `None` for an empty table. */
  function MaxTimestamp(rows: seq<SensorRow>): (r: Option<int>)
    ensures r.None? <==> |rows| == 0
    ensures r.Some? ==> (exists x :: x in rows && x.timestamp == r.value)
    ensures r.Some? ==> forall x :: x in rows ==> x.timestamp <= r.value
  {
    if |rows| == 0 then None
    else
      assert rows == [rows[0]] + rows[1..];
      var rest := MaxTimestamp(rows[1..]);
      if rest.Some? && rest.value > rows[0].timestamp then rest else Some(rows[0].timestamp)
  }

  /**
   * `GET /api/sensor-data/stats`: the row count, the number of distinct
   * topics, the per-topic counts and the newest timestamp.
   */
  function GetStats(rows: seq<SensorRow>): (r: Stats)
    ensures r.totalMessages == |rows|
    ensures r.totalTopics == |set x | x in rows :: x.topic|
    ensures Sum(r.topicCounts) == r.totalMessages
    ensures |r.topicCounts| == r.totalTopics
    ensures forall u :: CountOf(r.topicCounts, u) == Seqs.Count(rows, HasTopic(u))
    ensures r.latestTimestamp == MaxTimestamp(rows)
    ensures r.latestTimestamp.None? <==> |rows| == 0
    ensures r.latestTimestamp.Some? ==>
      && (exists x :: x in rows && x.timestamp == r.latestTimestamp.value)
      && (forall x :: x in rows ==> x.timestamp <= r.latestTimestamp.value)
  {
    var counts := Tally(rows);
    var topics := GetTopics(rows);
    Stats(|rows|, |topics|, counts, MaxTimestamp(rows))
  }

  /** `GET /api/sensor-data/thresholds`: the configured table, one range per parameter. */
  function GetThresholds(): (r: map<string, Limits>)
    ensures forall k :: k in r <==> k in SensorParams
    ensures forall k :: k in r ==> r[k] == Thresholds[k] && r[k].min < r[k].max
  {
    ParamsMatchTable();
    RangesNonEmpty();
    Thresholds
  }
}

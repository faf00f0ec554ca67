/** The Dashboard page: topic card titles and the all-or-nothing periodic refresh. */
module Dashboard {
  import opened Common
  import opened Models
  import SensorDataApi
  import AlertsApi
  import Breach

  /** `s.split('/')`: the maximal `/`-free pieces between separators, at least one. */
  function Split(s: string): (parts: seq<string>)
    ensures |parts| >= 1
    ensures forall i, j :: 0 <= i < |parts| && 0 <= j < |parts[i]| ==> parts[i][j] != '/'
  {
    if |s| == 0 then [""]
    else
      var rest := Split(s[1..]);
      if s[0] == '/' then [""] + rest
      else [[s[0]] + rest[0]] + rest[1..]
  }

  /** `parts.join('/')`. */
  function Join(parts: seq<string>): string
    requires |parts| >= 1
  {
    if |parts| == 1 then parts[0] else parts[0] + "/" + Join(parts[1..])
  }

  /** Splitting on `/` loses nothing: joining the pieces back gives the topic. */
  lemma {:induction false} JoinSplit(s: string)
    ensures Join(Split(s)) == s
  {
    if |s| > 0 {
      var rest := Split(s[1..]);
      JoinSplit(s[1..]);
      if s[0] == '/' {
        assert Split(s)[1..] == rest;
        assert s == [s[0]] + s[1..];
      } else {
        var p := Split(s);
        assert p[0] == [s[0]] + rest[0] && p[1..] == rest[1..];
        if |rest| == 1 {
          assert s == [s[0]] + rest[0];
        } else {
          assert Join(rest) == rest[0] + "/" + Join(rest[1..]);
          assert s == [s[0]] + rest[0] + "/" + Join(rest[1..]);
        }
      }
    }
  }

  /** The last piece is a suffix of the string, preceded by a `/` unless it is the whole string. */
  lemma {:induction false} LastPieceIsSuffix(s: string)
    ensures var seg := Split(s)[|Split(s)| - 1];
      && |seg| <= |s|
      && s[|s| - |seg|..] == seg
      && (|seg| < |s| ==> s[|s| - |seg| - 1] == '/')
      && (|Split(s)| > 1 ==> |seg| < |s|)
  {
    if |s| > 0 {
      LastPieceIsSuffix(s[1..]);
      var rest := Split(s[1..]);
      if s[0] == '/' || |rest| > 1 {
        if s[0] == '/' {
          SplitLeadingSlash(s);
        } else {
          SplitJoinsFirst(s);
        }
        SuffixShift(s, rest[|rest| - 1]);
      } else {
        SplitStepSingle(s);
      }
    }
  }

  /** A leading `/` adds an empty first piece: the last piece is that of `s[1..]`. */
  lemma SplitLeadingSlash(s: string)
    requires |s| > 0 && s[0] == '/'
    ensures var rest := Split(s[1..]);
      |Split(s)| > 1 && Split(s)[|Split(s)| - 1] == rest[|rest| - 1]
  {
    assert Split(s) == [""] + Split(s[1..]);
  }

  /** A first character that is not `/` joins the first piece of `s[1..]`; the others stay. */
  lemma SplitJoinsFirst(s: string)
    requires |s| > 0 && s[0] != '/' && |Split(s[1..])| > 1
    ensures var rest := Split(s[1..]);
      |Split(s)| > 1 && Split(s)[|Split(s)| - 1] == rest[|rest| - 1]
  {
    var rest := Split(s[1..]);
    assert Split(s) == [[s[0]] + rest[0]] + rest[1..];
  }

  /** When `s[1..]` is one piece and `s` does not start with `/`, `s` is one piece. */
  lemma SplitStepSingle(s: string)
    requires |s| > 0 && s[0] != '/' && |Split(s[1..])| == 1
    ensures |Split(s)| == 1 && Split(s)[0] == s
  {
    var rest := Split(s[1..]);
    JoinSplit(s[1..]);
    assert rest[0] == s[1..];
    assert Split(s)[0] == [s[0]] + rest[0];
    assert [s[0]] + s[1..] == s;
  }

  /** A suffix of `s[1..]` ending a `/`-separated piece is one of `s` too. */
  lemma SuffixShift(s: string, seg: string)
    requires |s| > 0 && |seg| <= |s| - 1
    requires s[1..][|s| - 1 - |seg|..] == seg
    requires |seg| < |s| - 1 ==> s[1..][|s| - 1 - |seg| - 1] == '/'
    requires |seg| == |s| - 1 ==> s[0] == '/'
    ensures s[|s| - |seg|..] == seg
    ensures s[|s| - |seg| - 1] == '/'
  {
    assert s[|s| - |seg|..] == s[1..][|s| - 1 - |seg|..];
  }

  /** A string without `/` is a single piece. */
  lemma {:induction false} SplitNoSlash(s: string)
    requires forall i :: 0 <= i < |s| ==> s[i] != '/'
    ensures Split(s) == [s]
  {
    if |s| > 0 {
      SplitNoSlash(s[1..]);
      assert s == [s[0]] + s[1..];
    }
  }

  /** A leading `/`-free piece followed by a separator splits off as the first piece. */
  lemma {:induction false} SplitFirst(s: string, a: string, b: string)
    requires forall i :: 0 <= i < |a| ==> a[i] != '/'
    requires s == a + "/" + b
    ensures Split(s) == [a] + Split(b)
  {
    if |a| == 0 {
      assert s[1..] == b;
    } else {
      SplitFirst(s[1..], a[1..], b);
      assert a == [a[0]] + a[1..];
    }
  }

  /** Underscores become spaces; every other character is kept. */
  function SpaceUnderscores(s: string): (r: string)
    ensures |r| == |s|
    ensures forall i :: 0 <= i < |r| ==> r[i] != '_'
    ensures forall i :: 0 <= i < |r| && s[i] == '_' ==> r[i] == ' '
    ensures forall i :: 0 <= i < |r| && s[i] != '_' ==> r[i] == s[i]
  {
    seq(|s|, i requires 0 <= i < |s| => if s[i] == '_' then ' ' else s[i])
  }

  /** A card's title: the topic's last `/`-separated segment, underscores shown as spaces. */
  function TopicName(topic: string): (name: string)
    ensures forall i :: 0 <= i < |name| ==> name[i] != '/' && name[i] != '_'
    ensures |name| <= |topic|
    ensures forall i :: 0 <= i < |name| && topic[|topic| - |name| + i] == '_' ==> name[i] == ' '
    ensures forall i :: 0 <= i < |name| && topic[|topic| - |name| + i] != '_' ==> name[i] == topic[|topic| - |name| + i]
    ensures |name| < |topic| ==> topic[|topic| - |name| - 1] == '/'
  {
    var parts := Split(topic);
    var seg := parts[|parts| - 1];
    LastPieceIsSuffix(topic);
    SuffixTitle(topic, seg);
    SpaceUnderscores(seg)
  }

  /** Spacing out a `/`-free suffix of `topic` gives a title that lines up with the end of `topic`. */
  lemma SuffixTitle(topic: string, seg: string)
    requires |seg| <= |topic| && topic[|topic| - |seg|..] == seg
    requires forall i :: 0 <= i < |seg| ==> seg[i] != '/'
    ensures var name := SpaceUnderscores(seg);
      && (forall i :: 0 <= i < |name| ==> name[i] != '/' && name[i] != '_')
      && (forall i :: 0 <= i < |name| && topic[|topic| - |name| + i] == '_' ==> name[i] == ' ')
      && (forall i :: 0 <= i < |name| && topic[|topic| - |name| + i] != '_' ==> name[i] == topic[|topic| - |name| + i])
  {
    var name := SpaceUnderscores(seg);
    forall i | 0 <= i < |seg| ensures topic[|topic| - |seg| + i] == seg[i] {
      assert topic[|topic| - |seg|..][i] == seg[i];
    }
  }

  /** The example from the dashboard's topic cards. */
  lemma TopicNameExample(topic: string, last: string)
    requires topic == "sensor/warehouse/cold_storage" && last == "cold_storage"
    ensures TopicName(topic) == "cold storage"
  {
    LastPieceExample(topic, last);
    TopicNameOfLastPiece(topic, last);
    SpacedExample(last);
  }

  lemma LastPieceExample(topic: string, last: string)
    requires topic == "sensor/warehouse/cold_storage" && last == "cold_storage"
    ensures Split(topic)[|Split(topic)| - 1] == last
  {
    assert topic == "sensor" + "/" + "warehouse" + "/" + last;
    SplitThree("sensor", "warehouse", last);
  }

  /** Three `/`-free pieces joined by `/` split back into those three pieces. */
  lemma SplitThree(a: string, b: string, c: string)
    requires forall i :: 0 <= i < |a| ==> a[i] != '/'
    requires forall i :: 0 <= i < |b| ==> b[i] != '/'
    requires forall i :: 0 <= i < |c| ==> c[i] != '/'
    ensures Split(a + "/" + b + "/" + c) == [a, b, c]
  {
    SplitNoSlash(c);
    SplitFirst(b + "/" + c, b, c);
    assert a + "/" + b + "/" + c == a + "/" + (b + "/" + c);
    SplitFirst(a + "/" + b + "/" + c, a, b + "/" + c);
  }

  lemma TopicNameOfLastPiece(topic: string, seg: string)
    requires Split(topic)[|Split(topic)| - 1] == seg
    ensures TopicName(topic) == SpaceUnderscores(seg)
  {
  }

  lemma SpacedExample(last: string)
    requires last == "cold_storage"
    ensures SpaceUnderscores(last) == "cold storage"
  {
    var r := SpaceUnderscores(last);
    assert forall i :: 0 <= i < |r| ==> r[i] == "cold storage"[i];
  }

  /** What the dashboard displays. */
  datatype Screen = Screen(
    stats: Option<SensorDataApi.Stats>,
    latest: seq<SensorRow>,
    alertCounts: Option<AlertsApi.AlertCounts>,
    thresholds: Breach.ClientThresholds,
    loading: bool)

  /** On mount: nothing fetched yet, spinner up. */
  function Initial(): Screen {
    Screen(None, [], None, map[], true)
  }

  /** The whole page is replaced by the spinner while loading. */
  predicate SpinnerShown(s: Screen) {
    s.loading
  }

  /**
   * One refresh: the four requests are awaited together, so either every
   * response is applied or, when any fails, none is.  Loading ends either way.
   */
  function FetchAll(
    s: Screen,
    stats: Result<SensorDataApi.Stats, FetchError>,
    latest: Result<seq<SensorRow>, FetchError>,
    counts: Result<AlertsApi.AlertCounts, FetchError>,
    thresholds: Result<Option<Breach.ClientThresholds>, FetchError>): (t: Screen)
    ensures !t.loading
    ensures stats.Ok? && latest.Ok? && counts.Ok? && thresholds.Ok? ==>
      && t.stats == Some(stats.value) && t.latest == latest.value
      && t.alertCounts == Some(counts.value) && t.thresholds == Breach.ThresholdsOrEmpty(thresholds.value)
    ensures !(stats.Ok? && latest.Ok? && counts.Ok? && thresholds.Ok?) ==> t == s.(loading := false)
  {
    if stats.Ok? && latest.Ok? && counts.Ok? && thresholds.Ok? then
      Screen(Some(stats.value), latest.value, Some(counts.value), Breach.ThresholdsOrEmpty(thresholds.value), false)
    else
      s.(loading := false)
  }

  /**
   * No refresh mixes old and new parts: after it, either all four parts are
   * the new responses or all four are what was displayed before.
   */
  lemma AllOrNothing(
    s: Screen,
    stats: Result<SensorDataApi.Stats, FetchError>,
    latest: Result<seq<SensorRow>, FetchError>,
    counts: Result<AlertsApi.AlertCounts, FetchError>,
    thresholds: Result<Option<Breach.ClientThresholds>, FetchError>)
    ensures var t := FetchAll(s, stats, latest, counts, thresholds);
      || (t.stats == s.stats && t.latest == s.latest && t.alertCounts == s.alertCounts && t.thresholds == s.thresholds)
      || (&& stats.Ok? && latest.Ok? && counts.Ok? && thresholds.Ok?
          && t.stats == Some(stats.value) && t.latest == latest.value
          && t.alertCounts == Some(counts.value) && t.thresholds == Breach.ThresholdsOrEmpty(thresholds.value))
  {
  }

  /**
   * Because the update is atomic, a dashboard refreshed from one snapshot of
   * the table shows as many latest-reading cards as its topic count says.
   */
  lemma OneSnapshotAgrees(s: Screen, rows: seq<SensorRow>, counts: AlertsApi.AlertCounts, th: Option<Breach.ClientThresholds>)
    ensures var t := FetchAll(s, Ok(SensorDataApi.GetStats(rows)), Ok(SensorDataApi.GetLatestReadings(rows)), Ok(counts), Ok(th));
      t.stats.Some? && t.stats.value.totalTopics == |t.latest|
  {
    var st, lt := SensorDataApi.GetStats(rows), SensorDataApi.GetLatestReadings(rows);
    assert st.totalTopics == |lt|;
    TopicCountShown(s, st, lt, counts, th);
  }

  lemma TopicCountShown(s: Screen, st: SensorDataApi.Stats, lt: seq<SensorRow>, counts: AlertsApi.AlertCounts, th: Option<Breach.ClientThresholds>)
    requires st.totalTopics == |lt|
    ensures var t := FetchAll(s, Ok(st), Ok(lt), Ok(counts), Ok(th));
      t.stats.Some? && t.stats.value.totalTopics == |t.latest|
  {
  }

  /** The state after a sequence of refreshes. */
  datatype Refresh = Refresh(
    stats: Result<SensorDataApi.Stats, FetchError>,
    latest: Result<seq<SensorRow>, FetchError>,
    counts: Result<AlertsApi.AlertCounts, FetchError>,
    thresholds: Result<Option<Breach.ClientThresholds>, FetchError>)

  function Run(s: Screen, refreshes: seq<Refresh>): Screen
    decreases |refreshes|
  {
    if |refreshes| == 0 then s
    else
      var r := refreshes[0];
      Run(FetchAll(s, r.stats, r.latest, r.counts, r.thresholds), refreshes[1..])
  }

  /** The spinner shows only until the first refresh settles, successful or not. */
  lemma {:induction false} SpinnerOnlyBeforeFirstRefresh(refreshes: seq<Refresh>)
    ensures SpinnerShown(Run(Initial(), refreshes)) <==> |refreshes| == 0
  {
    if |refreshes| > 0 {
      var r := refreshes[0];
      RunKeepsLoaded(FetchAll(Initial(), r.stats, r.latest, r.counts, r.thresholds), refreshes[1..]);
    }
  }

  lemma {:induction false} RunKeepsLoaded(s: Screen, refreshes: seq<Refresh>)
    requires !s.loading
    ensures !Run(s, refreshes).loading
    decreases |refreshes|
  {
    if |refreshes| > 0 {
      var r := refreshes[0];
      RunKeepsLoaded(FetchAll(s, r.stats, r.latest, r.counts, r.thresholds), refreshes[1..]);
    }
  }
}

/**
 * Message ingestion: a decoded sensor payload becomes a stored reading and,
 * when some parameter is out of range, an alert with a severity label.
 */
module MqttIngest {
  import opened Common
  import opened Config
  import opened Models
  import Seqs

  /** A decoded JSON object; a key mapped to `None` is an explicit `null`. */
  type Payload = map<string, Option<real>>

  /** Looking a key up the way `payload.get(key)` does: missing and null both read as `None`. */
  function Get(p: Payload, key: string): Option<real> {
    if key in p then p[key] else None
  }

  /** `key` has a configured range and a present value outside it. */
  predicate Violates(p: Payload, key: string) {
    key in Thresholds && Get(p, key).Some? && Thresholds[key].Excludes(Get(p, key).value)
  }

  /** The triple returned by the threshold check. */
  datatype Check = Check(violated: seq<string>, actual: map<string, real>, limits: map<string, Limits>)

  /** The threshold check restricted to the parameter names `keys`, scanned in order. */
  function CheckKeys(keys: seq<string>, p: Payload): (r: Check)
    requires forall k :: k in keys ==> k in Thresholds
    ensures forall k :: k in r.violated <==> k in keys && Violates(p, k)
    ensures Seqs.IsSubseq(r.violated, keys)
    ensures Seqs.Distinct(keys) ==> Seqs.Distinct(r.violated)
    ensures forall k :: k in r.actual <==> k in r.violated
    ensures forall k :: k in r.limits <==> k in r.violated
    ensures forall k :: k in r.actual ==> Get(p, k) == Some(r.actual[k])
    ensures forall k :: k in r.limits ==> k in Thresholds && r.limits[k] == Thresholds[k]
  {
    if |keys| == 0 then Check([], map[], map[])
    else
      var rest := CheckKeys(keys[1..], p);
      var k := keys[0];
      var v := Get(p, k);
      assert keys == [k] + keys[1..];
      if v.None? then rest
      else if Thresholds[k].Excludes(v.value) then
        Check([k] + rest.violated, rest.actual[k := v.value], rest.limits[k := Thresholds[k]])
      else rest
  }

  /**
   * Which configured parameters the payload violates, with their actual
   * values and their ranges.  Keys outside the table are never looked at.
   */
  function CheckThresholds(p: Payload): (r: Check)
    ensures forall k :: k in r.violated <==> Violates(p, k)
    ensures forall k :: Get(p, k).None? ==> k !in r.violated
    ensures Seqs.IsSubseq(r.violated, SensorParams)
    ensures Seqs.Distinct(r.violated)
    ensures forall k :: k in r.actual <==> k in r.violated
    ensures forall k :: k in r.limits <==> k in r.violated
    ensures forall k :: k in r.actual ==> Get(p, k) == Some(r.actual[k])
    ensures forall k :: k in r.limits ==> k in Thresholds && r.limits[k] == Thresholds[k]
  {
    ParamsMatchTable();
    ParamsDistinct();
    var r := CheckKeys(SensorParams, p);
    assert Seqs.Distinct(SensorParams);
    r
  }

  /** The check only depends on the payload's entries for the listed keys. */
  lemma {:induction false} CheckKeysLocal(keys: seq<string>, p: Payload, q: Payload)
    requires forall k :: k in keys ==> k in Thresholds
    requires forall k :: k in keys ==> Get(p, k) == Get(q, k)
    ensures CheckKeys(keys, p) == CheckKeys(keys, q)
  {
    if |keys| > 0 {
      CheckKeysLocal(keys[1..], p, q);
    }
  }

  /** Payload entries for names outside the threshold table do not affect the check. */
  lemma ExtraKeysIgnored(p: Payload, q: Payload)
    requires forall k :: k in SensorParams ==> Get(p, k) == Get(q, k)
    ensures CheckThresholds(p) == CheckThresholds(q)
  {
    ParamsMatchTable();
    CheckKeysLocal(SensorParams, p, q);
  }

  /** More than a fifth of the range's span beyond one of its bounds (strictly). */
  predicate BeyondMargin(v: real, l: Limits) {
    var span := l.max - l.min;
    v < l.min - 0.2 * span || v > l.max + 0.2 * span
  }

  /** The alert's label: critical as soon as one violated value is beyond the margin. */
  function ComputeSeverity(violated: seq<string>, p: Payload): (r: string)
    requires forall k :: k in violated ==> k in Thresholds && Get(p, k).Some?
    ensures r == Critical || r == Warning
    ensures r == Critical <==> exists k :: k in violated && BeyondMargin(Get(p, k).value, Thresholds[k])
  {
    if |violated| == 0 then Warning
    else
      var k := violated[0];
      assert violated == [k] + violated[1..];
      if BeyondMargin(Get(p, k).value, Thresholds[k]) then Critical
      else ComputeSeverity(violated[1..], p)
  }

  /** Some parameter of the payload violates its range by more than the margin. */
  predicate FarOutOfRange(p: Payload) {
    exists k :: k in Thresholds && Violates(p, k) && BeyondMargin(Get(p, k).value, Thresholds[k])
  }

  /** The value written to a parameter's column: a missing key is stored as 0. */
  function StoredValue(p: Payload, key: string): Option<real> {
    if key in p then p[key] else Some(0.0)
  }

  /** What handling one message leaves in the database. */
  datatype Outcome =
    | Rejected                                  // the reading's insert failed; nothing is stored
    | Stored(row: SensorRow, alert: Option<Alert>)

  /** The shape every generated alert has. */
  ghost predicate WellFormedAlert(a: Alert) {
    && |a.violatedKeys| > 0
    && Seqs.IsSubseq(a.violatedKeys, SensorParams)
    && Seqs.Distinct(a.violatedKeys)
    && (forall k :: k in a.actualValues <==> k in a.violatedKeys)
    && (forall k :: k in a.thresholdValues <==> k in a.violatedKeys)
    && (forall k :: k in a.thresholdValues ==> k in Thresholds && a.thresholdValues[k] == Thresholds[k])
    && (forall k :: k in a.actualValues && k in Thresholds ==> Thresholds[k].Excludes(a.actualValues[k]))
    && (a.severity == Critical || a.severity == Warning)
  }

  /**
   * The reading row built from the payload, or `None` when some parameter is
   * an explicit null, which the non-null columns refuse.
   */
  function BuildRow(topic: string, p: Payload, rowId: int, rowTime: int): (r: Option<SensorRow>)
    ensures r.None? <==> exists k :: k in SensorParams && StoredValue(p, k).None?
    ensures r.Some? ==> r.value.id == rowId && r.value.topic == topic && r.value.timestamp == rowTime
    ensures r.Some? ==> forall k :: k in SensorParams ==> Reading(r.value, k) == StoredValue(p, k)
  {
    var t := StoredValue(p, "temperature");
    var h := StoredValue(p, "humidity");
    var v := StoredValue(p, "voltage");
    var c := StoredValue(p, "current");
    var pr := StoredValue(p, "pressure");
    if t.None? || h.None? || v.None? || c.None? || pr.None? then None
    else Some(SensorRow(rowId, topic, rowTime, t.value, h.value, v.value, c.value, pr.value))
  }

  /** The alert recorded for a reading whose payload violates at least one range. */
  function BuildAlert(row: SensorRow, p: Payload, alertId: int, alertTime: int): (a: Alert)
    requires |CheckThresholds(p).violated| > 0
    ensures a.sensorDataId == row.id && a.topic == row.topic
    ensures a.id == alertId && a.timestamp == alertTime
    ensures forall k :: k in a.violatedKeys <==> Violates(p, k)
    ensures forall k :: k in a.actualValues ==> Get(p, k) == Some(a.actualValues[k])
    ensures a.severity == (if FarOutOfRange(p) then Critical else Warning)
    ensures WellFormedAlert(a)
  {
    var check := CheckThresholds(p);
    var severity := ComputeSeverity(check.violated, p);
    Alert(alertId, row.id, row.topic, check.violated, check.actual, check.limits, severity, alertTime)
  }

  /**
   * Handles one decoded message on `topic`.  The reading is stored whatever
   * its values; an alert is added only when some parameter is out of range.
   * Row and alert ids come from the database's auto-increment and the two
   * timestamps from the clock, so they are parameters.
   */
  function OnMessage(topic: string, p: Payload, rowId: int, rowTime: int, alertId: int, alertTime: int): (r: Outcome)
    ensures r.Rejected? <==> exists k :: k in SensorParams && StoredValue(p, k).None?
    ensures r.Stored? ==> r.row.id == rowId && r.row.topic == topic && r.row.timestamp == rowTime
    ensures r.Stored? ==> forall k :: k in SensorParams ==> Reading(r.row, k) == StoredValue(p, k)
    ensures r.Stored? ==> (r.alert.Some? <==> exists k :: Violates(p, k))
    ensures r.Stored? && r.alert.Some? ==>
      && r.alert.value.sensorDataId == r.row.id
      && r.alert.value.topic == topic
      && r.alert.value.id == alertId
      && r.alert.value.timestamp == alertTime
      && (forall k :: k in r.alert.value.violatedKeys <==> Violates(p, k))
      && (forall k :: k in r.alert.value.actualValues ==> Get(p, k) == Some(r.alert.value.actualValues[k]))
      && r.alert.value.severity == (if FarOutOfRange(p) then Critical else Warning)
      && WellFormedAlert(r.alert.value)
  {
    match BuildRow(topic, p, rowId, rowTime)
    case None => Rejected
    case Some(row) =>
      if |CheckThresholds(p).violated| > 0 then Stored(row, Some(BuildAlert(row, p, alertId, alertTime)))
      else Stored(row, None)
  }
}

/** Worked instances of the ingestion rules. */
module MqttIngestExamples {
  import opened Common
  import opened Config
  import opened Models
  import opened MqttIngest

  /**
   * A missing humidity is stored as 0, which is below humidity's range, yet
   * the reading raises no alert: only present values are checked.
   */
  lemma MissingValueStoredAsZeroWithoutAlert(p: Payload)
    requires p == map["temperature" := Some(20.0), "voltage" := Some(220.0),
                      "current" := Some(5.0), "pressure" := Some(1000.0)]
    ensures OnMessage("sensor/plant1/boiler", p, 7, 100, 3, 101)
            == Stored(SensorRow(7, "sensor/plant1/boiler", 100, 20.0, 0.0, 220.0, 5.0, 1000.0), None)
    ensures Thresholds["humidity"].Excludes(0.0)
  {
    NoViolationInRange(p);
    var row := SensorRow(7, "sensor/plant1/boiler", 100, 20.0, 0.0, 220.0, 5.0, 1000.0);
    assert StoredValue(p, "humidity") == Some(0.0);
    assert BuildRow("sensor/plant1/boiler", p, 7, 100) == Some(row);
    var o := OnMessage("sensor/plant1/boiler", p, 7, 100, 3, 101);
    assert o.Stored? && o.row == row;
  }

  /** Every present value of this payload lies in its range, and humidity is absent. */
  lemma NoViolationInRange(p: Payload)
    requires p == map["temperature" := Some(20.0), "voltage" := Some(220.0),
                      "current" := Some(5.0), "pressure" := Some(1000.0)]
    ensures forall k :: !Violates(p, k)
  {
    ParamsMatchTable();
    assert Get(p, "humidity").None?;
  }

  /** An explicit null for a parameter makes the insert fail: nothing is stored. */
  lemma NullValueRejected()
    ensures OnMessage("sensor/plant3/hvac", map["humidity" := None], 1, 0, 1, 0) == Rejected
  {
  }

  /**
   * Temperature's span is 70, so its margin above the range ends at 74: a
   * value of exactly 74 is a warning and anything above it is critical.
   */
  lemma SeverityMarginIsStrict()
    ensures ComputeSeverity(["temperature"], map["temperature" := Some(74.0)]) == Warning
    ensures ComputeSeverity(["temperature"], map["temperature" := Some(74.5)]) == Critical
  {
  }
}

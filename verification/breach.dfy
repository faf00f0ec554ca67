/**
 * The client-side breach highlight used by the Raw Data table and the
 * Dashboard cards: a cell is flagged when the thresholds fetched from the
 * backend put its value out of range.
 */
module Breach {
  import opened Common
  import opened Config
  import opened Models
  import MqttIngest
  import SensorDataApi

  /** The thresholds map as the client holds it: a parameter name to its range. */
  type ClientThresholds = map<string, Limits>

  /** A missing `thresholds` field in the response falls back to the empty map. */
  function ThresholdsOrEmpty(field: Option<ClientThresholds>): (t: ClientThresholds)
    ensures field.None? ==> t == map[]
    ensures field.Some? ==> t == field.value
  {
    field.GetOr(map[])
  }

  /** A value is a breach when its parameter has a range and the value lies strictly outside it. */
  function IsBreach(thresholds: ClientThresholds, key: string, v: real): (b: bool)
    ensures key !in thresholds ==> !b
    ensures key in thresholds ==> (b <==> !(thresholds[key].min <= v <= thresholds[key].max))
  {
    if key !in thresholds then false
    else thresholds[key].Excludes(v)
  }

  /** The flags of one table row, one per parameter column in the table's order. */
  function BreachFlags(thresholds: ClientThresholds, row: SensorRow): (flags: seq<bool>)
    ensures |flags| == |SensorParams|
    ensures forall i :: 0 <= i < |flags| ==>
      flags[i] == (SensorParams[i] in thresholds && thresholds[SensorParams[i]].Excludes(Reading(row, SensorParams[i]).value))
  {
    seq(|SensorParams|, i requires 0 <= i < |SensorParams| => IsBreach(thresholds, SensorParams[i], Reading(row, SensorParams[i]).value))
  }

  /** Before the thresholds arrive, or when the field was missing, nothing is flagged. */
  lemma EmptyThresholdsFlagNothing(row: SensorRow)
    ensures forall i :: 0 <= i < |SensorParams| ==> !BreachFlags(ThresholdsOrEmpty(None), row)[i]
  {
  }

  /**
   * With the thresholds the backend serves, the client flags a single present
   * value exactly when the backend's check lists it as violated.
   */
  lemma BreachAgreesWithBackend(key: string, v: real)
    ensures IsBreach(SensorDataApi.GetThresholds(), key, v)
        <==> key in MqttIngest.CheckThresholds(map[key := Some(v)]).violated
  {
    var t := SensorDataApi.GetThresholds();
    if key in t {
      assert key in SensorParams;
      assert t[key] == Thresholds[key];
    }
  }

  /**
   * For a stored reading and a parameter the payload carried, the table
   * flags the cell exactly when the reading's alert lists the parameter.
   */
  lemma FlagMatchesAlert(topic: string, p: MqttIngest.Payload, rowId: int, rowTime: int, alertId: int, alertTime: int, key: string)
    requires MqttIngest.OnMessage(topic, p, rowId, rowTime, alertId, alertTime).Stored?
    requires key in SensorParams && MqttIngest.Get(p, key).Some?
    ensures var o := MqttIngest.OnMessage(topic, p, rowId, rowTime, alertId, alertTime);
      (IsBreach(SensorDataApi.GetThresholds(), key, Reading(o.row, key).value)
       <==> o.alert.Some? && key in o.alert.value.violatedKeys)
  {
    var o := MqttIngest.OnMessage(topic, p, rowId, rowTime, alertId, alertTime);
    var t := SensorDataApi.GetThresholds();
    assert Reading(o.row, key) == MqttIngest.StoredValue(p, key);
    assert key in t && t[key] == Thresholds[key];
    if MqttIngest.Violates(p, key) {
      assert o.alert.Some?;
    }
  }

  /**
   * A missing humidity is stored as 0 and raises no alert, yet the table
   * flags that cell: the client sees a breach the backend never checked.
   */
  lemma StoredZeroFlaggedWithoutAlert()
    ensures var p: MqttIngest.Payload := map["temperature" := Some(20.0), "voltage" := Some(220.0),
                                             "current" := Some(5.0), "pressure" := Some(1000.0)];
            var o := MqttIngest.OnMessage("sensor/plant1/boiler", p, 7, 100, 3, 101);
            && o.Stored? && o.alert.None?
            && IsBreach(SensorDataApi.GetThresholds(), "humidity", o.row.humidity)
  {
    var p: MqttIngest.Payload := map["temperature" := Some(20.0), "voltage" := Some(220.0),
                                     "current" := Some(5.0), "pressure" := Some(1000.0)];
    assert forall k :: !MqttIngest.Violates(p, k);
    assert "humidity" in SensorDataApi.GetThresholds();
  }
}

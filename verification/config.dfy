/** The backend's configured sensor parameters and their alarm ranges. */
module Config {

  /** An inclusive range `[min, max]` a parameter is expected to stay within. */
  datatype Limits = Limits(min: real, max: real) {

    /** `v` lies strictly outside the range; a value equal to a bound is inside. */
    predicate Excludes(v: real) {
      v < min || v > max
    }
  }

  /** Parameter names in the order the threshold table declares them. */
  const SensorParams: seq<string> := ["temperature", "humidity", "voltage", "current", "pressure"]

  /** The global threshold table; the same ranges apply to every topic. */
  const Thresholds: map<string, Limits> := map[
    "temperature" := Limits(-10.0, 60.0),
    "humidity"    := Limits(10.0, 90.0),
    "voltage"     := Limits(180.0, 260.0),
    "current"     := Limits(0.0, 30.0),
    "pressure"    := Limits(950.0, 1050.0)
  ]

  /** The parameter list names exactly the table's keys. */
  lemma ParamsMatchTable()
    ensures forall k :: k in Thresholds <==> k in SensorParams
  {
  }

  /** No parameter is listed twice. */
  lemma ParamsDistinct()
    ensures forall i, j :: 0 <= i < j < |SensorParams| ==> SensorParams[i] != SensorParams[j]
  {
  }

  /** Every configured range is non-empty. */
  lemma RangesNonEmpty()
    ensures forall k :: k in Thresholds ==> Thresholds[k].min < Thresholds[k].max
  {
  }
}

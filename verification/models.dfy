/** Rows of the two persisted tables, `sensor_data` and `alerts`. */
module Models {
  import opened Common
  import opened Config

  /** One stored reading; every parameter column is non-null. */
  datatype SensorRow = SensorRow(
    id: int,
    topic: string,
    timestamp: int,
    temperature: real,
    humidity: real,
    voltage: real,
    current: real,
    pressure: real)

  /** The column of `row` named `key`; absent for a name that is not a column. */
  function Reading(row: SensorRow, key: string): (v: Option<real>)
    ensures v.Some? <==> key in SensorParams
  {
    match key
    case "temperature" => Some(row.temperature)
    case "humidity" => Some(row.humidity)
    case "voltage" => Some(row.voltage)
    case "current" => Some(row.current)
    case "pressure" => Some(row.pressure)
    case _ => None
  }

  /** A stored threshold-breach alert, linked to the reading that caused it. */
  datatype Alert = Alert(
    id: int,
    sensorDataId: int,
    topic: string,
    violatedKeys: seq<string>,
    actualValues: map<string, real>,
    thresholdValues: map<string, Limits>,
    severity: string,
    timestamp: int)

  const Critical: string := "critical"
  const Warning: string := "warning"

  function RowTime(row: SensorRow): int { row.timestamp }

  function AlertTime(a: Alert): int { a.timestamp }
}

/** Telemetry samples as the dashboard receives and stores them.

    A payload is the mapping decoded from one broker message; it may lack any of
    the seven keys the dashboard reads. A record is one row of the dashboard's
    history table, built from a payload that has all seven. */
module Telemetry {

  datatype Option<T> = None | Some(value: T)

  /** Retention of the sliding window, in minutes. */
  const WINDOW_SIZE: int := 60

  /** The same retention in seconds, the unit of `Record.timestamp`. */
  const WINDOW_SECONDS: int := WINDOW_SIZE * 60

  /** One row of the history table. Timestamps are seconds; the sensor readings
      and the advisory `failure` flag are exact reals. */
  datatype Record = Record(
    timestamp: int,
    temperature: real,
    vibration: real,
    pressure: real,
    motorCurrent: real,
    power: real,
    failure: real)

  /** A decoded message. `None` stands for a key the message does not carry
      (for `timestamp`, also a value that cannot be read as a date). */
  datatype Payload = Payload(
    timestamp: Option<int>,
    temperature: Option<real>,
    vibration: Option<real>,
    pressure: Option<real>,
    motorCurrent: Option<real>,
    power: Option<real>,
    failure: Option<real>)

  /** The payload carries every key the history row is built from. */
  predicate Complete(p: Payload)
  {
    && p.timestamp.Some? && p.temperature.Some? && p.vibration.Some?
    && p.pressure.Some? && p.motorCurrent.Some? && p.power.Some? && p.failure.Some?
  }

  /** Builds the history row for one payload; `None` is the lookup of a missing
      key, which raises in the dashboard. */
  function ToRecord(p: Payload): (r: Option<Record>)
    ensures r.Some? <==> Complete(p)
    ensures r.Some? ==> ToPayload(r.value) == p
  {
    if Complete(p) then
      Some(Record(p.timestamp.value, p.temperature.value, p.vibration.value,
                  p.pressure.value, p.motorCurrent.value, p.power.value, p.failure.value))
    else
      None
  }

  /** The complete message for a row: every key present, each holding the
      row's own value. It is the message `ToRecord` turns back into `r`. */
  function ToPayload(r: Record): (p: Payload)
    ensures Complete(p)
  {
    Payload(Some(r.timestamp), Some(r.temperature), Some(r.vibration), Some(r.pressure),
            Some(r.motorCurrent), Some(r.power), Some(r.failure))
  }

  /** A full message round-trips into the very row it was made from. */
  lemma RecordRoundTrip(r: Record)
    ensures ToRecord(ToPayload(r)) == Some(r)
  {
  }

  /** Supply voltage, in volts, that the publisher multiplies motor current by. */
  const VOLTAGE: real := 220.0

  /** The message the publisher sends for a dataset row: the row's readings,
      except that `power` is not the row's own but motor current times the
      supply voltage. */
  function PublisherMessage(r: Record): (p: Payload)
    ensures Complete(p)
    ensures ToRecord(p) == Some(r.(power := r.motorCurrent * VOLTAGE))
  {
    ToPayload(r.(power := r.motorCurrent * VOLTAGE))
  }

  /** A row whose power already is motor current times the voltage is received
      as that very row; any other row arrives with its power replaced. */
  lemma PublisherRoundTrip(r: Record)
    ensures ToRecord(PublisherMessage(r)) == Some(r) <==> r.power == r.motorCurrent * VOLTAGE
  {
    if ToRecord(PublisherMessage(r)) == Some(r) {
      assert r.(power := r.motorCurrent * VOLTAGE).power == r.power;
    }
  }

  /** The last row of a non-empty table: after eviction, the last row of the
      window, which is not always the last one appended. */
  function Last(h: seq<Record>): Record
    requires |h| > 0
  {
    h[|h| - 1]
  }
}

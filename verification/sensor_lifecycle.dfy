/** A flag sensor over its lifetime: the events that change `_state` and
    `_available`, and what a sensor reports after any sequence of them. */
module SensorLifecycle {
  import opened Wrappers
  import opened BinarySensor

  /** `is_on` holds exactly for the values Python finds equal to `True`:
      `True` itself and the integer 1. */
  lemma IsOnExactlyForTrue(s: Sensor)
    ensures IsOn(s) <==> s.state == PyBool(true) || s.state == PyInt(1)
  {
  }

  /** A restored state is a string such as "on", and reports off. */
  lemma RestoredStateReportsOff(s: Sensor, restored: string)
    ensures !IsOn(AddedToHass(s, false, Some(restored)))
    ensures AddedToHass(s, false, Some(restored)).available
  {
  }

  /** A failed refresh makes the sensor unavailable and leaves what it
      reports unchanged. */
  lemma FailedRefreshKeepsReading(s: Sensor, getFlags: string -> PyValue)
    ensures !StateUpdate(s, false, getFlags).available
    ensures IsOn(StateUpdate(s, false, getFlags)) == IsOn(s)
  {
  }

  /** Handling the same refresh twice is the same as handling it once. */
  lemma StateUpdateIdempotent(s: Sensor, lastUpdateSuccess: bool, getFlags: string -> PyValue)
    ensures StateUpdate(StateUpdate(s, lastUpdateSuccess, getFlags), lastUpdateSuccess, getFlags) ==
            StateUpdate(s, lastUpdateSuccess, getFlags)
  {
  }

  /** Attaching twice with the same inputs is the same as attaching once. */
  lemma AddedToHassIdempotent(s: Sensor, lastUpdateSuccess: bool, lastState: Option<string>)
    ensures AddedToHass(AddedToHass(s, lastUpdateSuccess, lastState), lastUpdateSuccess, lastState) ==
            AddedToHass(s, lastUpdateSuccess, lastState)
  {
  }

  /** What can happen to a sensor: a coordinator refresh (with the
      coordinator's success flag and the meter's flag lookup at that time),
      or being attached (with the success flag and the persisted state). */
  datatype Event =
    | Refresh(success: bool, getFlags: string -> PyValue)
    | Attach(attachSuccess: bool, lastState: Option<string>)

  /** One event applied to a sensor. */
  function Apply(s: Sensor, e: Event): (r: Sensor)
    ensures SameEntity(s, r)
  {
    match e
    case Refresh(success, getFlags) => StateUpdate(s, success, getFlags)
    case Attach(success, lastState) => AddedToHass(s, success, lastState)
  }

  /** The events applied in order, first to last. */
  function Run(s: Sensor, events: seq<Event>): (r: Sensor)
    ensures SameEntity(s, r)
    decreases |events|
  {
    if |events| == 0 then s else Run(Apply(s, events[0]), events[1..])
  }

  /** The value an event writes to `_state` of a sensor with flag `key`, if any. */
  function StateWrite(key: string, e: Event): (r: Option<PyValue>) {
    match e
    case Refresh(success, getFlags) => if success then Some(getFlags(key)) else None
    case Attach(success, lastState) =>
      if !success && lastState.Some? then Some(PyStr(lastState.value)) else None
  }

  /** The value an event writes to `_available`, if any. */
  function AvailabilityWrite(e: Event): (r: Option<bool>) {
    match e
    case Refresh(success, _) => Some(success)
    case Attach(success, lastState) => if !success && lastState.Some? then Some(true) else None
  }

  /** The most recent write to `_state` in `events`, searching from the end. */
  function LastStateWrite(key: string, events: seq<Event>): (r: Option<PyValue>)
    decreases |events|
  {
    if |events| == 0 then None
    else if StateWrite(key, events[|events| - 1]).Some? then StateWrite(key, events[|events| - 1])
    else LastStateWrite(key, events[..|events| - 1])
  }

  /** The most recent write to `_available` in `events`, searching from the end. */
  function LastAvailabilityWrite(events: seq<Event>): (r: Option<bool>)
    decreases |events|
  {
    if |events| == 0 then None
    else if AvailabilityWrite(events[|events| - 1]).Some? then AvailabilityWrite(events[|events| - 1])
    else LastAvailabilityWrite(events[..|events| - 1])
  }

  /** Applying one more event at the end of a run. */
  lemma {:induction false} RunSnoc(s: Sensor, events: seq<Event>, e: Event)
    ensures Run(s, events + [e]) == Apply(Run(s, events), e)
    decreases |events|
  {
    if |events| == 0 {
      assert events + [e] == [e];
      assert [e][1..] == [];
    } else {
      assert (events + [e])[0] == events[0];
      assert (events + [e])[1..] == events[1..] + [e];
      RunSnoc(Apply(s, events[0]), events[1..], e);
    }
  }

  /** A single event changes `_state` and `_available` exactly as its
      writes say. */
  lemma ApplyWrites(s: Sensor, e: Event)
    ensures Apply(s, e).state == StateWrite(s.description.key, e).GetOr(s.state)
    ensures Apply(s, e).available == AvailabilityWrite(e).GetOr(s.available)
  {
  }

  /** After any sequence of events a sensor holds the value of the most
      recent event that wrote `_state`, or its original value if none did;
      likewise for `_available`. */
  lemma {:induction false} RunReflectsLastWrite(s: Sensor, events: seq<Event>)
    ensures Run(s, events).state == LastStateWrite(s.description.key, events).GetOr(s.state)
    ensures Run(s, events).available == LastAvailabilityWrite(events).GetOr(s.available)
    decreases |events|
  {
    if |events| > 0 {
      var n := |events| - 1;
      var prefix := events[..n];
      assert events == prefix + [events[n]];
      RunSnoc(s, prefix, events[n]);
      RunReflectsLastWrite(s, prefix);
      ApplyWrites(Run(s, prefix), events[n]);
    }
  }

  /** A run that ends in a failed refresh leaves the sensor unavailable,
      whatever came before, and reporting what it reported before that
      refresh. */
  lemma {:induction false} FailedRefreshLastMeansUnavailable(s: Sensor, events: seq<Event>, getFlags: string -> PyValue)
    ensures !Run(s, events + [Refresh(false, getFlags)]).available
    ensures IsOn(Run(s, events + [Refresh(false, getFlags)])) == IsOn(Run(s, events))
  {
    RunSnoc(s, events, Refresh(false, getFlags));
  }

  /** A freshly constructed sensor that has seen no successful refresh and
      no restore reports off. */
  lemma {:induction false} NoWriteMeansOff(meter: Meter, description: Description, events: seq<Event>)
    requires LastStateWrite(description.key, events).None?
    ensures !IsOn(Run(NewSensor(meter, description), events))
    ensures Run(NewSensor(meter, description), events).state == PyNone
  {
    RunReflectsLastWrite(NewSensor(meter, description), events);
  }
}

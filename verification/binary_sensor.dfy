/** The Eye On Water flag sensors: one binary sensor per meter and flag
    ("Leak", "EmptyPipe"), fed by the host's refresh coordinator and, before
    the first successful refresh, by the state persisted in the previous
    session.

    The meter, the coordinator and the restore store belong to other code:
    the meter's `get_flags`, the coordinator's `last_update_success` and the
    persisted state are inputs. */
module BinarySensor {
  import opened Wrappers

  /** The integration's domain (DOMAIN in the integration's constants file,
      which is not part of this model). */
  const Domain: string

  /** The Python values a sensor's `_state` can hold: the initial `None`,
      what `get_flags` returns, or a restored state, which is a string. */
  datatype PyValue = PyNone | PyBool(b: bool) | PyInt(i: int) | PyStr(s: string)

  /** The number a value stands for in Python comparisons: `bool` is a
      subclass of `int`, so `False` is 0 and `True` is 1. */
  function NumericValue(v: PyValue): (r: Option<int>) {
    match v
    case PyBool(b) => Some(if b then 1 else 0)
    case PyInt(i) => Some(i)
    case _ => None
  }

  /** Python's `==` on these values: numbers compare by value, strings by
      contents, `None` only equals `None`. */
  predicate PyEq(a: PyValue, b: PyValue) {
    if NumericValue(a).Some? || NumericValue(b).Some? then
      NumericValue(a) == NumericValue(b)
    else
      a == b
  }

  /** The host's binary-sensor device classes used here. */
  datatype DeviceClass = Moisture | Problem

  /** A `BinarySensorEntityDescription`. */
  datatype Description = Description(key: string, name: string, deviceClass: DeviceClass)

  /** `FLAG_SENSORS`: the flags every meter is exposed with, in order. */
  const FlagSensors: seq<Description> := [
    Description("Leak", "Leak Sensor", Moisture),
    Description("EmptyPipe", "Empty Pipe", Problem)
  ]

  /** The part of a meter the sensors read: its uuid and the `meter_id`
      entry of its metadata, as text. */
  datatype Meter = Meter(uuid: string, meterId: string)

  /** The device a sensor is grouped under. */
  datatype DeviceInfo = DeviceInfo(identifiers: set<(string, string)>, name: string)

  /** An `EyeOnWaterBinarySensor`: its fixed identity and its two mutable
      attributes `_state` and `_available`. */
  datatype Sensor = Sensor(
    meter: Meter,
    description: Description,
    uniqueId: string,
    name: string,
    device: DeviceInfo,
    state: PyValue,
    available: bool)

  /** The identity the constructor gives a sensor of `meter` and `description`. */
  predicate HasIdentity(s: Sensor, meter: Meter, description: Description) {
    && s.meter == meter
    && s.description == description
    && s.uniqueId == description.key + "_" + meter.uuid
    && s.name == description.name
    && s.device == DeviceInfo({(Domain, meter.uuid)}, "Water Meter " + meter.meterId)
  }

  /** Two sensor values are the same entity: only `_state` and `_available`
      may differ. */
  predicate SameEntity(s: Sensor, t: Sensor) {
    s.(state := t.state, available := t.available) == t
  }

  /** `is_on`: `_state == True`. */
  predicate IsOn(s: Sensor) {
    PyEq(s.state, PyBool(true))
  }

  /** `EyeOnWaterBinarySensor.__init__`. */
  function NewSensor(meter: Meter, description: Description): (s: Sensor)
    ensures HasIdentity(s, meter, description)
    ensures s.state == PyNone && !s.available
    ensures !IsOn(s)
  {
    Sensor(meter, description,
           description.key + "_" + meter.uuid,
           description.name,
           DeviceInfo({(Domain, meter.uuid)}, "Water Meter " + meter.meterId),
           PyNone, false)
  }

  /** `_state_update`, run when the coordinator signals a refresh:
      availability follows the refresh's success, and only a successful
      refresh reads the flag from the meter. */
  function StateUpdate(s: Sensor, lastUpdateSuccess: bool, getFlags: string -> PyValue): (r: Sensor)
    ensures SameEntity(s, r)
    ensures r.available == lastUpdateSuccess
    ensures lastUpdateSuccess ==> r.state == getFlags(s.description.key)
    ensures !lastUpdateSuccess ==> r.state == s.state
  {
    var available := lastUpdateSuccess;
    if available then s.(available := available, state := getFlags(s.description.key))
    else s.(available := available)
  }

  /** `async_added_to_hass`, after the listener is registered: when the
      coordinator has not yet succeeded, a persisted state (always a string)
      is adopted and `_available` set to True. */
  function AddedToHass(s: Sensor, lastUpdateSuccess: bool, lastState: Option<string>): (r: Sensor)
    ensures SameEntity(s, r)
    ensures lastUpdateSuccess || lastState.None? ==> r == s
    ensures !lastUpdateSuccess && lastState.Some? ==> r.state == PyStr(lastState.value) && r.available
    ensures r != s ==> r.available && !IsOn(r)
  {
    if lastUpdateSuccess then s
    else
      match lastState
      case None => s
      case Some(restored) => s.(state := PyStr(restored), available := true)
  }

  /** The meter-major expansion `async_setup_entry` produces: for each
      meter, one sensor per flag, in the order of `FlagSensors`. */
  predicate IsExpansion(meters: seq<Meter>, sensors: seq<Sensor>) {
    && |sensors| == |FlagSensors| * |meters|
    && forall m, d :: 0 <= m < |meters| && 0 <= d < |FlagSensors| ==>
         sensors[|FlagSensors| * m + d] == NewSensor(meters[m], FlagSensors[d])
  }

  /** `async_setup_entry`: the sensors handed to the host, built by the
      nested loop over meters and flags. */
  method SetupEntry(meters: seq<Meter>) returns (sensors: seq<Sensor>)
    ensures |sensors| == 2 * |meters|
    ensures IsExpansion(meters, sensors)
  {
    sensors := [];
    var i := 0;
    while i < |meters|
      invariant 0 <= i <= |meters|
      invariant |sensors| == |FlagSensors| * i
      invariant forall m, d :: 0 <= m < i && 0 <= d < |FlagSensors| ==>
                  sensors[|FlagSensors| * m + d] == NewSensor(meters[m], FlagSensors[d])
    {
      var j := 0;
      while j < |FlagSensors|
        invariant 0 <= j <= |FlagSensors|
        invariant |sensors| == |FlagSensors| * i + j
        invariant forall m, d :: 0 <= m < i && 0 <= d < |FlagSensors| ==>
                    sensors[|FlagSensors| * m + d] == NewSensor(meters[m], FlagSensors[d])
        invariant forall d :: 0 <= d < j ==> sensors[|FlagSensors| * i + d] == NewSensor(meters[i], FlagSensors[d])
      {
        sensors := sensors + [NewSensor(meters[i], FlagSensors[j])];
        j := j + 1;
      }
      i := i + 1;
    }
  }
}

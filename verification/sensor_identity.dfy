/** How a flag sensor's unique id and device are derived from its meter,
    and why the sensors created at setup never share a unique id. */
module SensorIdentity {
  import opened BinarySensor

  /** The position of the first `c` in `s`, or `|s|` when there is none. */
  function FirstIndexOf(s: string, c: char): (k: nat)
    ensures k <= |s|
    ensures k < |s| ==> s[k] == c
    ensures forall i :: 0 <= i < k ==> s[i] != c
    decreases |s|
  {
    if |s| == 0 then 0
    else if s[0] == c then 0
    else 1 + FirstIndexOf(s[1..], c)
  }

  /** Reads a unique id back as (flag key, meter uuid), splitting at the
      first underscore. */
  function SplitUniqueId(id: string): (r: (string, string)) {
    var k := FirstIndexOf(id, '_');
    if k == |id| then (id, "") else (id[..k], id[k + 1..])
  }

  /** None of the flag keys contains an underscore. */
  lemma FlagKeysHaveNoUnderscore(d: Description)
    requires d in FlagSensors
    ensures forall i :: 0 <= i < |d.key| ==> d.key[i] != '_'
  {
  }

  /** Splitting a unique id built from a key without underscores gives back
      the key and the meter uuid. */
  lemma SplitJoin(key: string, uuid: string)
    requires forall i :: 0 <= i < |key| ==> key[i] != '_'
    ensures SplitUniqueId(key + "_" + uuid) == (key, uuid)
  {
    var id := key + "_" + uuid;
    var k := FirstIndexOf(id, '_');
    assert id[|key|] == '_';
    assert k == |key|;
    assert id[..k] == key;
    assert id[k + 1..] == uuid;
  }

  /** A sensor's unique id determines its flag key and its meter's uuid. */
  lemma UniqueIdRoundTrip(meter: Meter, d: Description)
    requires d in FlagSensors
    ensures SplitUniqueId(NewSensor(meter, d).uniqueId) == (d.key, meter.uuid)
  {
    FlagKeysHaveNoUnderscore(d);
    SplitJoin(d.key, meter.uuid);
  }

  /** The meters of one setup have pairwise distinct uuids. */
  predicate DistinctUuids(meters: seq<Meter>) {
    forall a, b :: 0 <= a < b < |meters| ==> meters[a].uuid != meters[b].uuid
  }

  /** When the meters' uuids are distinct, the sensors created at setup
      have pairwise distinct unique ids. */
  lemma SetupUniqueIdsDistinct(meters: seq<Meter>, sensors: seq<Sensor>)
    requires IsExpansion(meters, sensors)
    requires DistinctUuids(meters)
    ensures forall a, b :: 0 <= a < b < |sensors| ==> sensors[a].uniqueId != sensors[b].uniqueId
  {
    forall a, b | 0 <= a < b < |sensors|
      ensures sensors[a].uniqueId != sensors[b].uniqueId
    {
      var ma, da := a / 2, a % 2;
      var mb, db := b / 2, b % 2;
      assert sensors[a] == NewSensor(meters[ma], FlagSensors[da]);
      assert sensors[b] == NewSensor(meters[mb], FlagSensors[db]);
      UniqueIdRoundTrip(meters[ma], FlagSensors[da]);
      UniqueIdRoundTrip(meters[mb], FlagSensors[db]);
      if ma == mb {
        assert da != db;
        assert FlagSensors[da].key != FlagSensors[db].key;
      } else {
        assert meters[ma].uuid != meters[mb].uuid;
      }
    }
  }

  /** Both sensors of a meter sit on the same device, identified by the
      meter's uuid and named after its meter id; when the meters' uuids are
      distinct, sensors of different meters sit on different devices. */
  lemma SetupDevices(meters: seq<Meter>, sensors: seq<Sensor>)
    requires IsExpansion(meters, sensors)
    ensures forall a :: 0 <= a < |sensors| ==>
              sensors[a].device == DeviceInfo({(Domain, meters[a / 2].uuid)}, "Water Meter " + meters[a / 2].meterId)
    ensures DistinctUuids(meters) ==>
              forall a, b :: 0 <= a < |sensors| && 0 <= b < |sensors| ==>
                (sensors[a].device.identifiers == sensors[b].device.identifiers <==> a / 2 == b / 2)
  {
    forall a | 0 <= a < |sensors|
      ensures sensors[a].device == DeviceInfo({(Domain, meters[a / 2].uuid)}, "Water Meter " + meters[a / 2].meterId)
    {
      assert sensors[a] == NewSensor(meters[a / 2], FlagSensors[a % 2]);
    }
    forall a, b | DistinctUuids(meters) && 0 <= a < |sensors| && 0 <= b < |sensors|
      ensures sensors[a].device.identifiers == sensors[b].device.identifiers <==> a / 2 == b / 2
    {
      if a / 2 != b / 2 {
        var ia := (Domain, meters[a / 2].uuid);
        assert ia in sensors[a].device.identifiers;
        if a / 2 < b / 2 {
          assert meters[a / 2].uuid != meters[b / 2].uuid;
        } else {
          assert meters[b / 2].uuid != meters[a / 2].uuid;
        }
        assert ia !in sensors[b].device.identifiers;
      }
    }
  }

  /** Setup yields two sensors per meter: its Leak sensor, then its
      EmptyPipe sensor. */
  lemma SetupOrder(meters: seq<Meter>, sensors: seq<Sensor>)
    requires IsExpansion(meters, sensors)
    ensures |sensors| == 2 * |meters|
    ensures forall m :: 0 <= m < |meters| ==>
              && sensors[2 * m].description.key == "Leak"
              && sensors[2 * m + 1].description.key == "EmptyPipe"
              && sensors[2 * m].meter == meters[m]
              && sensors[2 * m + 1].meter == meters[m]
  {
    forall m | 0 <= m < |meters|
      ensures && sensors[2 * m].description.key == "Leak"
              && sensors[2 * m + 1].description.key == "EmptyPipe"
              && sensors[2 * m].meter == meters[m]
              && sensors[2 * m + 1].meter == meters[m]
    {
      assert sensors[2 * m + 0] == NewSensor(meters[m], FlagSensors[0]);
      assert sensors[2 * m + 1] == NewSensor(meters[m], FlagSensors[1]);
    }
  }
}

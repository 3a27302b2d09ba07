/** The registry of typed devices, updates coming in from a v1 adapter, and
    writes going out to one. */
module TypedDevices {
  import opened Options
  import opened SlotValues

  datatype DeviceClass =
    | Light | Socket | BinarySwitch | Cover | Thermostat | Climate | Contact | Sensor | Generic

  datatype Origin = V1 | V2

  datatype Slot = Slot(
    slotId: string,
    kind: SlotKind,
    value: SlotValue,
    writable: bool,
    slotLabel: string,
    trust: Option<int>,
    stateId: string,
    inverted: bool,
    options: seq<string>)

  datatype TypedDevice = TypedDevice(
    deviceId: string,
    name: string,
    room: string,
    deviceClass: DeviceClass,
    slots: seq<Slot>,
    origin: Origin)

  /** The position of the slot with this id, or the number of slots. */
  function SlotAt(slots: seq<Slot>, id: string): (i: nat)
    ensures i <= |slots|
    ensures i < |slots| ==> slots[i].slotId == id
    ensures forall j :: 0 <= j < i ==> slots[j].slotId != id
  {
    if slots == [] || slots[0].slotId == id then 0 else 1 + SlotAt(slots[1..], id)
  }

  ghost predicate DistinctSlotIds(slots: seq<Slot>) {
    forall i, j :: 0 <= i < j < |slots| ==> slots[i].slotId != slots[j].slotId
  }

  type Devices = map<string, TypedDevice>

  predicate HasSlot(devices: Devices, device: string, slot: string) {
    device in devices && SlotAt(devices[device].slots, slot) < |devices[device].slots|
  }

  function SlotOf(devices: Devices, device: string, slot: string): Slot
    requires HasSlot(devices, device, slot)
  {
    devices[device].slots[SlotAt(devices[device].slots, slot)]
  }

  function SetValue(devices: Devices, device: string, slot: string, v: SlotValue): Devices {
    if !HasSlot(devices, device, slot) then devices
    else
      var d := devices[device];
      var i := SlotAt(d.slots, slot);
      devices[device := d.(slots := d.slots[i := d.slots[i].(value := v)])]
  }

  /** The index knows the v1 states behind the slots, and nothing else. */
  ghost predicate Indexed(devices: Devices, index: map<string, (string, string)>) {
    && (forall sid :: sid in index ==>
          sid != "" && HasSlot(devices, index[sid].0, index[sid].1) &&
          SlotOf(devices, index[sid].0, index[sid].1).stateId == sid)
    && (forall d, s :: HasSlot(devices, d, s) && SlotOf(devices, d, s).stateId != "" ==>
      SlotOf(devices, d, s).stateId in index)
  }

  lemma SlotAtKept(slots: seq<Slot>, i: nat, v: SlotValue, id: string)
    requires i < |slots|
    ensures SlotAt(slots[i := slots[i].(value := v)], id) == SlotAt(slots, id)
  {
    var after := slots[i := slots[i].(value := v)];
    var a, b := SlotAt(slots, id), SlotAt(after, id);
    assert a < |slots| ==> after[a].slotId == id;
    assert b < |slots| ==> slots[b].slotId == id;
  }

  /** Setting a value changes that value only. */
  lemma SetValueSets(devices: Devices, device: string, slot: string, v: SlotValue, d: string, s: string)
    requires HasSlot(devices, device, slot)
    ensures HasSlot(SetValue(devices, device, slot, v), d, s) <==> HasSlot(devices, d, s)
    ensures HasSlot(devices, d, s) ==>
      SlotOf(SetValue(devices, device, slot, v), d, s) ==
      if d == device && s == slot then SlotOf(devices, d, s).(value := v) else SlotOf(devices, d, s)
  {
    if d == device {
      SlotAtKept(devices[device].slots, SlotAt(devices[device].slots, slot), v, s);
    }
  }

  lemma SetValueKeepsIndexed(devices: Devices, index: map<string, (string, string)>, device: string, slot: string,
                             v: SlotValue)
    requires Indexed(devices, index)
    ensures Indexed(SetValue(devices, device, slot, v), index)
  {
    if HasSlot(devices, device, slot) {
      var after := SetValue(devices, device, slot, v);
      forall d, s
        ensures HasSlot(after, d, s) <==> HasSlot(devices, d, s)
        ensures HasSlot(devices, d, s) ==> SlotOf(after, d, s).stateId == SlotOf(devices, d, s).stateId
      {
        SetValueSets(devices, device, slot, v, d, s);
      }
    }
  }

  class DeviceRegistry {
    var devices: Devices
    var stateIndex: map<string, (string, string)>

    ghost predicate Valid()
      reads this
    {
      Indexed(devices, stateIndex)
    }

    constructor ()
      ensures Valid() && devices == map[] && stateIndex == map[]
    {
      devices, stateIndex := map[], map[];
    }

    method SetSlotValue(device: string, slot: string, v: SlotValue) returns (found: bool)
      requires Valid()
      modifies this`devices
      ensures Valid()
      ensures found == HasSlot(old(devices), device, slot) && devices == SetValue(old(devices), device, slot, v)
    {
      if device !in devices {
        return false;
      }
      var i := SlotAt(devices[device].slots, slot);
      if i == |devices[device].slots| {
        return false;
      }
      SetValueKeepsIndexed(devices, stateIndex, device, slot, v);
      var d := devices[device];
      devices := devices[device := d.(slots := d.slots[i := d.slots[i].(value := v)])];
      found := true;
    }

    /** A live update of a v1 state. */
    method ApplyStateUpdate(stateId: string, raw: string) returns (known: bool)
      requires Valid()
      modifies this`devices
      ensures Valid()
      ensures known == (stateId in stateIndex)
      ensures devices == Updated(old(devices), stateIndex, stateId, raw)
    {
      if stateId !in stateIndex {
        return false;
      }
      var (device, slotId) := stateIndex[stateId];
      var slot := SlotOf(devices, device, slotId);
      known := SetSlotValue(device, slotId, Normalize(slot.kind, raw, slot.inverted));
    }

    /** Puts the devices of one origin in place of the former ones; a device without id, name or room
        is not kept, and of several with one id the first. */
    method Replace(origin: Origin, list: seq<TypedDevice>) returns (kept: nat)
      modifies this
      ensures Valid()
      ensures devices == Replaced(old(devices), origin, list) && kept == |Kept(origin, list)|
    {
      hide Indexed, Kept;
      var k := Keep(origin, list);
      devices := (map i | i in devices && devices[i].origin != origin :: devices[i]) + k;
      kept := |k|;
      RebuildStateIndex();
    }

    static method Keep(origin: Origin, list: seq<TypedDevice>) returns (k: Devices)
      ensures k == Kept(origin, list)
    {
      k := map[];
      for i := 0 to |list|
        invariant k == Kept(origin, list[..i])
      {
        assert list[..i + 1][..i] == list[..i];
        var d := list[i];
        if d.deviceId == "" || d.name == "" || d.room == "" || d.deviceId in k {
          continue;
        }
        k := k[d.deviceId := d.(origin := origin)];
      }
      assert list[..|list|] == list;
    }

    method RebuildStateIndex()
      modifies this`stateIndex
      ensures Valid()
    {
      stateIndex := map[];
      var rest := devices.Keys;
      while rest != {}
        invariant rest <= devices.Keys
        invariant IndexSound(devices, stateIndex)
        invariant forall d, s :: d !in rest && HasSlot(devices, d, s) && SlotOf(devices, d, s).stateId != "" ==>
          SlotOf(devices, d, s).stateId in stateIndex
      {
        var d :| d in rest;
        rest := rest - {d};
        IndexDevice(d);
      }
    }

    method IndexDevice(d: string)
      requires d in devices && IndexSound(devices, stateIndex)
      modifies this`stateIndex
      ensures IndexSound(devices, stateIndex) && old(stateIndex).Keys <= stateIndex.Keys
      ensures forall s :: HasSlot(devices, d, s) && SlotOf(devices, d, s).stateId != "" ==>
        SlotOf(devices, d, s).stateId in stateIndex
    {
      hide IndexSound;
      var slots := devices[d].slots;
      for i := 0 to |slots|
        invariant IndexSound(devices, stateIndex) && old(stateIndex).Keys <= stateIndex.Keys
        invariant forall j :: 0 <= j < i && SlotAt(slots, slots[j].slotId) == j && slots[j].stateId != "" ==>
          slots[j].stateId in stateIndex
      {
        var s := slots[i];
        // Slot ids are keys: only the slot found under an id counts.
        if s.stateId != "" && SlotAt(slots, s.slotId) == i {
          IndexOne(devices, stateIndex, d, s);
          stateIndex := stateIndex[s.stateId := (d, s.slotId)];
        }
      }
    }
  }

  ghost predicate IndexSound(devices: Devices, index: map<string, (string, string)>) {
    forall sid :: sid in index ==>
      sid != "" && HasSlot(devices, index[sid].0, index[sid].1) &&
      SlotOf(devices, index[sid].0, index[sid].1).stateId == sid
  }

  lemma IndexOne(devices: Devices, index: map<string, (string, string)>, d: string, s: Slot)
    requires IndexSound(devices, index) && s.stateId != ""
    requires HasSlot(devices, d, s.slotId) && SlotOf(devices, d, s.slotId) == s
    ensures IndexSound(devices, index[s.stateId := (d, s.slotId)])
  {
    hide HasSlot;
  }

  function Kept(origin: Origin, list: seq<TypedDevice>): Devices {
    if list == [] then map[]
    else
      var d := list[|list| - 1];
      var before := Kept(origin, list[..|list| - 1]);
      if d.deviceId == "" || d.name == "" || d.room == "" || d.deviceId in before then before
      else before[d.deviceId := d.(origin := origin)]
  }

  function Replaced(devices: Devices, origin: Origin, list: seq<TypedDevice>): Devices {
    (map i | i in devices && devices[i].origin != origin :: devices[i]) + Kept(origin, list)
  }

  function Updated(devices: Devices, index: map<string, (string, string)>, stateId: string, raw: string): Devices {
    if stateId !in index || !HasSlot(devices, index[stateId].0, index[stateId].1) then devices
    else
      var (d, s) := index[stateId];
      var slot := SlotOf(devices, d, s);
      SetValue(devices, d, s, Normalize(slot.kind, raw, slot.inverted))
  }

  /** The device can be kept: it has an id, a name and a room. */
  predicate Complete(d: TypedDevice) {
    |d.deviceId| > 0 && |d.name| > 0 && |d.room| > 0
  }

  /** The first complete device of the list with this id. */
  ghost predicate FirstWithId(list: seq<TypedDevice>, i: nat, id: string) {
    && i < |list| && Complete(list[i]) && list[i].deviceId == id
    && forall j :: 0 <= j < i && Complete(list[j]) ==> list[j].deviceId != id
  }

  lemma {:induction false} KeptIs(origin: Origin, list: seq<TypedDevice>, id: string)
    ensures id in Kept(origin, list) <==> exists i: nat :: FirstWithId(list, i, id)
    ensures forall i: nat :: FirstWithId(list, i, id) ==>
      id in Kept(origin, list) && Kept(origin, list)[id] == list[i].(origin := origin)
  {
    if list == [] {
    } else {
      var n := |list| - 1;
      var init := list[..n];
      KeptIs(origin, init, id);
      KeptOneMore(origin, list, id);
      hide Kept;
      forall i: nat
        ensures FirstWithId(list, i, id) <==>
          || FirstWithId(init, i, id)
          || (i == n && Complete(list[n]) && list[n].deviceId == id && forall j: nat :: !FirstWithId(init, j, id))
      {
        FirstOneMore(list, i, id);
      }
      assert forall i: nat :: FirstWithId(init, i, id) ==> init[i] == list[i];
      hide FirstWithId, Complete;
    }
  }

  lemma KeptOneMore(origin: Origin, list: seq<TypedDevice>, id: string)
    requires list != []
    ensures var n := |list| - 1;
      var before, after := Kept(origin, list[..n]), Kept(origin, list);
      var adds := Complete(list[n]) && list[n].deviceId == id && id !in before;
      && (id in after <==> id in before || adds)
      && (id in after ==> after[id] == if adds then list[n].(origin := origin) else before[id])
  {}

  lemma FirstOneMore(list: seq<TypedDevice>, i: nat, id: string)
    requires list != []
    ensures var n := |list| - 1;
      FirstWithId(list, i, id) <==>
        || FirstWithId(list[..n], i, id)
        || (i == n && Complete(list[n]) && list[n].deviceId == id && forall j: nat :: !FirstWithId(list[..n], j, id))
  {
    var n := |list| - 1;
    var init := list[..n];
    assert forall j :: 0 <= j < n ==> init[j] == list[j];
    if forall j: nat :: !FirstWithId(init, j, id) {
      NoneBefore(init, id);
    }
    if i == n && FirstWithId(list, n, id) {
      forall j: nat
        ensures !FirstWithId(init, j, id)
      {
        assert j < n ==> init[j] == list[j];
      }
    }
  }

  lemma {:induction false} NoneBefore(list: seq<TypedDevice>, id: string)
    requires forall i: nat :: !FirstWithId(list, i, id)
    ensures forall i :: 0 <= i < |list| && Complete(list[i]) ==> list[i].deviceId != id
  {
    if i: nat :| i < |list| && Complete(list[i]) && list[i].deviceId == id {
      var _ := LeastWithId(list, i, id);
    }
  }

  lemma {:induction false} LeastWithId(list: seq<TypedDevice>, i: nat, id: string) returns (k: nat)
    requires i < |list| && Complete(list[i]) && list[i].deviceId == id
    ensures FirstWithId(list, k, id)
  {
    if j: nat :| j < i && Complete(list[j]) && list[j].deviceId == id {
      k := LeastWithId(list, j, id);
    } else {
      k := i;
    }
  }

  /** After a replacement a name stands for the first complete device of the list that bears it, with the
      new origin, and else for the device of another origin that had it. */
  lemma ReplacedIs(devices: Devices, origin: Origin, list: seq<TypedDevice>, id: string)
    ensures var after := Replaced(devices, origin, list);
      if exists i: nat :: FirstWithId(list, i, id)
      then id in after && exists i: nat :: FirstWithId(list, i, id) && after[id] == list[i].(origin := origin)
      else
        && (id in after <==> id in devices && devices[id].origin != origin)
        && (id in after ==> after[id] == devices[id])
  {
    hide Kept, FirstWithId;
    KeptIs(origin, list, id);
  }
}

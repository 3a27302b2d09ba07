/** Carrying out an intent on a list of devices: over the typed registry, and
    over the states as before. */
module SlotExecution {
  import opened Options
  import opened SlotValues
  import opened TypedDevices
  import opened DeviceControl

  datatype Intent =
    | TurnOn
    | TurnOff
    | SetLevel(percent: Num, openClose: bool)
    | SetColor(color: string)
    | SetTemperature(degrees: Num)
    | SetMode(mode: string)
    | SetFanSpeed(speed: string)
    | OtherIntent
  {
    predicate OpenClose() {
      SetLevel? && openClose
    }
  }

  /** Kelvin for the words "warm" and "kalt". */
  function WhiteKelvin(word: string): Option<int> {
    if word == "warm" then Some(2700) else if word == "kalt" then Some(6500) else None
  }

  function IntentToSlot(i: Intent, c: DeviceClass): Option<(SlotKind, Value)> {
    match i
    case TurnOn => Some((On, Bool(true)))
    case TurnOff => Some((On, Bool(false)))
    case SetLevel(p, openClose) => Some((if openClose || c == Cover then Position else Brightness, Float(p)))
    case SetColor(s) =>
      if s != "" && s[0] == '#' then Some((Color, Str(s)))
      else if WhiteKelvin(s).Some? then Some((ColorTemperature, Int(WhiteKelvin(s).value)))
      else None
    case SetTemperature(d) => Some((TargetTemperature, Float(d)))
    case SetMode(m) => Some((Mode, Str(m)))
    case SetFanSpeed(s) => Some((FanSpeed, Str(s)))
    case OtherIntent => None
  }

  function SlotOfKind(slots: seq<Slot>, k: SlotKind): Option<Slot> {
    if slots == [] then None else if slots[0].kind == k then Some(slots[0]) else SlotOfKind(slots[1..], k)
  }

  /** An explicit percentage goes to an inverted actuator as it is: it is mirrored here, and once more
      on the way out. */
  function Prepared(i: Intent, slot: Slot, v: Value): Value {
    if slot.kind == Position && slot.inverted && !i.OpenClose() && v.Float? then Float(Mirror(v.d)) else v
  }

  /** What becomes of one device. */
  datatype Fate =
    | Sent(key: string, message: Message)
    | Refused
    | Unsupported
    | Dropped

  function KeyOf(d: TypedDevice, slot: Slot): string {
    if d.origin == V1 then slot.stateId else d.deviceId + "#" + slot.slotId
  }

  /** What a confirmation must bring: from a v1 adapter the value as it is sent, from others the value itself. */
  function Expected(d: TypedDevice, slot: Slot, v: SlotValue): Value {
    if d.origin == V1 then V1WireValue(slot.kind, slot.inverted, v) else PlainValue(v)
  }

  /** The expected value is that of the message. */
  predicate Confirms(expected: Value, m: Message) {
    match m
    case SetState(_, payload) => payload == JsonDumps(expected)
    case SetSlotV2(_, _, v) => expected == PlainValue(v)
  }

  lemma ExpectedConfirms(d: TypedDevice, slot: Slot, v: SlotValue)
    ensures Confirms(Expected(d, slot, v), MessageOf(d, slot, v))
  {}

  /** The key a confirmation for the device is awaited under, if it has the slot. */
  function TargetKey(i: Intent, d: TypedDevice): set<string> {
    match IntentToSlot(i, d.deviceClass)
    case None => {}
    case Some((k, v)) => if SlotOfKind(d.slots, k).Some? then {KeyOf(d, SlotOfKind(d.slots, k).value)} else {}
  }

  function TargetKeys(i: Intent, devices: seq<TypedDevice>): set<string> {
    set n, key | 0 <= n < |devices| && key in TargetKey(i, devices[n]) :: key
  }

  /** The fate of a device in the registry: no such slot or read-only is unsupported, too little trust is
      refused, a value that does not fit or an adapter that is gone drops it. */
  function SlotFate(i: Intent, d: TypedDevice, trust: Option<int>, reachable: set<string>): Fate {
    match IntentToSlot(i, d.deviceClass)
    case None => Dropped
    case Some((k, v)) =>
      match SlotOfKind(d.slots, k)
      case None => Unsupported
      case Some(slot) =>
        if !slot.writable then Unsupported else WriteFate(i, d, slot, v, trust, reachable)
  }

  function WriteFate(i: Intent, d: TypedDevice, slot: Slot, v: Value, trust: Option<int>,
                     reachable: set<string>): Fate {
    match ToSlotValue(slot.kind, Prepared(i, slot, v))
    case None => Dropped
    case Some(value) =>
      if !Trusted(trust, slot) then Refused
      else if KeyOf(d, slot) !in reachable then Dropped
      else Sent(KeyOf(d, slot), MessageOf(d, slot, value))
  }

  /** The devices of a call, sorted by fate. */
  datatype Report = Report(
    count: nat,
    sent: seq<Message>,
    denied: seq<string>,
    unsupported: seq<string>,
    dropped: seq<string>)

  function Add(r: Report, d: string, f: Fate): Report {
    match f
    case Sent(_, m) => r.(count := r.count + 1, sent := r.sent + [m])
    case Refused => r.(denied := r.denied + [d])
    case Unsupported => r.(unsupported := r.unsupported + [d])
    case Dropped => r.(dropped := r.dropped + [d])
  }

  const NO_REPORT := Report(0, [], [], [], [])

  function SlotReport(i: Intent, devices: seq<TypedDevice>, trust: Option<int>, reachable: set<string>): Report {
    if devices == [] then NO_REPORT
    else
      var d := devices[|devices| - 1];
      Add(SlotReport(i, devices[..|devices| - 1], trust, reachable), d.deviceId, SlotFate(i, d, trust, reachable))
  }

  /** Every device of a call has exactly one fate. */
  lemma {:induction false} OneFateEach(i: Intent, devices: seq<TypedDevice>, trust: Option<int>, reachable: set<string>)
    ensures var r := SlotReport(i, devices, trust, reachable);
      r.count == |r.sent| && |r.sent| + |r.denied| + |r.unsupported| + |r.dropped| == |devices|
  {
    if devices == [] {
    } else {
      OneFateEach(i, devices[..|devices| - 1], trust, reachable);
    }
  }

  // ----------------------------------------------------------------------
  // The loop over the registry

  /** The devices with these ids, which are all in the registry. */
  function Lookup(devices: Devices, ids: seq<string>): seq<TypedDevice>
    requires forall id :: id in ids ==> id in devices
  {
    seq(|ids|, i requires 0 <= i < |ids| => devices[ids[i]])
  }

  /** Slot ids are keys, and so are device ids. */
  ghost predicate WellKeyed(devices: Devices) {
    forall id :: id in devices ==> devices[id].deviceId == id && DistinctSlotIds(devices[id].slots)
  }

  lemma {:induction false} SlotOfKindFound(slots: seq<Slot>, k: SlotKind)
    requires SlotOfKind(slots, k).Some?
    ensures SlotOfKind(slots, k).value in slots && SlotOfKind(slots, k).value.kind == k
  {
    if slots[0].kind != k {
      SlotOfKindFound(slots[1..], k);
    }
  }

  lemma FoundById(slots: seq<Slot>, s: Slot)
    requires DistinctSlotIds(slots) && s in slots
    ensures SlotAt(slots, s.slotId) < |slots| && slots[SlotAt(slots, s.slotId)] == s
  {
    var i :| 0 <= i < |slots| && slots[i] == s;
    assert SlotAt(slots, s.slotId) == i;
  }

  /** What a write through the controller comes to is what the fate says. */
  lemma FateOfWrite(i: Intent, devices: Devices, id: string, trust: Option<int>, reachable: set<string>)
    requires WellKeyed(devices) && id in devices
    requires IntentToSlot(i, devices[id].deviceClass).Some?
    requires var (k, v) := IntentToSlot(i, devices[id].deviceClass).value;
      SlotOfKind(devices[id].slots, k).Some? && SlotOfKind(devices[id].slots, k).value.writable
    ensures var d := devices[id];
      var (k, v) := IntentToSlot(i, d.deviceClass).value;
      var slot := SlotOfKind(d.slots, k).value;
      && d.deviceId == id && HasSlot(devices, id, slot.slotId)
      && SlotOf(devices, id, slot.slotId) == slot && slot.kind == k
      && Refusal(devices, id, slot.slotId, Prepared(i, slot, v), trust) ==
         (if !Trusted(trust, slot) then Some(Denied)
          else if ToSlotValue(k, Prepared(i, slot, v)) == None then Some(BadValue)
          else None)
  {
    var d := devices[id];
    var (k, v) := IntentToSlot(i, d.deviceClass).value;
    SlotOfKindFound(d.slots, k);
    FoundById(d.slots, SlotOfKind(d.slots, k).value);
  }

  // ----------------------------------------------------------------------
  // Values change while the loop runs, nothing else does

  function Erased(slots: seq<Slot>): seq<Slot> {
    seq(|slots|, i requires 0 <= i < |slots| => slots[i].(value := Unknown))
  }

  /** The same devices apart from the values of their slots. */
  ghost predicate SameShape(a: Devices, b: Devices) {
    a.Keys == b.Keys && forall id :: id in a ==>
      a[id].(slots := Erased(a[id].slots)) == b[id].(slots := Erased(b[id].slots))
  }

  lemma ErasedAlike(a: seq<Slot>, b: seq<Slot>)
    requires Erased(a) == Erased(b)
    ensures |a| == |b| && forall i :: 0 <= i < |a| ==> a[i].(value := Unknown) == b[i].(value := Unknown)
  {
    forall i | 0 <= i < |a|
      ensures a[i].(value := Unknown) == b[i].(value := Unknown)
    {
      assert Erased(a)[i] == Erased(b)[i];
    }
  }

  lemma {:induction false} SlotOfKindAlike(a: seq<Slot>, b: seq<Slot>, k: SlotKind)
    requires Erased(a) == Erased(b)
    ensures SlotOfKind(a, k).Some? == SlotOfKind(b, k).Some?
    ensures SlotOfKind(a, k).Some? ==>
              SlotOfKind(a, k).value.(value := Unknown) == SlotOfKind(b, k).value.(value := Unknown)
  {
    ErasedAlike(a, b);
    if a != [] && a[0].kind != k {
      assert Erased(a)[1..] == Erased(a[1..]) && Erased(b)[1..] == Erased(b[1..]);
      SlotOfKindAlike(a[1..], b[1..], k);
    }
  }

  /** A device's fate does not depend on the values its slots have. */
  lemma FateIgnoresValues(i: Intent, d: TypedDevice, e: TypedDevice, trust: Option<int>, reachable: set<string>)
    requires d.(slots := Erased(d.slots)) == e.(slots := Erased(e.slots))
    ensures SlotFate(i, d, trust, reachable) == SlotFate(i, e, trust, reachable)
    ensures TargetKey(i, d) == TargetKey(i, e)
  {
    hide WriteFate, SlotOfKind, Erased, IntentToSlot;
    if IntentToSlot(i, d.deviceClass).Some? {
      var (k, v) := IntentToSlot(i, d.deviceClass).value;
      SlotOfKindAlike(d.slots, e.slots, k);
      if SlotOfKind(d.slots, k).Some? {
        WriteIgnoresValues(i, d, e, SlotOfKind(d.slots, k).value, SlotOfKind(e.slots, k).value, v, trust, reachable);
      }
    }
  }

  lemma WriteIgnoresValues(i: Intent, d: TypedDevice, e: TypedDevice, s: Slot, u: Slot, v: Value,
                           trust: Option<int>, reachable: set<string>)
    requires d.(slots := e.slots) == e && s.(value := Unknown) == u.(value := Unknown)
    ensures WriteFate(i, d, s, v, trust, reachable) == WriteFate(i, e, u, v, trust, reachable)
    ensures KeyOf(d, s) == KeyOf(e, u)
  {
    hide Mirror, JsonDumps, V1WireValue, ToSlotValue;
  }

  lemma SetValueKeepsShape(devices: Devices, id: string, slot: string, v: SlotValue)
    ensures SameShape(SetValue(devices, id, slot, v), devices)
  {
    if HasSlot(devices, id, slot) {
      var slots := devices[id].slots;
      var k := SlotAt(slots, slot);
      assert Erased(slots[k := slots[k].(value := v)]) == Erased(slots);
    }
  }

  lemma ShapeKeepsKeys(a: Devices, b: Devices)
    requires SameShape(a, b) && WellKeyed(b)
    ensures WellKeyed(a)
  {
    forall id | id in a
      ensures a[id].deviceId == id && DistinctSlotIds(a[id].slots)
    {
      ErasedAlike(a[id].slots, b[id].slots);
      assert forall j :: 0 <= j < |a[id].slots| ==> a[id].slots[j].(value := Unknown).slotId == b[id].slots[j].slotId;
    }
  }

  lemma ShapeTransitive(a: Devices, b: Devices, c: Devices)
    requires SameShape(a, b) && SameShape(b, c)
    ensures SameShape(a, c)
  {}

  // ----------------------------------------------------------------------
  // Over the states, as before

  datatype StateDevice = StateDevice(
    id: string,
    states: map<string, string>,
    stateWritable: map<string, bool>,
    inverted: bool)

  /** A number as Python holds it: without decimals an int. */
  function PyNumber(d: Num): Value {
    if d.Integral() then Int(d.mantissa) else Float(d)
  }

  function IntentToState(i: Intent): Option<(string, Value)> {
    match i
    case TurnOn => Some(("on", Bool(true)))
    case TurnOff => Some(("on", Bool(false)))
    case SetLevel(p, _) => Some(("level", PyNumber(p)))
    case SetColor(s) => Some(("color", Str(s)))
    case SetTemperature(d) => Some(("expected", PyNumber(d)))
    case SetMode(m) => Some(("mode", Str(m)))
    case SetFanSpeed(s) => Some(("fanSpeed", Str(s)))
    case OtherIntent => None
  }

  predicate MaySet(required: map<string, int>, stateId: string, trust: Option<int>) {
    trust == None || stateId !in required || trust.value >= required[stateId]
  }

  /** Opening or closing an inverted actuator mirrors the percentage. */
  function DeviceValue(i: Intent, inverted: bool, v: Value): Value {
    if i.SetLevel? && i.openClose && inverted then PyNumber(Mirror(i.percent)) else v
  }

  function StateFate(i: Intent, d: StateDevice, required: map<string, int>, trust: Option<int>,
                     reachable: set<string>): Fate {
    match IntentToState(i)
    case None => Dropped
    case Some((key, v)) =>
      if key !in d.states || d.states[key] == "" then Unsupported
      else if key in d.stateWritable && !d.stateWritable[key] then Unsupported
      else if !MaySet(required, d.states[key], trust) then Refused
      else if d.states[key] !in reachable then Dropped
      else Sent(d.states[key], SetState(d.states[key], JsonDumps(DeviceValue(i, d.inverted, v))))
  }

  /** The state a confirmation for the device is awaited under, if it has it. */
  function StateKey(i: Intent, d: StateDevice): set<string> {
    match IntentToState(i)
    case None => {}
    case Some((key, _)) => if key in d.states then {d.states[key]} else {}
  }

  function StateKeys(i: Intent, devices: seq<StateDevice>): set<string> {
    set n, key | 0 <= n < |devices| && key in StateKey(i, devices[n]) :: key
  }

  function StateReport(i: Intent, devices: seq<StateDevice>, required: map<string, int>, trust: Option<int>,
                       reachable: set<string>): Report {
    if devices == [] then NO_REPORT
    else
      var d := devices[|devices| - 1];
      Add(StateReport(i, devices[..|devices| - 1], required, trust, reachable), d.id,
          StateFate(i, d, required, trust, reachable))
  }

  // ----------------------------------------------------------------------
  // The two loops

  class IoBroker {
    const controller: DeviceController
    /** Who waits for the confirmation of which key. */
    var confirmWaiters: map<string, Value>

    constructor (controller: DeviceController)
      ensures this.controller == controller && confirmWaiters == map[]
    {
      this.controller, confirmWaiters := controller, map[];
    }

    /** One device. */
    method ExecuteOne(i: Intent, id: string, trust: Option<int>, wait: bool, reachable: set<string>)
      returns (fate: Fate, ghost touched: set<string>)
      requires controller.registry.Valid() && WellKeyed(controller.registry.devices) &&
                 id in controller.registry.devices
      modifies this, controller, controller.registry`devices
      ensures controller.registry.Valid() && SameShape(controller.registry.devices, old(controller.registry.devices))
      ensures fate == SlotFate(i, old(controller.registry.devices)[id], trust, reachable)
      ensures controller.messages == old(controller.messages) + (if fate.Sent? then [fate.message] else [])
      ensures confirmWaiters - touched == old(confirmWaiters) - touched
      ensures confirmWaiters.Keys * touched == if wait && fate.Sent? then {fate.key} else {}
      ensures wait && fate.Sent? ==> fate.key in confirmWaiters && Confirms(confirmWaiters[fate.key], fate.message)
      ensures touched <= if wait then TargetKey(i, old(controller.registry.devices)[id]) else {}
    {
      hide WellKeyed, SameShape, WriteFate, Confirms;
      touched := {};
      ShapeReflexive(controller.registry.devices);
      var d := controller.registry.devices[id];
      var target := IntentToSlot(i, d.deviceClass);
      if target == None {
        return Dropped, {};
      }
      var (k, v) := target.value;
      var found := SlotOfKind(d.slots, k);
      if found == None || !found.value.writable {
        return Unsupported, {};
      }
      SlotOfKindFound(d.slots, k);
      fate, touched := WriteTarget(i, id, found.value, v, trust, wait, reachable);
    }

    /** The slot the intent is meant for. */
    method WriteTarget(i: Intent, id: string, slot: Slot, v: Value, trust: Option<int>, wait: bool,
                       reachable: set<string>)
      returns (fate: Fate, ghost touched: set<string>)
      requires controller.registry.Valid() && WellKeyed(controller.registry.devices) &&
                 id in controller.registry.devices
      requires IntentToSlot(i, controller.registry.devices[id].deviceClass) == Some((slot.kind, v))
      requires SlotOfKind(controller.registry.devices[id].slots, slot.kind) == Some(slot) && slot.writable
      modifies this, controller, controller.registry`devices
      ensures controller.registry.Valid() && SameShape(controller.registry.devices, old(controller.registry.devices))
      ensures fate == WriteFate(i, old(controller.registry.devices)[id], slot, v, trust, reachable)
      ensures controller.messages == old(controller.messages) + (if fate.Sent? then [fate.message] else [])
      ensures confirmWaiters - touched == old(confirmWaiters) - touched
      ensures confirmWaiters.Keys * touched == if wait && fate.Sent? then {fate.key} else {}
      ensures wait && fate.Sent? ==> fate.key in confirmWaiters && Confirms(confirmWaiters[fate.key], fate.message)
      ensures touched <= if wait then {KeyOf(old(controller.registry.devices)[id], slot)} else {}
    {
      hide WellKeyed, SameShape, SlotOf, HasSlot, Mirror, ToSlotValue, V1WireValue, JsonDumps, MessageOf, Prepared,
           Trusted, Refusal, IntentToSlot, SlotOfKind, Confirms;
      touched := {};
      ShapeReflexive(controller.registry.devices);
      var d := controller.registry.devices[id];
      FateOfWrite(i, controller.registry.devices, id, trust, reachable);
      var value := Prepared(i, slot, v);
      var checked := ToSlotValue(slot.kind, value);
      if checked == None {
        return Dropped, {};
      }
      var key := KeyOf(d, slot);
      var sent, denied;
      sent, denied, touched := SendConfirmed(d, slot, value, checked.value, key, trust, wait, key in reachable);
      fate := if sent then Sent(key, MessageOf(d, slot, checked.value)) else if denied then Refused else Dropped;
    }

    /** The confirmation is registered before sending and taken back when nothing was sent. */
    method SendConfirmed(d: TypedDevice, slot: Slot, value: Value, checked: SlotValue, key: string,
                         trust: Option<int>, wait: bool, accepts: bool)
      returns (sent: bool, denied: bool, ghost touched: set<string>)
      requires controller.registry.Valid()
      requires d.deviceId in controller.registry.devices && controller.registry.devices[d.deviceId] == d
      requires HasSlot(controller.registry.devices, d.deviceId, slot.slotId)
      requires SlotOf(controller.registry.devices, d.deviceId, slot.slotId) == slot
      requires Refusal(controller.registry.devices, d.deviceId, slot.slotId, value, trust) ==
               if !Trusted(trust, slot) then Some(Denied) else None
      requires ToSlotValue(slot.kind, value) == Some(checked)
      modifies this, controller, controller.registry`devices
      ensures controller.registry.Valid() && SameShape(controller.registry.devices, old(controller.registry.devices))
      ensures denied == !Trusted(trust, slot) && sent == (!denied && accepts)
      ensures controller.messages == old(controller.messages) + (if sent then [MessageOf(d, slot, checked)] else [])
      ensures touched == if wait then {key} else {}
      ensures confirmWaiters - touched == old(confirmWaiters) - touched
      ensures confirmWaiters.Keys * touched == if wait && sent then {key} else {}
      ensures wait && sent ==> key in confirmWaiters && Confirms(confirmWaiters[key], MessageOf(d, slot, checked))
    {
      hide SameShape, SlotOf, HasSlot, Mirror, ToSlotValue, V1WireValue, JsonDumps, MessageOf, Trusted, Refusal,
           Expected, Confirms;
      ExpectedConfirms(d, slot, checked);
      touched := if wait then {key} else {};
      if wait {
        confirmWaiters := confirmWaiters[key := Expected(d, slot, checked)];
      }
      SetValueKeepsShape(controller.registry.devices, d.deviceId, slot.slotId, checked);
      ShapeReflexive(controller.registry.devices);
      var r := controller.SetSlot(d.deviceId, slot.slotId, value, trust, false, Reply(accepts, false));
      assert d.(deviceId := d.deviceId) == d;
      denied := r == Denied;
      sent := r.Written? && r.sent;
      if !sent && wait {
        confirmWaiters := confirmWaiters - {key};
      }
    }

    /** All devices of a call, and no registration left at its end. */
    method ExecuteSlots(i: Intent, ids: seq<string>, trust: Option<int>, wait: bool, reachable: set<string>)
      returns (r: Report, ghost touched: set<string>)
      requires controller.registry.Valid() && WellKeyed(controller.registry.devices)
      requires forall id :: id in ids ==> id in controller.registry.devices
      modifies this, controller, controller.registry`devices
      ensures controller.registry.Valid() && SameShape(controller.registry.devices, old(controller.registry.devices))
      ensures r == SlotReport(i, Lookup(old(controller.registry.devices), ids), trust, reachable)
      ensures controller.messages == old(controller.messages) + r.sent
      ensures confirmWaiters == old(confirmWaiters) - touched
      ensures touched <= if wait then TargetKeys(i, Lookup(old(controller.registry.devices), ids)) else {}
    {
      hide SameShape, WellKeyed, SlotFate, TargetKey, SlotReport, Add, Confirms;
      touched := {};
      r := NO_REPORT;
      NothingReported(i, old(controller.registry.devices), trust, reachable);
      var waits: set<string> := {};
      ShapeReflexive(controller.registry.devices);
      var n := 0;
      while n < |ids|
        invariant 0 <= n <= |ids|
        invariant controller.registry.Valid() && SameShape(controller.registry.devices,
                    old(controller.registry.devices))
        invariant r == SlotReport(i, Lookup(old(controller.registry.devices), ids[..n]), trust, reachable)
        invariant controller.messages == old(controller.messages) + r.sent
        invariant confirmWaiters - touched == old(confirmWaiters) - touched
        invariant confirmWaiters.Keys * touched <= waits <= touched
        invariant touched <= if wait then TargetKeys(i, Lookup(old(controller.registry.devices), ids)) else {}
      {
        ghost var devices := controller.registry.devices;
        ghost var waiting, before := confirmWaiters, touched;
        ShapeKeepsKeys(devices, old(controller.registry.devices));
        SameFate(i, devices, old(controller.registry.devices), ids[n], trust, reachable);
        var fate;
        ghost var more;
        fate, more := ExecuteOne(i, ids[n], trust, wait, reachable);
        ShapeTransitive(controller.registry.devices, devices, old(controller.registry.devices));
        touched := touched + more;
        assert Lookup(old(controller.registry.devices), ids)[n] == old(controller.registry.devices)[ids[n]];
        WaitersApart(old(confirmWaiters), waiting, confirmWaiters, before, more);
        ReportOneMore(i, old(controller.registry.devices), ids, n, trust, reachable);
        AddSends(r, ids[n], fate);
        r := Add(r, ids[n], fate);
        if wait && fate.Sent? {
          waits := waits + {fate.key};
        }
        n := n + 1;
      }
      assert ids[..|ids|] == ids;
      AwaitAll(waits);
    }

    /** All devices of a call over their states, and no registration left at its end. */
    method ExecuteStates(i: Intent, devices: seq<StateDevice>, required: map<string, int>, trust: Option<int>,
                         wait: bool,
                         reachable: set<string>)
      returns (r: Report, ghost touched: set<string>)
      modifies this`confirmWaiters
      ensures r == if IntentToState(i) == None then NO_REPORT else StateReport(i, devices, required, trust, reachable)
      ensures confirmWaiters == old(confirmWaiters) - touched
      ensures touched <= if wait then StateKeys(i, devices) else {}
    {
      hide StateFate, StateKey;
      touched := {};
      r := NO_REPORT;
      if IntentToState(i) == None {
        return;
      }
      var waits: set<string> := {};
      for n := 0 to |devices|
        invariant r == StateReport(i, devices[..n], required, trust, reachable)
        invariant confirmWaiters - touched == old(confirmWaiters) - touched
        invariant confirmWaiters.Keys * touched <= waits <= touched
        invariant touched <= if wait then StateKeys(i, devices) else {}
      {
        assert devices[..n + 1][..n] == devices[..n];
        ghost var waiting, before := confirmWaiters, touched;
        var fate;
        ghost var more;
        fate, more := ExecuteState(i, devices[n], required, trust, wait, reachable);
        touched := touched + more;
        WaitersApart(old(confirmWaiters), waiting, confirmWaiters, before, more);
        r := Add(r, devices[n].id, fate);
        if wait && fate.Sent? {
          waits := waits + {fate.key};
        }
      }
      assert devices[..|devices|] == devices;
      AwaitAll(waits);
    }

    /** One device; the confirmation is registered before sending and taken back when nothing was sent. */
    method ExecuteState(i: Intent, d: StateDevice, required: map<string, int>, trust: Option<int>, wait: bool,
                        reachable: set<string>)
      returns (fate: Fate, ghost touched: set<string>)
      requires IntentToState(i).Some?
      modifies this`confirmWaiters
      ensures fate == StateFate(i, d, required, trust, reachable)
      ensures confirmWaiters - touched == old(confirmWaiters) - touched
      ensures confirmWaiters.Keys * touched == if wait && fate.Sent? then {fate.key} else {}
      ensures wait && fate.Sent? ==> fate.key in confirmWaiters && Confirms(confirmWaiters[fate.key], fate.message)
      ensures touched <= if wait then StateKey(i, d) else {}
    {
      hide JsonDumps, DeviceValue, MaySet;
      touched := {};
      var (key, value) := IntentToState(i).value;
      if key !in d.states || d.states[key] == "" || (key in d.stateWritable && !d.stateWritable[key]) {
        return Unsupported, {};
      }
      var stateId := d.states[key];
      if !MaySet(required, stateId, trust) {
        return Refused, {};
      }
      var sent := DeviceValue(i, d.inverted, value);
      if wait {
        touched := {stateId};
        confirmWaiters := confirmWaiters[stateId := sent];
      }
      if stateId in reachable {
        fate := Sent(stateId, SetState(stateId, JsonDumps(sent)));
      } else {
        fate := Dropped;
        if wait {
          confirmWaiters := confirmWaiters - {stateId};
        }
      }
    }

    /** Waits for each confirmation as long as there is time, and takes it back in any case. */
    method AwaitAll(waits: set<string>)
      modifies this`confirmWaiters
      ensures confirmWaiters == old(confirmWaiters) - waits
    {
      var rest := waits;
      while rest != {}
        invariant rest <= waits
        invariant confirmWaiters == old(confirmWaiters) - (waits - rest)
      {
        var key :| key in rest;
        confirmWaiters := confirmWaiters - {key};
        rest := rest - {key};
      }
      assert waits - {} == waits;
    }
  }

  lemma WaitersApart(a: map<string, Value>, b: map<string, Value>, c: map<string, Value>, before: set<string>,
                     more: set<string>)
    requires b - before == a - before && c - more == b - more
    ensures c - (before + more) == a - (before + more)
    ensures c.Keys * (before + more) <= b.Keys * before + c.Keys * more
  {
    assert c - (before + more) == (c - more) - before;
    assert b - (before + more) == (b - more) - before;
    assert a - (before + more) == (a - before) - more;
    assert b - (before + more) == (b - before) - more;
    assert forall k :: k in c && k !in more ==> k in c - more;
    assert forall k :: k in b - more ==> k in b;
  }

  lemma ShapeReflexive(a: Devices)
    ensures SameShape(a, a)
  {}

  lemma SameFate(i: Intent, a: Devices, b: Devices, id: string, trust: Option<int>, reachable: set<string>)
    requires SameShape(a, b) && id in b
    ensures id in a && SlotFate(i, a[id], trust, reachable) == SlotFate(i, b[id], trust, reachable)
    ensures TargetKey(i, a[id]) == TargetKey(i, b[id])
  {
    FateIgnoresValues(i, a[id], b[id], trust, reachable);
  }

  lemma NothingReported(i: Intent, devices: Devices, trust: Option<int>, reachable: set<string>)
    ensures SlotReport(i, Lookup(devices, []), trust, reachable) == NO_REPORT
  {}

  lemma AddSends(r: Report, id: string, f: Fate)
    ensures Add(r, id, f).sent == r.sent + (if f.Sent? then [f.message] else [])
  {}

  lemma ReportOneMore(i: Intent, devices: Devices, ids: seq<string>, n: nat, trust: Option<int>, reachable: set<string>)
    requires n < |ids| && WellKeyed(devices) && forall id :: id in ids ==> id in devices
    ensures SlotReport(i, Lookup(devices, ids[..n + 1]), trust, reachable) ==
            Add(SlotReport(i, Lookup(devices, ids[..n]), trust, reachable), ids[n],
                SlotFate(i, devices[ids[n]], trust, reachable))
  {
    hide SlotFate;
    var list := Lookup(devices, ids[..n + 1]);
    assert list[..n] == Lookup(devices, ids[..n]);
    assert list[n].deviceId == ids[n];
  }

  // ----------------------------------------------------------------------
  // Covers: the two ways agree

  /** A v1 cover as it stands in the registry and among the states. */
  predicate Twins(d: TypedDevice, s: StateDevice, required: map<string, int>) {
    && d.deviceClass == Cover && d.origin == V1 && d.deviceId == s.id
    && var slot := SlotOfKind(d.slots, Position);
       && slot.Some? && slot.value.writable && slot.value.kind == Position && slot.value.stateId != ""
       && "level" in s.states && s.states["level"] == slot.value.stateId
       && ("level" in s.stateWritable ==> s.stateWritable["level"])
       && s.inverted == slot.value.inverted
       && slot.value.trust == (if slot.value.stateId in required then Some(required[slot.value.stateId]) else None)
  }

  /** What a cover is sent: the percentage as spoken, mirrored for "open" and "close" when inverted. */
  function CoverPayload(p: Num, openClose: bool, inverted: bool): string {
    JsonDumps(PyNumber(if openClose && inverted then Mirror(p) else p))
  }

  lemma CoverSent(p: Num, openClose: bool, d: TypedDevice, trust: Option<int>, reachable: set<string>)
    requires d.deviceClass == Cover && d.origin == V1
    requires SlotOfKind(d.slots, Position).Some? && SlotOfKind(d.slots, Position).value.writable
    ensures var slot := SlotOfKind(d.slots, Position).value;
      SlotFate(SetLevel(p, openClose), d, trust, reachable) ==
      if !Trusted(trust, slot) then Refused
      else if slot.stateId !in reachable then Dropped
      else Sent(slot.stateId, SetState(slot.stateId, CoverPayload(p, openClose, slot.inverted)))
  {
    hide Mirror, JsonDumps, Trusted;
    SlotOfKindFound(d.slots, Position);
    MirrorTwice(p);
  }

  lemma TwinsAgree(p: Num, openClose: bool, d: TypedDevice, s: StateDevice, required: map<string, int>,
                   trust: Option<int>, reachable: set<string>)
    requires Twins(d, s, required)
    ensures SlotFate(SetLevel(p, openClose), d, trust, reachable) ==
              StateFate(SetLevel(p, openClose), s, required, trust, reachable)
  {
    hide Mirror, JsonDumps;
    CoverSent(p, openClose, d, trust, reachable);
  }

  /** On any list of v1 covers, inverted or not, the loop over the registry sends the same writes with
      the same numbers, refuses and drops the same devices, and returns the same count as the loop over
      the states. */
  lemma {:induction false} LoopsAgree(p: Num, openClose: bool, devices: seq<TypedDevice>, states: seq<StateDevice>,
                                      required: map<string, int>, trust: Option<int>, reachable: set<string>)
    requires |devices| == |states| && forall n :: 0 <= n < |devices| ==> Twins(devices[n], states[n], required)
    ensures SlotReport(SetLevel(p, openClose), devices, trust, reachable)
         == StateReport(SetLevel(p, openClose), states, required, trust, reachable)
  {
    hide SlotFate, StateFate;
    if devices == [] {
    } else {
      var n := |devices| - 1;
      LoopsAgree(p, openClose, devices[..n], states[..n], required, trust, reachable);
      assert Twins(devices[n], states[n], required);
      TwinsAgree(p, openClose, devices[n], states[n], required, trust, reachable);
    }
  }
}

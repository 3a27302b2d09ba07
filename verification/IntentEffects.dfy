/** What an intent sends to a device, over the registry and over the states. */
module IntentEffects {
  import opened Options
  import opened Numerals
  import opened SlotValues
  import opened WireTexts
  import opened TypedDevices
  import opened DeviceControl
  import opened SlotExecution

  // ----------------------------------------------------------------------
  // One write

  /** What a write comes to before anything is sent: an unknown slot is not found, too little trust is
      denied, a read-only slot is not sent to, and a value that does not fit is an error, in this order. */
  lemma RefusalIs(devices: Devices, device: string, slotId: string, v: Value, trust: Option<int>)
    ensures var r := Refusal(devices, device, slotId, v, trust);
      if !HasSlot(devices, device, slotId) then r == Some(Written(false, false, None))
      else
        var slot := SlotOf(devices, device, slotId);
        var tooLittle := trust.Some? && slot.trust.Some? && trust.value < slot.trust.value;
        && (r == Some(Denied) <==> tooLittle)
        && (r == Some(Written(true, false, None)) <==> !tooLittle && !slot.writable)
        && (r == Some(BadValue) <==> !tooLittle && slot.writable && ToSlotValue(slot.kind, v) == None)
        && (r == None <==> !tooLittle && slot.writable && ToSlotValue(slot.kind, v).Some?)
  {}

  /** The message of a write: the slot's state with the text of the value to a v1 adapter, device, slot and
      the value itself to others. */
  lemma MessageIs(d: TypedDevice, slot: Slot, v: SlotValue)
    ensures d.origin == V1 ==>
      MessageOf(d, slot, v) == SetState(slot.stateId, JsonDumps(V1WireValue(slot.kind, slot.inverted, v)))
    ensures d.origin == V2 ==> MessageOf(d, slot, v) == SetSlotV2(d.deviceId, slot.slotId, v)
  {}

  /** The first slot of a kind. */
  ghost predicate IsFirst(slots: seq<Slot>, k: SlotKind, slot: Slot) {
    exists i :: 0 <= i < |slots| && slots[i] == slot && slot.kind == k && forall j :: 0 <= j < i ==> slots[j].kind != k
  }

  lemma {:induction false} SlotOfKindIs(slots: seq<Slot>, k: SlotKind)
    ensures SlotOfKind(slots, k) == None <==> forall s :: s in slots ==> s.kind != k
    ensures SlotOfKind(slots, k).Some? ==> IsFirst(slots, k, SlotOfKind(slots, k).value)
  {
    if slots == [] {
    } else if slots[0].kind == k {
      assert slots[0] in slots && IsFirst(slots, k, slots[0]);
    } else {
      var tail := slots[1..];
      SlotOfKindIs(tail, k);
      assert SlotOfKind(slots, k) == SlotOfKind(tail, k);
      hide SlotOfKind, IsFirst;
      assert slots == [slots[0]] + tail;
      if SlotOfKind(tail, k).Some? {
        FirstOfTail(slots, k, SlotOfKind(tail, k).value);
      }
    }
  }

  lemma FirstOfTail(slots: seq<Slot>, k: SlotKind, slot: Slot)
    requires slots != [] && slots[0].kind != k && IsFirst(slots[1..], k, slot)
    ensures IsFirst(slots, k, slot)
  {
    var tail := slots[1..];
    var i :| 0 <= i < |tail| && tail[i] == slot && slot.kind == k && forall j :: 0 <= j < i ==> tail[j].kind != k;
    forall j | 0 <= j < i + 1
      ensures slots[j].kind != k
    {
      assert j > 0 ==> slots[j] == tail[j - 1];
    }
    assert slots[i + 1] == slot;
  }

  /** The user may write the slot, and its adapter is there. */
  predicate Open(slot: Slot, key: string, trust: Option<int>, reachable: set<string>) {
    && slot.writable && key in reachable
    && (trust == None || slot.trust == None || trust.value >= slot.trust.value)
  }

  /** What becomes of a device for which the intent means the kind k and the value v. */
  lemma FateIs(i: Intent, d: TypedDevice, k: SlotKind, v: Value, trust: Option<int>, reachable: set<string>)
    requires IntentToSlot(i, d.deviceClass) == Some((k, v))
    ensures var found, fate := SlotOfKind(d.slots, k), SlotFate(i, d, trust, reachable);
      if found == None || !found.value.writable then fate == Unsupported
      else
        var slot := found.value;
        var fits := ToSlotValue(slot.kind, Prepared(i, slot, v));
        var key := if d.origin == V1 then slot.stateId else d.deviceId + "#" + slot.slotId;
        var tooLittle := trust.Some? && slot.trust.Some? && trust.value < slot.trust.value;
        && (fate == Refused <==> fits.Some? && tooLittle)
        && (fate == Dropped <==> fits == None || (!tooLittle && key !in reachable))
        && (fate.Sent? <==> fits.Some? && Open(slot, key, trust, reachable))
        && (fate.Sent? ==> fate.key == key && fate.message == MessageOf(d, slot, fits.value))
  {
    hide ToSlotValue, Prepared, MessageOf;
  }

  // ----------------------------------------------------------------------
  // One intent

  /** A v1 device whose first slot of the kind is this one, which the user may write. */
  predicate Takes(d: TypedDevice, k: SlotKind, slot: Slot, trust: Option<int>, reachable: set<string>) {
    && d.origin == V1 && SlotOfKind(d.slots, k) == Some(slot) && slot.kind == k
    && Open(slot, slot.stateId, trust, reachable)
  }

  /** What the device is sent. */
  predicate Sends(i: Intent, d: TypedDevice, slot: Slot, trust: Option<int>, reachable: set<string>, payload: string) {
    SlotFate(i, d, trust, reachable) == Sent(slot.stateId, SetState(slot.stateId, payload))
  }

  /** The value meant is written as the text of the value, an explicit position of an inverted slot aside. */
  lemma SendsText(i: Intent, d: TypedDevice, k: SlotKind, v: Value, slot: Slot, trust: Option<int>,
                  reachable: set<string>)
    requires IntentToSlot(i, d.deviceClass) == Some((k, v)) && Takes(d, k, slot, trust, reachable)
    requires ToSlotValue(k, Prepared(i, slot, v)).Some?
    ensures Sends(i, d, slot, trust, reachable,
                  JsonDumps(V1WireValue(k, slot.inverted, ToSlotValue(k, Prepared(i, slot, v)).value)))
  {
    hide ToSlotValue, Prepared, MessageOf;
    FateIs(i, d, k, v, trust, reachable);
    MessageIs(d, slot, ToSlotValue(k, Prepared(i, slot, v)).value);
  }

  /** On and off. */
  lemma SwitchSends(d: TypedDevice, slot: Slot, trust: Option<int>, reachable: set<string>)
    requires Takes(d, On, slot, trust, reachable)
    ensures Sends(TurnOn, d, slot, trust, reachable, "true") && Sends(TurnOff, d, slot, trust, reachable, "false")
  {
    hide SlotFate, Takes;
    assert slot.kind == On by { TakesKind(d, On, slot, trust, reachable); }
    SendsText(TurnOn, d, On, Bool(true), slot, trust, reachable);
    SendsText(TurnOff, d, On, Bool(false), slot, trust, reachable);
  }

  lemma TakesKind(d: TypedDevice, k: SlotKind, slot: Slot, trust: Option<int>, reachable: set<string>)
    requires Takes(d, k, slot, trust, reachable)
    ensures slot.kind == k
  {}

  /** A percentage for a lamp, as spoken. */
  lemma BrightnessSends(p: int, d: TypedDevice, slot: Slot, trust: Option<int>, reachable: set<string>)
    requires Takes(d, Brightness, slot, trust, reachable) && d.deviceClass != Cover
    ensures Sends(SetLevel(Whole(p), false), d, slot, trust, reachable, IntText(p))
  {
    hide SlotFate, Takes;
    TakesKind(d, Brightness, slot, trust, reachable);
    SendsText(SetLevel(Whole(p), false), d, Brightness, Float(Whole(p)), slot, trust, reachable);
  }

  /** A percentage for a cover, as spoken; for open and close 100 less it when the cover is inverted. */
  lemma CoverSends(p: int, openClose: bool, d: TypedDevice, slot: Slot, trust: Option<int>, reachable: set<string>)
    requires Takes(d, Position, slot, trust, reachable) && (d.deviceClass == Cover || openClose)
    ensures Sends(SetLevel(Whole(p), openClose), d, slot, trust, reachable,
                  IntText(if openClose && slot.inverted then 100 - p else p))
  {
    hide SlotFate, Takes;
    TakesKind(d, Position, slot, trust, reachable);
    HundredMinusIs(Whole(p));
    HundredMinusIs(Whole(100 - p));
    SendsText(SetLevel(Whole(p), openClose), d, Position, Float(Whole(p)), slot, trust, reachable);
  }

  /** Degrees. */
  lemma TemperatureSends(t: int, d: TypedDevice, slot: Slot, trust: Option<int>, reachable: set<string>)
    requires Takes(d, TargetTemperature, slot, trust, reachable)
    ensures Sends(SetTemperature(Whole(t)), d, slot, trust, reachable, IntText(t))
  {
    hide SlotFate, Takes;
    TakesKind(d, TargetTemperature, slot, trust, reachable);
    SendsText(SetTemperature(Whole(t)), d, TargetTemperature, Float(Whole(t)), slot, trust, reachable);
  }

  /** A white by its word, in Kelvin. */
  lemma WhiteSends(d: TypedDevice, slot: Slot, trust: Option<int>, reachable: set<string>)
    requires Takes(d, ColorTemperature, slot, trust, reachable)
    ensures Sends(SetColor("warm"), d, slot, trust, reachable, IntText(2700))
    ensures Sends(SetColor("kalt"), d, slot, trust, reachable, IntText(6500))
  {
    hide SlotFate, Takes;
    TakesKind(d, ColorTemperature, slot, trust, reachable);
    SendsText(SetColor("warm"), d, ColorTemperature, Int(2700), slot, trust, reachable);
    SendsText(SetColor("kalt"), d, ColorTemperature, Int(6500), slot, trust, reachable);
  }

  /** A colour in hex digits. */
  lemma ColorSends(hex: string, d: TypedDevice, slot: Slot, trust: Option<int>, reachable: set<string>)
    requires Takes(d, Color, slot, trust, reachable)
    requires ParseInt(hex, 16).Some? && 0 <= ParseInt(hex, 16).value < 0x1000000
    ensures exists sent: string ::
      && Sends(SetColor("#" + hex), d, slot, trust, reachable, "\"#" + sent + "\"")
      && |sent| == 6 && ParseInt(sent, 16) == ParseInt(hex, 16)
  {
    hide SlotFate, Takes, ParseInt, JsonDumps, V1WireValue;
    TakesKind(d, Color, slot, trust, reachable);
    TakesNumbersAndColors(Color, 0, hex);
    SendsText(SetColor("#" + hex), d, Color, Str("#" + hex), slot, trust, reachable);
    ColorSent(Color, slot.inverted, ParseInt(hex, 16).value);
  }

  /** Modes and fan speeds. */
  lemma WordsSend(s: string, d: TypedDevice, slot: Slot, trust: Option<int>, reachable: set<string>)
    requires forall c :: c in s ==> ' ' <= c <= '~' && c != '"' && c != '\\'
    ensures Takes(d, Mode, slot, trust, reachable) ==> Sends(SetMode(s), d, slot, trust, reachable, "\"" + s + "\"")
    ensures Takes(d, FanSpeed, slot, trust, reachable) ==>
      Sends(SetFanSpeed(s), d, slot, trust, reachable, "\"" + s + "\"")
  {
    hide SlotFate, Takes;
    if Takes(d, Mode, slot, trust, reachable) {
      TakesKind(d, Mode, slot, trust, reachable);
      WordsSent(Mode, slot.inverted, s);
      SendsText(SetMode(s), d, Mode, Str(s), slot, trust, reachable);
    }
    if Takes(d, FanSpeed, slot, trust, reachable) {
      TakesKind(d, FanSpeed, slot, trust, reachable);
      WordsSent(FanSpeed, slot.inverted, s);
      SendsText(SetFanSpeed(s), d, FanSpeed, Str(s), slot, trust, reachable);
    }
  }

  /** What means no slot is sent nowhere. */
  lemma OthersSendNothing(s: string, d: TypedDevice, trust: Option<int>, reachable: set<string>)
    requires s == "" || s[0] != '#'
    ensures SlotFate(OtherIntent, d, trust, reachable) == Dropped
    ensures s != "warm" && s != "kalt" ==> SlotFate(SetColor(s), d, trust, reachable) == Dropped
  {}

  // ----------------------------------------------------------------------
  // Over the states

  /** The state an intent is about, by its canonical key. */
  predicate KeyFor(i: Intent, key: string) {
    match i
    case TurnOn => key == "on"
    case TurnOff => key == "on"
    case SetLevel(_, _) => key == "level"
    case SetColor(_) => key == "color"
    case SetTemperature(_) => key == "expected"
    case SetMode(_) => key == "mode"
    case SetFanSpeed(_) => key == "fanSpeed"
    case OtherIntent => false
  }

  /** What a device is sent: unsupported without the state or when it is read-only, refused with too little
      trust, dropped when the adapter is gone. */
  lemma StateFateIs(i: Intent, d: StateDevice, key: string, required: map<string, int>, trust: Option<int>,
                    reachable: set<string>)
    requires KeyFor(i, key)
    ensures var fate := StateFate(i, d, required, trust, reachable);
      if key !in d.states || d.states[key] == "" || (key in d.stateWritable && !d.stateWritable[key])
      then fate == Unsupported
      else
        var id := d.states[key];
        var tooLittle := trust.Some? && id in required && trust.value < required[id];
        && (fate == Refused <==> tooLittle) && (fate == Dropped <==> !tooLittle && id !in reachable)
        && (fate.Sent? <==> !tooLittle && id in reachable)
        && (fate.Sent? ==> fate.key == id && fate.message.SetState? && fate.message.stateId == id)
  {
    hide JsonDumps, DeviceValue;
  }

  /** If the device is sent anything it is this. */
  predicate SendsState(i: Intent, d: StateDevice, required: map<string, int>, trust: Option<int>,
                       reachable: set<string>, payload: string)
  {
    var fate := StateFate(i, d, required, trust, reachable);
    fate.Sent? ==> fate.message == SetState(fate.key, payload)
  }

  /** On, off and numbers over the states. */
  lemma StateSends(p: int, d: StateDevice, required: map<string, int>, trust: Option<int>, reachable: set<string>)
    ensures SendsState(TurnOn, d, required, trust, reachable, "true")
    ensures SendsState(TurnOff, d, required, trust, reachable, "false")
    ensures SendsState(SetLevel(Whole(p), false), d, required, trust, reachable, IntText(p))
    ensures SendsState(SetLevel(Whole(p), true), d, required, trust, reachable,
                       IntText(if d.inverted then 100 - p else p))
    ensures SendsState(SetTemperature(Whole(p)), d, required, trust, reachable, IntText(p))
  {
    hide IntText, MaySet;
    HundredMinusIs(Whole(p));
  }

  /** Words over the states. */
  lemma StateSendsWords(s: string, d: StateDevice, required: map<string, int>, trust: Option<int>,
                        reachable: set<string>)
    requires forall c :: c in s ==> ' ' <= c <= '~' && c != '"' && c != '\\'
    ensures SendsState(SetColor(s), d, required, trust, reachable, "\"" + s + "\"")
    ensures SendsState(SetMode(s), d, required, trust, reachable, "\"" + s + "\"")
    ensures SendsState(SetFanSpeed(s), d, required, trust, reachable, "\"" + s + "\"")
  {
    EscapeGrows(s);
    hide MaySet, Escape;
  }

  // ----------------------------------------------------------------------
  // The report

  lemma AddTells(r: Report, d: string, f: Fate)
    ensures var q := Add(r, d, f);
      && q.count == r.count + (if f.Sent? then 1 else 0)
      && q.sent == r.sent + (if f.Sent? then [f.message] else [])
      && q.denied == r.denied + (if f.Refused? then [d] else [])
      && q.unsupported == r.unsupported + (if f.Unsupported? then [d] else [])
      && q.dropped == r.dropped + (if f.Dropped? then [d] else [])
  {}

  /** How often a device with this id meets a fate like this one. */
  function Times(i: Intent, devices: seq<TypedDevice>, trust: Option<int>, reachable: set<string>, id: string,
                 f: Fate)
    : nat
  {
    if devices == [] then 0
    else
      Times(i, devices[..|devices| - 1], trust, reachable, id, f) +
      (if Meets(i, devices[|devices| - 1], trust, reachable, id, f) then 1 else 0)
  }

  predicate Meets(i: Intent, d: TypedDevice, trust: Option<int>, reachable: set<string>, id: string, f: Fate) {
    d.deviceId == id && SameKind(SlotFate(i, d, trust, reachable), f)
  }

  predicate SameKind(f: Fate, g: Fate) {
    f.Sent? == g.Sent? && f.Refused? == g.Refused? && f.Unsupported? == g.Unsupported? && f.Dropped? == g.Dropped?
  }

  lemma TimesOneMore(i: Intent, devices: seq<TypedDevice>, trust: Option<int>, reachable: set<string>, id: string,
                     f: Fate, before: seq<string>, after: seq<string>)
    requires devices != []
    requires multiset(before)[id] == Times(i, devices[..|devices| - 1], trust, reachable, id, f)
    requires var d := devices[|devices| - 1];
      after == before + (if SameKind(SlotFate(i, d, trust, reachable), f) then [d.deviceId] else [])
    ensures multiset(after)[id] == Times(i, devices, trust, reachable, id, f)
  {
    hide SlotFate, SameKind;
  }

  /** The lists of the report hold each device as often as it met their fate. */
  lemma {:induction false} ReportIs(i: Intent, devices: seq<TypedDevice>, trust: Option<int>, reachable: set<string>,
                                    id: string)
    ensures var r := SlotReport(i, devices, trust, reachable);
      && multiset(r.denied)[id] == Times(i, devices, trust, reachable, id, Refused)
      && multiset(r.unsupported)[id] == Times(i, devices, trust, reachable, id, Unsupported)
      && multiset(r.dropped)[id] == Times(i, devices, trust, reachable, id, Dropped)
  {
    if devices == [] {
    } else {
      var k := |devices| - 1;
      var r, q := SlotReport(i, devices[..k], trust, reachable), SlotReport(i, devices, trust, reachable);
      ReportIs(i, devices[..k], trust, reachable, id);
      AddTells(r, devices[k].deviceId, SlotFate(i, devices[k], trust, reachable));
      hide SlotFate, Add, SlotReport, Times, Meets;
      TimesOneMore(i, devices, trust, reachable, id, Refused, r.denied, q.denied);
      TimesOneMore(i, devices, trust, reachable, id, Unsupported, r.unsupported, q.unsupported);
      TimesOneMore(i, devices, trust, reachable, id, Dropped, r.dropped, q.dropped);
    }
  }

  /** What was sent, in order and as often, is what the devices were sent whose writes went out. */
  lemma {:induction false} SentIs(i: Intent, devices: seq<TypedDevice>, trust: Option<int>, reachable: set<string>)
    ensures SlotReport(i, devices, trust, reachable).sent == MessagesOf(i, devices, trust, reachable)
  {
    hide SlotFate, Add;
    if devices == [] {
    } else {
      var k := |devices| - 1;
      SentIs(i, devices[..k], trust, reachable);
      AddTells(SlotReport(i, devices[..k], trust, reachable), devices[k].deviceId,
               SlotFate(i, devices[k], trust, reachable));
    }
  }

  function MessagesOf(i: Intent, devices: seq<TypedDevice>, trust: Option<int>, reachable: set<string>): seq<Message> {
    if devices == [] then []
    else
      var f := SlotFate(i, devices[|devices| - 1], trust, reachable);
      MessagesOf(i, devices[..|devices| - 1], trust, reachable) + (if f.Sent? then [f.message] else [])
  }
}

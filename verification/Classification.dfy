/** Classifying the states of a v1 device: which state carries which standard
    slot, the names of all others, and the class of the device. */
module Classification {
  import opened Options
  import opened Text
  import opened Numerals
  import opened SlotValues
  import opened TypedDevices

  datatype StateType = BooleanState | NumericState | EnumState | ColorState | TextState

  datatype State = State(
    key: string,
    suffix: string,
    stateId: string,
    raw: string,
    stateType: StateType,
    writable: bool,
    dtype: string,
    inverted: bool,
    trust: Option<int>,
    options: seq<string>)

  const ENUM_KINDS := {Mode, FanSpeed}
  const GENERIC_KINDS := {GenericNumber, GenericBool, GenericText}
  const MEASUREMENT_KINDS := {Temperature, Humidity, Illuminance, Pressure, Co2, Iaq, Voc, SlotKind.Power, Energy,
    Motion}

  /** Words that mark a setpoint as one among several. */
  const SETPOINT_EXCLUDE := {
    "comfort", "komfort", "eco", "offset", "startup", "night", "nacht", "frost", "boost",
    "vacation", "urlaub", "absenk", "absenkung", "min", "max", "default", "away"
  }

  // ----------------------------------------------------------------------
  // Words in a suffix

  predicate IsUpper(c: char) { 'A' <= c <= 'Z' }

  predicate IsLower(c: char) { 'a' <= c <= 'z' }

  predicate IsDigit(c: char) { '0' <= c <= '9' }

  function Span(s: string, p: char -> bool): (n: nat)
    ensures n <= |s|
  {
    if s != "" && p(s[0]) then 1 + Span(s[1..], p) else 0
  }

  /** The length of the word at the beginning: capitals not running into a small letter, a word of small
      letters with or without a capital, or digits; 0 if none begins there. */
  function WordLength(s: string): (n: nat)
    ensures n <= |s|
  {
    var caps := Span(s, IsUpper);
    var joins := caps < |s| && IsLower(s[caps]);
    if caps > 0 && !joins then caps
    else if caps > 1 then caps - 1
    else if caps == 1 then 1 + Span(s[1..], IsLower)
    else if s != "" && IsLower(s[0]) then Span(s, IsLower)
    else Span(s, IsDigit)
  }

  function Tokens(s: string): set<string>
    decreases |s|
  {
    if s == "" then {}
    else
      var n := WordLength(s);
      if n == 0 then Tokens(s[1..]) else {Lower(s[..n])} + Tokens(s[n..])
  }

  predicate Excluded(suffix: string) {
    Tokens(suffix) * SETPOINT_EXCLUDE != {}
  }

  // ----------------------------------------------------------------------
  // Kinds

  function PreliminaryKind(s: State, blind: bool, climate: bool): Option<SlotKind> {
    if climate && s.key == "mode" then Some(Mode)
    else if climate && s.key == "fanSpeed" then Some(FanSpeed)
    else if s.key == "level" then Some(if blind then Position else Brightness)
    else if s.key == "current" then
      Some(if s.dtype == "humidity_sensor" then Humidity
           else if s.dtype == "illuminance_sensor" then Illuminance
           else Temperature)
    else if s.key == "on" then Some(On)
    else if s.key == "color" then Some(Color)
    else if s.key == "colorTemp" then Some(ColorTemperature)
    else if s.key == "expected" then Some(TargetTemperature)
    else if s.key == "illuminance" then Some(Illuminance)
    else if s.key == "open" then Some(Open)
    else if s.key == "iaq" then Some(Iaq)
    else if s.key == "co2_equiv" then Some(Co2)
    else if s.key == "voc_equiv" then Some(Voc)
    else if s.key == "power" then Some(SlotKind.Power)
    else None
  }

  function GenericKind(s: State): SlotKind {
    if s.stateType == BooleanState then GenericBool
    else if s.stateType == NumericState then GenericNumber
    else GenericText
  }

  /** The only state of its kind, or, among setpoints, the only one not marked as one of several. */
  ghost predicate IsChosen(states: seq<State>, blind: bool, climate: bool, s: State, k: SlotKind) {
    && s in states && PreliminaryKind(s, blind, climate) == Some(k)
    && (|| (forall o :: o in states && o != s ==> PreliminaryKind(o, blind, climate) != Some(k))
        || (k == TargetTemperature && !Excluded(s.suffix) &&
            forall o :: o in states && o != s && PreliminaryKind(o, blind, climate) == Some(k) ==> Excluded(o.suffix)))
  }

  ghost predicate DistinctIds(states: seq<State>) {
    forall i, j :: 0 <= i < j < |states| ==> states[i].stateId != states[j].stateId
  }

  lemma OneChosenPerKind(states: seq<State>, blind: bool, climate: bool, s: State, t: State, k: SlotKind)
    requires IsChosen(states, blind, climate, s, k) && IsChosen(states, blind, climate, t, k)
    ensures s == t
  {}

  /** The members of a kind in a list of states. */
  function Group(states: seq<State>, blind: bool, climate: bool, k: SlotKind): seq<State> {
    if states == [] then []
    else
      var s := states[|states| - 1];
      Group(states[..|states| - 1], blind, climate, k) +
      (if PreliminaryKind(s, blind, climate) == Some(k) then [s] else [])
  }

  function NotExcluded(states: seq<State>): seq<State> {
    if states == [] then []
    else
      var s := states[|states| - 1];
      NotExcluded(states[..|states| - 1]) + (if Excluded(s.suffix) then [] else [s])
  }

  /** Which of the members of a kind carries it. */
  function Pick(members: seq<State>, k: SlotKind): Option<State> {
    if |members| == 1 then Some(members[0])
    else if k == TargetTemperature && |NotExcluded(members)| == 1 then Some(NotExcluded(members)[0])
    else None
  }

  lemma {:induction false} GroupMembers(states: seq<State>, blind: bool, climate: bool, k: SlotKind)
    requires DistinctIds(states)
    ensures DistinctIds(Group(states, blind, climate, k))
    ensures forall s :: s in Group(states, blind, climate, k) <==>
              s in states && PreliminaryKind(s, blind, climate) == Some(k)
  {
    if states == [] {
    } else {
      var init := states[..|states| - 1];
      var last := states[|states| - 1];
      assert states == init + [last];
      GroupMembers(init, blind, climate, k);
      hide PreliminaryKind;
      forall o | o in Group(init, blind, climate, k)
        ensures o.stateId != last.stateId
      {
        var j :| 0 <= j < |init| && init[j] == o;
      }
    }
  }

  lemma {:induction false} NotExcludedMembers(members: seq<State>)
    requires DistinctIds(members)
    ensures DistinctIds(NotExcluded(members))
    ensures forall s :: s in NotExcluded(members) <==> s in members && !Excluded(s.suffix)
  {
    hide Excluded;
    if members == [] {
    } else {
      var init := members[..|members| - 1];
      NotExcludedMembers(init);
      assert members == init + [members[|members| - 1]];
    }
  }

  lemma OnlyMember(members: seq<State>, s: State)
    requires DistinctIds(members) && s in members
    ensures |members| == 1 <==> forall o :: o in members ==> o == s
    ensures |members| == 1 ==> members[0] == s
  {
    if |members| != 1 {
      assert members[0] in members && members[1] in members;
    }
  }

  /** The choice in terms of the members of the kind. */
  lemma ChosenAmongMembers(states: seq<State>, blind: bool, climate: bool, s: State, k: SlotKind, members: seq<State>,
                           rest: seq<State>)
    requires forall o :: o in members <==> o in states && PreliminaryKind(o, blind, climate) == Some(k)
    requires forall o :: o in rest <==> o in members && !Excluded(o.suffix)
    ensures IsChosen(states, blind, climate, s, k) <==>
      s in members && ((forall o :: o in members ==> o == s) ||
                       (k == TargetTemperature && s in rest && forall o :: o in rest ==> o == s))
  {
    hide PreliminaryKind, Excluded;
  }

  /** Picking from the group is the same as being the one chosen among all states. */
  lemma PickIsChosen(states: seq<State>, blind: bool, climate: bool, s: State, k: SlotKind)
    requires DistinctIds(states)
    ensures Pick(Group(states, blind, climate, k), k) == Some(s) <==> IsChosen(states, blind, climate, s, k)
  {
    hide PreliminaryKind, Excluded, Group, NotExcluded, IsChosen, DistinctIds;
    var members := Group(states, blind, climate, k);
    GroupMembers(states, blind, climate, k);
    NotExcludedMembers(members);
    var rest := NotExcluded(members);
    ChosenAmongMembers(states, blind, climate, s, k, members, rest);
    if s in members {
      OnlyMember(members, s);
      if s in rest {
        OnlyMember(rest, s);
      }
    }
  }

  /** The kinds by state id are exactly those chosen. */
  ghost predicate Resolves(states: seq<State>, blind: bool, climate: bool, chosen: map<string, SlotKind>) {
    forall s, k :: s in states ==>
      (s.stateId in chosen && chosen[s.stateId] == k <==> IsChosen(states, blind, climate, s, k))
  }

  method ResolveKinds(states: seq<State>, blind: bool, climate: bool) returns (chosen: map<string, SlotKind>)
    requires DistinctIds(states)
    ensures Resolves(states, blind, climate, chosen)
    ensures forall id :: id in chosen ==> exists s :: IsChosen(states, blind, climate, s, chosen[id]) && s.stateId == id
  {
    var groups := GroupByKind(states, blind, climate);
    chosen := map[];
    var rest := groups.Keys;
    while rest != {}
      invariant rest <= groups.Keys
      invariant forall id :: id in chosen ==>
        chosen[id] !in rest && exists s :: IsChosen(states, blind, climate, s, chosen[id]) && s.stateId == id
      invariant forall s, k :: k in groups && k !in rest && IsChosen(states, blind, climate, s, k) ==>
        s.stateId in chosen && chosen[s.stateId] == k
    {
      hide IsChosen, PreliminaryKind, Group, Excluded;
      var k :| k in rest;
      rest := rest - {k};
      assert groups[k] == MembersOf(groups, k);
      var picked := PickMember(groups[k], k);
      forall s
        ensures picked == Some(s) <==> IsChosen(states, blind, climate, s, k)
      {
        PickIsChosen(states, blind, climate, s, k);
      }
      if picked.Some? {
        ChosenIdsApart(states, blind, climate, picked.value, k);
        chosen := chosen[picked.value.stateId := k];
      }
    }
    forall s, k | s in states
      ensures s.stateId in chosen && chosen[s.stateId] == k <==> IsChosen(states, blind, climate, s, k)
    {
      PickIsChosen(states, blind, climate, s, k);
      assert MembersOf(groups, k) == Group(states, blind, climate, k);
      if s.stateId in chosen && chosen[s.stateId] == k {
        var t :| IsChosen(states, blind, climate, t, k) && t.stateId == s.stateId;
        SameId(states, s, t);
      }
    }
  }

  lemma SameId(states: seq<State>, s: State, t: State)
    requires DistinctIds(states) && s in states && t in states && s.stateId == t.stateId
    ensures s == t
  {
    var i :| 0 <= i < |states| && states[i] == s;
    var j :| 0 <= j < |states| && states[j] == t;
    assert i == j;
  }

  /** A state is chosen for one kind only. */
  lemma ChosenIdsApart(states: seq<State>, blind: bool, climate: bool, s: State, k: SlotKind)
    requires DistinctIds(states) && IsChosen(states, blind, climate, s, k)
    ensures forall t, l :: IsChosen(states, blind, climate, t, l) && t.stateId == s.stateId ==> l == k
  {
    forall t, l | IsChosen(states, blind, climate, t, l) && t.stateId == s.stateId
      ensures l == k
    {
      SameId(states, s, t);
    }
  }

  function MembersOf(groups: map<SlotKind, seq<State>>, k: SlotKind): seq<State> {
    if k in groups then groups[k] else []
  }

  method GroupByKind(states: seq<State>, blind: bool, climate: bool) returns (groups: map<SlotKind, seq<State>>)
    ensures forall k :: MembersOf(groups, k) == Group(states, blind, climate, k)
  {
    groups := map[];
    for i := 0 to |states|
      invariant forall k :: MembersOf(groups, k) == Group(states[..i], blind, climate, k)
    {
      hide PreliminaryKind;
      assert states[..i + 1][..i] == states[..i];
      var kind := PreliminaryKind(states[i], blind, climate);
      if kind.Some? {
        groups := groups[kind.value := MembersOf(groups, kind.value) + [states[i]]];
      }
    }
    assert states[..|states|] == states;
  }

  method PickMember(members: seq<State>, k: SlotKind) returns (picked: Option<State>)
    ensures picked == Pick(members, k)
  {
    if |members| == 1 {
      return Some(members[0]);
    }
    if k != TargetTemperature {
      return None;
    }
    var candidates: seq<State> := [];
    for i := 0 to |members|
      invariant candidates == NotExcluded(members[..i])
    {
      assert members[..i + 1][..i] == members[..i];
      if !Excluded(members[i].suffix) {
        candidates := candidates + [members[i]];
      }
    }
    assert members[..|members|] == members;
    picked := if |candidates| == 1 then Some(candidates[0]) else None;
  }

  // ----------------------------------------------------------------------
  // Slot ids

  function SlotIdForKind(k: SlotKind): string {
    match k
    case On => "on"
    case Brightness => "brightness"
    case Color => "color"
    case ColorTemperature => "color_temperature"
    case Position => "position"
    case Stop => "stop"
    case Temperature => "temperature"
    case TargetTemperature => "target_temperature"
    case Humidity => "humidity"
    case Illuminance => "illuminance"
    case Pressure => "pressure"
    case Co2 => "co2"
    case Iaq => "iaq"
    case Voc => "voc"
    case Power => "power"
    case Energy => "energy"
    case Motion => "motion"
    case Open => "open"
    case Mode => "mode"
    case FanSpeed => "fan_speed"
    case GenericNumber => "generic_number"
    case GenericBool => "generic_bool"
    case GenericText => "generic_text"
  }

  lemma SlotIdsDiffer(k: SlotKind, l: SlotKind)
    requires SlotIdForKind(k) == SlotIdForKind(l)
    ensures k == l
  {
    var s := SlotIdForKind(k);
    assert s[0] == SlotIdForKind(l)[0] && s[|s| - 2] == SlotIdForKind(l)[|s| - 2];
  }

  function Numbered(suffix: string, n: nat): string {
    suffix + "_" + NatText(n, 10)
  }

  lemma NumberedInjective(suffix: string, m: nat, n: nat)
    requires Numbered(suffix, m) == Numbered(suffix, n)
    ensures m == n
  {
    assert Numbered(suffix, m)[|suffix| + 1..] == NatText(m, 10);
    assert Numbered(suffix, n)[|suffix| + 1..] == NatText(n, 10);
    NatTextInjective(m, n, 10);
  }

  lemma NumberedLonger(suffix: string, n: nat)
    ensures Numbered(suffix, n) != suffix
  {
    assert |Numbered(suffix, n)| > |suffix|;
  }

  lemma NotAllTried(tried: set<string>, taken: set<string>, id: string)
    requires tried <= taken && id in taken && id !in tried
    ensures |tried| < |taken|
  {
    assert tried <= taken - {id};
    var rest := taken - {id} - tried;
    assert taken == tried + rest + {id};
  }

  /** The suffix, or the suffix with the least number from 2 on that is not taken. */
  ghost predicate FirstFree(suffix: string, taken: set<string>, id: string) {
    && id !in taken
    && (id == suffix ||
        (suffix in taken && exists n: nat :: IsFirstNumber(suffix, taken, id, n)))
  }

  ghost predicate IsFirstNumber(suffix: string, taken: set<string>, id: string, n: nat) {
    2 <= n && id == Numbered(suffix, n) && forall m: nat :: 2 <= m < n ==> Numbered(suffix, m) in taken
  }

  method FreeId(suffix: string, taken: set<string>) returns (id: string)
    ensures FirstFree(suffix, taken, id)
  {
    var n: nat := 2;
    id := suffix;
    ghost var tried: set<string> := {};
    while id in taken
      invariant n >= 2 && tried <= taken && |tried| == n - 2 && id !in tried
      invariant if n == 2 then id == suffix else suffix in taken && id == Numbered(suffix, n - 1)
      invariant forall m: nat :: 2 <= m < n - 1 ==> Numbered(suffix, m) in taken
      invariant forall t :: t in tried ==> t == suffix || exists m: nat :: 2 <= m < n && t == Numbered(suffix, m)
      decreases |taken| - |tried|
    {
      NotAllTried(tried, taken, id);
      tried := tried + {id};
      NumberedLonger(suffix, n);
      forall m: nat | Numbered(suffix, m) == Numbered(suffix, n)
        ensures m == n
      {
        NumberedInjective(suffix, m, n);
      }
      id, n := Numbered(suffix, n), n + 1;
    }
    if n > 2 {
      assert IsFirstNumber(suffix, taken, id, n - 1);
    }
  }

  // ----------------------------------------------------------------------
  // Devices

  function MakeSlot(s: State, kind: SlotKind, slotId: string, slotLabel: string): Slot {
    Slot(slotId, kind, Normalize(kind, s.raw, s.inverted), s.writable, slotLabel, s.trust, s.stateId,
         s.inverted && kind == Position, if kind in ENUM_KINDS then s.options else [])
  }

  /** The standard slots by kind; the last one counts, should there be several. */
  function ByKind(slots: seq<Slot>): map<SlotKind, Slot> {
    if slots == [] then map[]
    else
      var s := slots[|slots| - 1];
      var before := ByKind(slots[..|slots| - 1]);
      if s.kind in GENERIC_KINDS then before else before[s.kind := s]
  }

  predicate Writable(byKind: map<SlotKind, Slot>, k: SlotKind) {
    k in byKind && byKind[k].writable
  }

  function DecideClass(byKind: map<SlotKind, Slot>, dtypes: set<string>): DeviceClass {
    if Writable(byKind, On) && ("climate" in dtypes || byKind.Keys * ENUM_KINDS != {}) then Climate
    else if TargetTemperature in byKind then Thermostat
    else if Writable(byKind, Position) then Cover
    else if Writable(byKind, On) then
      if
        || "light" in dtypes
        || Writable(byKind, Brightness) || Writable(byKind, Color) || Writable(byKind, ColorTemperature)
      then Light
      else if "socket" in dtypes || SlotKind.Power in byKind then Socket
      else BinarySwitch
    else if Open in byKind && !Writable(byKind, Open) then Contact
    else if byKind.Keys * MEASUREMENT_KINDS != {} && forall k :: k in byKind ==> !byKind[k].writable then Sensor
    else Generic
  }

  function DTypes(states: seq<State>): set<string> {
    set i | 0 <= i < |states| && states[i].dtype != "" :: states[i].dtype
  }

  predicate IsBlind(states: seq<State>) {
    exists s :: s in states && s.dtype == "blind"
  }

  predicate IsClimate(states: seq<State>) {
    exists s :: s in states && s.dtype == "climate"
  }

  /** The slot a state becomes: the standard one when the state was chosen, else a generic one. */
  ghost predicate SlotFor(states: seq<State>, s: State, slot: Slot) {
    var blind, climate := IsBlind(states), IsClimate(states);
    if exists k :: IsChosen(states, blind, climate, s, k)
    then
      var kind := PreliminaryKind(s, blind, climate).value;
      slot == MakeSlot(s, kind, SlotIdForKind(kind), "")
    else slot == MakeSlot(s, GenericKind(s), slot.slotId, s.key)
  }

  /** Nothing is lost: state by state one slot, each with its own id. */
  ghost predicate Slotted(states: seq<State>, slots: seq<Slot>) {
    && |slots| == |states|
    && (forall i :: 0 <= i < |states| ==> SlotFor(states, states[i], slots[i]))
    && DistinctSlotIds(slots)
  }

  function SlotIds(slots: seq<Slot>): set<string> {
    set i | 0 <= i < |slots| :: slots[i].slotId
  }

  /** The ids that belong to standard slots. */
  function StandardIds(slots: seq<Slot>): set<string> {
    set i | 0 <= i < |slots| && slots[i].kind !in GENERIC_KINDS :: slots[i].slotId
  }

  /** A generic slot has its state's suffix for an id, or the first numbered one that is free. */
  ghost predicate NamedApart(states: seq<State>, slots: seq<Slot>, standard: set<string>, i: nat)
    requires i < |slots| == |states|
  {
    slots[i].kind in GENERIC_KINDS ==> FirstFree(states[i].suffix, SlotIds(slots[..i]) + standard, slots[i].slotId)
  }

  lemma ChosenKind(states: seq<State>, blind: bool, climate: bool, s: State, k: SlotKind)
    requires IsChosen(states, blind, climate, s, k)
    ensures PreliminaryKind(s, blind, climate) == Some(k) && k !in GENERIC_KINDS
  {}

  lemma StandardSlot(states: seq<State>, kinds: map<string, SlotKind>, s: State)
    requires Resolves(states, IsBlind(states), IsClimate(states), kinds) && s in states && s.stateId in kinds
    ensures SlotFor(states, s, MakeSlot(s, kinds[s.stateId], SlotIdForKind(kinds[s.stateId]), ""))
    ensures IsChosen(states, IsBlind(states), IsClimate(states), s, kinds[s.stateId])
    ensures kinds[s.stateId] !in GENERIC_KINDS
  {
    hide PreliminaryKind;
    assert IsChosen(states, IsBlind(states), IsClimate(states), s, kinds[s.stateId]);
    ChosenKind(states, IsBlind(states), IsClimate(states), s, kinds[s.stateId]);
  }

  lemma GenericSlot(states: seq<State>, kinds: map<string, SlotKind>, s: State, id: string)
    requires Resolves(states, IsBlind(states), IsClimate(states), kinds) && s in states && s.stateId !in kinds
    ensures SlotFor(states, s, MakeSlot(s, GenericKind(s), id, s.key))
  {}

  method ClassifyDevice(deviceId: string, name: string, room: string, states: seq<State>) returns (d: TypedDevice)
    requires DistinctIds(states)
    ensures Slotted(states, d.slots)
    ensures forall i :: 0 <= i < |states| ==> NamedApart(states, d.slots, StandardIds(d.slots), i)
    ensures d == TypedDevice(deviceId, name, room, DecideClass(ByKind(d.slots), DTypes(states)), d.slots, V1)
  {
    var kinds := ResolveKinds(states, IsBlind(states), IsClimate(states));
    var slots := MakeSlots(states, kinds);
    d := TypedDevice(deviceId, name, room, DecideClass(ByKind(slots), DTypes(states)), slots, V1);
  }

  /** How the slot of a state came to its kind and id, given the slots before it. */
  ghost predicate SlotOfState(kinds: map<string, SlotKind>, standard: set<string>, s: State, before: seq<Slot>,
                              slot: Slot) {
    if s.stateId in kinds
    then slot.kind == kinds[s.stateId] && slot.kind !in GENERIC_KINDS && slot.slotId == SlotIdForKind(slot.kind)
    else slot.kind in GENERIC_KINDS && FirstFree(s.suffix, SlotIds(before) + standard, slot.slotId)
  }

  function IdsForKinds(kinds: map<string, SlotKind>): set<string> {
    set id | id in kinds :: SlotIdForKind(kinds[id])
  }

  /** The id of a standard slot is not taken yet. */
  lemma StandardIdIsFree(states: seq<State>, kinds: map<string, SlotKind>, slots: seq<Slot>, i: nat)
    requires DistinctIds(states) && Resolves(states, IsBlind(states), IsClimate(states), kinds)
    requires |slots| == i < |states| && states[i].stateId in kinds
    requires forall j :: 0 <= j < i ==> SlotOfState(kinds, IdsForKinds(kinds), states[j], slots[..j], slots[j])
    ensures forall j :: 0 <= j < i ==> slots[j].slotId != SlotIdForKind(kinds[states[i].stateId])
  {
    hide IsBlind, IsClimate, IsChosen, SlotIdForKind;
    var k := kinds[states[i].stateId];
    assert SlotIdForKind(k) in IdsForKinds(kinds);
    forall j | 0 <= j < i
      ensures slots[j].slotId != SlotIdForKind(k)
    {
      assert SlotOfState(kinds, IdsForKinds(kinds), states[j], slots[..j], slots[j]);
      if states[j].stateId in kinds && slots[j].slotId == SlotIdForKind(k) {
        SlotIdsDiffer(slots[j].kind, k);
        OneChosenPerKind(states, IsBlind(states), IsClimate(states), states[i], states[j], k);
      }
    }
  }

  /** The ids that standard slots would have are those they do have. */
  lemma StandardIdsUsed(states: seq<State>, kinds: map<string, SlotKind>, slots: seq<Slot>)
    requires |slots| == |states|
    requires forall id :: id in kinds ==> exists s :: s in states && s.stateId == id
    requires forall j :: 0 <= j < |slots| ==> SlotOfState(kinds, IdsForKinds(kinds), states[j], slots[..j], slots[j])
    ensures IdsForKinds(kinds) == StandardIds(slots)
  {
    hide SlotIdForKind, FirstFree;
    forall x | x in IdsForKinds(kinds)
      ensures x in StandardIds(slots)
    {
      var id :| id in kinds && x == SlotIdForKind(kinds[id]);
      var s :| s in states && s.stateId == id;
      var j :| 0 <= j < |states| && states[j] == s;
      assert SlotOfState(kinds, IdsForKinds(kinds), states[j], slots[..j], slots[j]);
      assert slots[j].slotId == x;
    }
    forall x | x in StandardIds(slots)
      ensures x in IdsForKinds(kinds)
    {
      var j :| 0 <= j < |slots| && slots[j].kind !in GENERIC_KINDS && slots[j].slotId == x;
      assert SlotOfState(kinds, IdsForKinds(kinds), states[j], slots[..j], slots[j]);
    }
  }

  lemma GenericKindIsGeneric(s: State)
    ensures GenericKind(s) in GENERIC_KINDS
  {}

  method MakeSlots(states: seq<State>, kinds: map<string, SlotKind>) returns (slots: seq<Slot>)
    requires DistinctIds(states) && Resolves(states, IsBlind(states), IsClimate(states), kinds)
    requires forall id :: id in kinds ==> exists s :: s in states && s.stateId == id
    ensures Slotted(states, slots)
    ensures forall i :: 0 <= i < |states| ==> NamedApart(states, slots, StandardIds(slots), i)
  {
    hide Resolves, SlotFor, GenericKind, SlotIdForKind, FirstFree, IsBlind, IsClimate, DistinctIds, Normalize;
    var standard := IdsForKinds(kinds);
    slots := [];
    for i := 0 to |states|
      invariant |slots| == i && DistinctSlotIds(slots)
      invariant forall j :: 0 <= j < i ==> SlotFor(states, states[j], slots[j])
      invariant forall j :: 0 <= j < i ==> SlotOfState(kinds, standard, states[j], slots[..j], slots[j])
    {
      var s := states[i];
      var slot: Slot;
      if s.stateId in kinds {
        StandardSlot(states, kinds, s);
        StandardIdIsFree(states, kinds, slots, i);
        slot := MakeSlot(s, kinds[s.stateId], SlotIdForKind(kinds[s.stateId]), "");
      } else {
        var id := FreeId(s.suffix, SlotIds(slots) + standard);
        FirstFreeIsFree(s.suffix, SlotIds(slots) + standard, id);
        GenericSlot(states, kinds, s, id);
        GenericKindIsGeneric(s);
        slot := MakeSlot(s, GenericKind(s), id, s.key);
      }
      assert SlotOfState(kinds, standard, s, slots, slot);
      ghost var before := slots;
      slots := slots + [slot];
      assert slots[..i] == before;
      assert forall j :: 0 <= j < i ==> slots[..j] == before[..j];
    }
    StandardIdsUsed(states, kinds, slots);
    forall i | 0 <= i < |states|
      ensures NamedApart(states, slots, StandardIds(slots), i)
    {
      assert SlotOfState(kinds, standard, states[i], slots[..i], slots[i]);
    }
  }

  lemma FirstFreeIsFree(suffix: string, taken: set<string>, id: string)
    requires FirstFree(suffix, taken, id)
    ensures id !in taken
  {}
}

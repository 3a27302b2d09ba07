/** What a classification means: nothing is lost, the order of the states does
    not matter, and the class tells what the device can do. */
module DeviceClasses {
  import opened SlotValues
  import opened TypedDevices
  import opened Classification

  /** States and slots correspond one to one. */
  lemma SlotPerState(states: seq<State>, slots: seq<Slot>)
    requires DistinctIds(states) && Slotted(states, slots)
    ensures forall i :: 0 <= i < |states| ==> slots[i].stateId == states[i].stateId
    ensures forall i, j :: 0 <= i < j < |slots| ==>
              slots[i].stateId != slots[j].stateId && slots[i].slotId != slots[j].slotId
  {
    hide IsChosen, PreliminaryKind, GenericKind, SlotIdForKind, Normalize, IsBlind, IsClimate;
    forall i | 0 <= i < |states|
      ensures slots[i].stateId == states[i].stateId
    {
      assert SlotFor(states, states[i], slots[i]);
    }
  }

  /** The standard slot of a kind. */
  function StandardSlotOf(s: State, k: SlotKind): Slot {
    MakeSlot(s, k, SlotIdForKind(k), "")
  }

  lemma {:induction false} ByKindMembers(slots: seq<Slot>, k: SlotKind)
    ensures k in ByKind(slots) <==> k !in GENERIC_KINDS && exists i :: 0 <= i < |slots| && slots[i].kind == k
    ensures k in ByKind(slots) ==> ByKind(slots)[k] in slots && ByKind(slots)[k].kind == k
  {
    if slots == [] {
    } else {
      var init := slots[..|slots| - 1];
      ByKindMembers(init, k);
      assert slots == init + [slots[|slots| - 1]];
      assert forall i :: 0 <= i < |init| ==> slots[i] == init[i];
    }
  }

  /** A slot is a standard one exactly when its state was chosen for its kind. */
  lemma SlotKinds(states: seq<State>, slots: seq<Slot>, i: nat, k: SlotKind)
    requires Slotted(states, slots) && i < |states| && k !in GENERIC_KINDS
    ensures slots[i].kind == k <==> IsChosen(states, IsBlind(states), IsClimate(states), states[i], k)
    ensures slots[i].kind == k ==> slots[i] == StandardSlotOf(states[i], k)
  {
    hide PreliminaryKind, SlotIdForKind, Normalize, IsBlind, IsClimate;
    var s, blind, climate := states[i], IsBlind(states), IsClimate(states);
    assert SlotFor(states, s, slots[i]);
    GenericKindIsGeneric(s);
  }

  /** The standard slots by kind do not depend on the order of the states. */
  lemma ByKindIsChosen(states: seq<State>, slots: seq<Slot>, s: State, k: SlotKind)
    requires DistinctIds(states) && Slotted(states, slots)
    ensures IsChosen(states, IsBlind(states), IsClimate(states), s, k) ==>
      k in ByKind(slots) && ByKind(slots)[k] == StandardSlotOf(s, k)
  {
    hide SlotIdForKind, Normalize, IsBlind, IsClimate, PreliminaryKind, Slotted, SlotFor, MakeSlot, DistinctIds, ByKind;
    ByKindMembers(slots, k);
    if IsChosen(states, IsBlind(states), IsClimate(states), s, k) {
      ChosenKind(states, IsBlind(states), IsClimate(states), s, k);
      SlottedLength(states, slots);
      var i :| 0 <= i < |states| && states[i] == s;
      SlotKinds(states, slots, i, k);
      var t := ByKind(slots)[k];
      var j :| 0 <= j < |slots| && slots[j] == t;
      SlotKinds(states, slots, j, k);
      OneChosenPerKind(states, IsBlind(states), IsClimate(states), s, states[j], k);
    }
  }

  lemma SlottedLength(states: seq<State>, slots: seq<Slot>)
    requires Slotted(states, slots)
    ensures |slots| == |states|
  {}

  lemma ByKindHasChosen(states: seq<State>, slots: seq<Slot>, k: SlotKind) returns (s: State)
    requires Slotted(states, slots) && k in ByKind(slots)
    ensures IsChosen(states, IsBlind(states), IsClimate(states), s, k)
  {
    hide SlotIdForKind, Normalize, IsBlind, IsClimate, PreliminaryKind, Slotted, SlotFor, MakeSlot, ByKind;
    ByKindMembers(slots, k);
    SlottedLength(states, slots);
    var j :| 0 <= j < |slots| && slots[j].kind == k;
    SlotKinds(states, slots, j, k);
    s := states[j];
  }

  ghost predicate SameStates(a: seq<State>, b: seq<State>) {
    forall s :: s in a <==> s in b
  }

  lemma SameTypes(a: seq<State>, b: seq<State>)
    requires SameStates(a, b)
    ensures IsBlind(a) == IsBlind(b) && IsClimate(a) == IsClimate(b) && DTypes(a) == DTypes(b)
  {
    forall t
      ensures t in DTypes(a) <==> exists o :: o in a && o.dtype == t && t != ""
      ensures t in DTypes(b) <==> exists o :: o in b && o.dtype == t && t != ""
    {}
  }

  lemma SameChoice(a: seq<State>, b: seq<State>, s: State, k: SlotKind)
    requires SameStates(a, b)
    ensures IsChosen(a, IsBlind(a), IsClimate(a), s, k) == IsChosen(b, IsBlind(b), IsClimate(b), s, k)
  {
    hide PreliminaryKind, Excluded;
    SameTypes(a, b);
  }

  /** Reordering the states of a device changes neither its standard slots nor its class. */
  lemma OrderDoesNotMatter(a: seq<State>, b: seq<State>, slotsA: seq<Slot>, slotsB: seq<Slot>)
    requires multiset(a) == multiset(b) && DistinctIds(a) && DistinctIds(b)
    requires Slotted(a, slotsA) && Slotted(b, slotsB)
    ensures ByKind(slotsA) == ByKind(slotsB)
    ensures DecideClass(ByKind(slotsA), DTypes(a)) == DecideClass(ByKind(slotsB), DTypes(b))
  {
    hide IsChosen, IsBlind, IsClimate, PreliminaryKind, Slotted, ByKind, DecideClass, DistinctIds, DTypes,
           StandardSlotOf;
    forall s
      ensures s in a <==> s in b
    {
      assert s in a <==> s in multiset(a);
      assert s in b <==> s in multiset(b);
    }
    forall k | k in ByKind(slotsA)
      ensures k in ByKind(slotsB) && ByKind(slotsB)[k] == ByKind(slotsA)[k]
    {
      SameStandardSlot(a, b, slotsA, slotsB, k);
    }
    forall k | k in ByKind(slotsB)
      ensures k in ByKind(slotsA)
    {
      SameStandardSlot(b, a, slotsB, slotsA, k);
    }
    SameTypes(a, b);
  }

  lemma SameStandardSlot(a: seq<State>, b: seq<State>, slotsA: seq<Slot>, slotsB: seq<Slot>, k: SlotKind)
    requires SameStates(a, b) && DistinctIds(a) && DistinctIds(b)
    requires Slotted(a, slotsA) && Slotted(b, slotsB) && k in ByKind(slotsA)
    ensures k in ByKind(slotsB) && ByKind(slotsB)[k] == ByKind(slotsA)[k]
  {
    hide IsChosen, IsBlind, IsClimate, PreliminaryKind, Slotted, ByKind, DistinctIds, StandardSlotOf;
    var s := ByKindHasChosen(a, slotsA, k);
    SameChoice(a, b, s, k);
    ByKindIsChosen(a, slotsA, s, k);
    ByKindIsChosen(b, slotsB, s, k);
  }

  // ----------------------------------------------------------------------
  // Classes

  predicate HasKind(slots: seq<Slot>, k: SlotKind) {
    exists s :: s in slots && s.kind == k
  }

  predicate CanWrite(slots: seq<Slot>, k: SlotKind) {
    exists s :: s in slots && s.kind == k && s.writable
  }

  /** What the class promises of the slots. */
  ghost predicate Promises(c: DeviceClass, slots: seq<Slot>) {
    match c
    case Light => CanWrite(slots, On)
    case Socket => CanWrite(slots, On)
    case BinarySwitch => CanWrite(slots, On)
    case Climate => CanWrite(slots, On)
    case Cover => CanWrite(slots, Position)
    case Thermostat => HasKind(slots, TargetTemperature)
    case Contact => HasKind(slots, Open) && !CanWrite(slots, Open)
    case Sensor =>
      && (forall s :: s in slots && s.kind !in GENERIC_KINDS ==> !s.writable)
      && exists s :: s in slots && s.kind in MEASUREMENT_KINDS
    case Generic => !CanWrite(slots, On) && !CanWrite(slots, Position) && !HasKind(slots, TargetTemperature)
  }

  lemma ByKindTells(states: seq<State>, slots: seq<Slot>, k: SlotKind)
    requires DistinctIds(states) && Slotted(states, slots) && k !in GENERIC_KINDS
    ensures HasKind(slots, k) <==> k in ByKind(slots)
    ensures CanWrite(slots, k) <==> Writable(ByKind(slots), k)
  {
    hide IsChosen, IsBlind, IsClimate, PreliminaryKind, Slotted, ByKind, DistinctIds, StandardSlotOf,
           SlotIdForKind, Normalize;
    ByKindMembers(slots, k);
    SlottedLength(states, slots);
    forall i | 0 <= i < |slots| && slots[i].kind == k
      ensures k in ByKind(slots) && ByKind(slots)[k] == slots[i]
    {
      SlotKinds(states, slots, i, k);
      ByKindIsChosen(states, slots, states[i], k);
    }
  }

  /** The class is sound: what it promises, the slots hold. */
  lemma ClassIsSound(states: seq<State>, slots: seq<Slot>, dtypes: set<string>)
    requires DistinctIds(states) && Slotted(states, slots)
    ensures Promises(DecideClass(ByKind(slots), dtypes), slots)
  {
    hide IsChosen, IsBlind, IsClimate, PreliminaryKind, Slotted, ByKind, DistinctIds, HasKind, CanWrite;
    ByKindTells(states, slots, On);
    ByKindTells(states, slots, Position);
    ByKindTells(states, slots, TargetTemperature);
    ByKindTells(states, slots, Open);
    var byKind := ByKind(slots);
    if DecideClass(byKind, dtypes) == Sensor {
      SensorIsReadOnly(states, slots, dtypes);
    }
  }

  lemma SensorIsReadOnly(states: seq<State>, slots: seq<Slot>, dtypes: set<string>)
    requires DistinctIds(states) && Slotted(states, slots) && DecideClass(ByKind(slots), dtypes) == Sensor
    ensures Promises(Sensor, slots)
  {
    hide IsChosen, IsBlind, IsClimate, PreliminaryKind, Slotted, ByKind, DistinctIds;
    var byKind := ByKind(slots);
    forall s | s in slots && s.kind !in GENERIC_KINDS
      ensures !s.writable
    {
      ByKindTells(states, slots, s.kind);
    }
    var k :| k in byKind.Keys && k in MEASUREMENT_KINDS;
    ByKindMembers(slots, k);
  }
}

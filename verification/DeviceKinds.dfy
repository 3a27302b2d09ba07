/** Which state carries which kind of slot, what its slot shows, the words that
    mark a setpoint as one among several, and each class in full. */
module DeviceKinds {
  import opened Options
  import opened Text
  import opened Numerals
  import opened SlotValues
  import opened TypedDevices
  import opened Classification
  import opened DeviceClasses

  /** The states that may carry a kind, by key, type hint, and whether the device is a blind or a climate
      device. */
  lemma KindIff(s: State, blind: bool, climate: bool, k: SlotKind)
    ensures PreliminaryKind(s, blind, climate) == Some(k) <==>
      match k
      case On => s.key == "on"
      case Brightness => s.key == "level" && !blind
      case Position => s.key == "level" && blind
      case Color => s.key == "color"
      case ColorTemperature => s.key == "colorTemp"
      case TargetTemperature => s.key == "expected"
      case Temperature => s.key == "current" && s.dtype != "humidity_sensor" && s.dtype != "illuminance_sensor"
      case Humidity => s.key == "current" && s.dtype == "humidity_sensor"
      case Illuminance => s.key == "illuminance" || (s.key == "current" && s.dtype == "illuminance_sensor")
      case Open => s.key == "open"
      case Iaq => s.key == "iaq"
      case Co2 => s.key == "co2_equiv"
      case Voc => s.key == "voc_equiv"
      case Power => s.key == "power"
      case Mode => s.key == "mode" && climate
      case FanSpeed => s.key == "fanSpeed" && climate
      case _ => false
  {}

  /** The slot of a state shows the state, its value in the scale of the slot's kind. */
  lemma SlotShows(states: seq<State>, slots: seq<Slot>, i: nat)
    requires Slotted(states, slots) && i < |states|
    ensures var s, slot := states[i], slots[i];
      && slot.stateId == s.stateId && slot.writable == s.writable && slot.trust == s.trust
      && slot.value == Normalize(slot.kind, s.raw, s.inverted)
      && slot.inverted == (s.inverted && slot.kind == Position)
      && slot.options == (if slot.kind == Mode || slot.kind == FanSpeed then s.options else [])
  {
    hide PreliminaryKind, SlotIdForKind, Normalize, IsChosen, GenericKind, IsBlind, IsClimate, DistinctSlotIds;
    assert SlotFor(states, states[i], slots[i]);
  }

  ghost predicate Hinted(states: seq<State>, dtype: string) {
    exists s :: s in states && s.dtype == dtype
  }

  ghost predicate IsPicked(states: seq<State>, s: State, k: SlotKind) {
    IsChosen(states, Hinted(states, "blind"), Hinted(states, "climate"), s, k)
  }

  /** It is of the kind its state was chosen for, or generic by the state's type, with a label only then. */
  lemma SlotKindIs(states: seq<State>, slots: seq<Slot>, i: nat)
    requires Slotted(states, slots) && i < |states|
    ensures var s, slot := states[i], slots[i];
      if exists k :: IsPicked(states, s, k)
      then IsPicked(states, s, slot.kind) && slot.slotLabel == ""
      else
        && slot.slotLabel == s.key
        && match s.stateType
           case BooleanState => slot.kind == GenericBool
           case NumericState => slot.kind == GenericNumber
           case _ => slot.kind == GenericText
  {
    hide PreliminaryKind, SlotIdForKind, Normalize, IsChosen, IsBlind, IsClimate, Hinted, DistinctSlotIds;
    HintedIs(states);
    var s := states[i];
    assert SlotFor(states, s, slots[i]);
    if k :| IsPicked(states, s, k) {
      assert IsChosen(states, IsBlind(states), IsClimate(states), s, k);
      ChosenKind(states, IsBlind(states), IsClimate(states), s, k);
    } else {
      assert forall k :: IsChosen(states, IsBlind(states), IsClimate(states), s, k) ==> IsPicked(states, s, k);
    }
  }

  lemma HintedIs(states: seq<State>)
    ensures Hinted(states, "blind") == IsBlind(states) && Hinted(states, "climate") == IsClimate(states)
  {}

  // ----------------------------------------------------------------------
  // Classes

  /** A switch of its own kind. */
  predicate Switches(slots: seq<Slot>, dtypes: set<string>) {
    && CanWrite(slots, On) && !HasKind(slots, TargetTemperature) && !CanWrite(slots, Position)
    && !HasKind(slots, Mode) && !HasKind(slots, FanSpeed) && "climate" !in dtypes
  }

  predicate Shines(slots: seq<Slot>, dtypes: set<string>) {
    || "light" in dtypes
    || CanWrite(slots, Brightness) || CanWrite(slots, Color) || CanWrite(slots, ColorTemperature)
  }

  predicate IsPlug(slots: seq<Slot>, dtypes: set<string>) {
    "socket" in dtypes || HasKind(slots, SlotKind.Power)
  }

  /** Nothing more definite: no setpoint, and neither switch nor position to write. */
  predicate Passive(slots: seq<Slot>) {
    !CanWrite(slots, On) && !HasKind(slots, TargetTemperature) && !CanWrite(slots, Position)
  }

  predicate Senses(slots: seq<Slot>) {
    && (forall s :: s in slots && s.writable ==> s.kind in {GenericNumber, GenericBool, GenericText})
    && exists s :: s in slots && s.kind in {Temperature, Humidity, Illuminance, Pressure, Co2, Iaq, Voc, SlotKind.Power,
                                            Energy, Motion}
  }

  /** Which class a device is of, by its slots and the hints of its states. */
  lemma ClassIff(states: seq<State>, slots: seq<Slot>, dtypes: set<string>, c: DeviceClass)
    requires DistinctIds(states) && Slotted(states, slots)
    ensures DecideClass(ByKind(slots), dtypes) == c <==>
      match c
      case Climate => CanWrite(slots, On) && (HasKind(slots, Mode) || HasKind(slots, FanSpeed) || "climate" in dtypes)
      case Thermostat =>
        && HasKind(slots, TargetTemperature)
        && !(CanWrite(slots, On) && (HasKind(slots, Mode) || HasKind(slots, FanSpeed) || "climate" in dtypes))
      case Cover =>
        && CanWrite(slots, Position) && !HasKind(slots, TargetTemperature)
        && !(CanWrite(slots, On) && (HasKind(slots, Mode) || HasKind(slots, FanSpeed) || "climate" in dtypes))
      case Light => Switches(slots, dtypes) && Shines(slots, dtypes)
      case Socket => Switches(slots, dtypes) && !Shines(slots, dtypes) && IsPlug(slots, dtypes)
      case BinarySwitch => Switches(slots, dtypes) && !Shines(slots, dtypes) && !IsPlug(slots, dtypes)
      case Contact => Passive(slots) && HasKind(slots, Open) && !CanWrite(slots, Open)
      case Sensor => Passive(slots) && !HasKind(slots, Open) && Senses(slots)
      case Generic =>
        Passive(slots) && (HasKind(slots, Open) ==> CanWrite(slots, Open)) && (!Senses(slots) || HasKind(slots, Open))
  {
    hide IsChosen, IsBlind, IsClimate, PreliminaryKind, Slotted, ByKind, DistinctIds, HasKind, CanWrite, Senses,
           Writable;
    var byKind := ByKind(slots);
    forall k | k !in GENERIC_KINDS
      ensures (HasKind(slots, k) <==> k in byKind) && (CanWrite(slots, k) <==> Writable(byKind, k))
    {
      ByKindTells(states, slots, k);
    }
    SensesByKind(states, slots);
    assert byKind.Keys * ENUM_KINDS != {} <==> Mode in byKind || FanSpeed in byKind;
    WritableIs(byKind);
  }

  lemma WritableIs(byKind: map<SlotKind, Slot>)
    ensures forall k :: Writable(byKind, k) <==> k in byKind && byKind[k].writable
  {}

  lemma SensesByKind(states: seq<State>, slots: seq<Slot>)
    requires DistinctIds(states) && Slotted(states, slots)
    ensures Senses(slots) <==>
      && ByKind(slots).Keys * MEASUREMENT_KINDS != {}
      && forall k :: k in ByKind(slots) ==> !ByKind(slots)[k].writable
  {
    hide IsChosen, IsBlind, IsClimate, PreliminaryKind, Slotted, ByKind, DistinctIds, CanWrite, Writable;
    var byKind := ByKind(slots);
    WritableIs(byKind);
    forall s | s in slots && s.writable
      ensures s.kind in GENERIC_KINDS || (s.kind in byKind && byKind[s.kind].writable)
    {
      if s.kind !in GENERIC_KINDS {
        CanWriteOne(slots, s);
        ByKindTells(states, slots, s.kind);
      }
    }
    forall k | k in byKind
      ensures k !in GENERIC_KINDS && byKind[k] in slots && byKind[k].kind == k
    {
      ByKindMembers(slots, k);
    }
    forall s | s in slots && s.kind in MEASUREMENT_KINDS
      ensures s.kind in byKind
    {
      ByKindTells(states, slots, s.kind);
    }
  }

  lemma CanWriteOne(slots: seq<Slot>, s: Slot)
    requires s in slots && s.writable
    ensures CanWrite(slots, s.kind)
  {}

  // ----------------------------------------------------------------------
  // Words

  predicate Capital(c: char) { 65 <= c as int <= 90 }

  predicate Small(c: char) { 97 <= c as int <= 122 }

  predicate Digit(c: char) { 48 <= c as int <= 57 }

  /** A word begins the text, and ends where the next one may begin: small letters after a letter, capitals
      that are not followed by a small letter, or digits. */
  ghost predicate BeginsWith(w: string, rest: string) {
    && w != ""
    && (|| ((Capital(w[0]) || Small(w[0])) && (|w| > 1 || Small(w[0])) && (forall c :: c in w[1..] ==> Small(c))
            && (rest == "" || !Small(rest[0])))
        || ((forall c :: c in w ==> Capital(c))
            && (rest == "" || (!Capital(rest[0]) && !Small(rest[0]))
                || (Capital(rest[0]) && |rest| > 1 && Small(rest[1]))))
        || ((forall c :: c in w ==> Digit(c)) && (rest == "" || !Digit(rest[0]))))
  }

  lemma {:induction false} SpanIs(w: string, rest: string, p: char -> bool)
    requires (forall c :: c in w ==> p(c)) && (rest == "" || !p(rest[0]))
    ensures Span(w + rest, p) == |w|
  {
    if w == "" {
      assert w + rest == rest;
    } else {
      assert (w + rest)[1..] == w[1..] + rest && w[0] in w;
      SpanIs(w[1..], rest, p);
    }
  }

  lemma CapitalsAre(w: string, rest: string)
    requires w != "" && forall c :: c in w ==> IsUpper(c)
    requires || rest == "" || (!IsUpper(rest[0]) && !IsLower(rest[0]))
             || (IsUpper(rest[0]) && |rest| > 1 && IsLower(rest[1]))
    ensures WordLength(w + rest) == |w|
  {
    if rest != "" && IsUpper(rest[0]) {
      assert w + rest == (w + [rest[0]]) + rest[1..];
      SpanIs(w + [rest[0]], rest[1..], IsUpper);
    } else {
      SpanIs(w, rest, IsUpper);
    }
  }

  lemma SmallAre(w: string, rest: string)
    requires w != "" && forall c :: c in w ==> IsLower(c)
    requires rest == "" || !IsLower(rest[0])
    ensures WordLength(w + rest) == |w|
  {
    assert w[0] in w && "" + (w + rest) == w + rest;
    SpanIs("", w + rest, IsUpper);
    SpanIs(w, rest, IsLower);
  }

  lemma DigitsAre(w: string, rest: string)
    requires w != "" && forall c :: c in w ==> IsDigit(c)
    requires rest == "" || !IsDigit(rest[0])
    ensures WordLength(w + rest) == |w|
  {
    assert w[0] in w && "" + (w + rest) == w + rest;
    SpanIs("", w + rest, IsUpper);
    SpanIs(w, rest, IsDigit);
  }

  lemma CapitalizedAre(first: char, tail: string, rest: string)
    requires IsUpper(first) && tail != "" && forall c :: c in tail ==> IsLower(c)
    requires rest == "" || !IsLower(rest[0])
    ensures WordLength([first] + tail + rest) == 1 + |tail|
  {
    assert tail[0] in tail;
    assert [first] + tail + rest == [first] + (tail + rest);
    SpanIs([first], tail + rest, IsUpper);
    SpanIs(tail, rest, IsLower);
    assert ([first] + (tail + rest))[1..] == tail + rest;
  }

  lemma WordLengthIs(w: string, rest: string)
    requires BeginsWith(w, rest)
    ensures WordLength(w + rest) == |w|
  {
    hide WordLength;
    var tail := w[1..];
    assert w == [w[0]] + tail;
    assert forall k :: 0 <= k < |tail| ==> tail[k] in tail && tail[k] in w;
    if forall c :: c in w ==> Digit(c) {
      assert w[0] in w;
      DigitsAre(w, rest);
    } else if tail != "" && Small(tail[0]) {
      if Small(w[0]) {
        SmallAre(w, rest);
      } else {
        CapitalizedAre(w[0], tail, rest);
      }
    } else if Small(w[0]) {
      assert forall c :: c in w ==> Small(c);
      SmallAre(w, rest);
    } else {
      CapitalsAre(w, rest);
    }
  }

  /** The words of a text: the first one, and those of the rest; what is neither letter nor digit is
      passed over. */
  lemma TokensAre(w: string, rest: string, c: char)
    ensures BeginsWith(w, rest) ==> Tokens(w + rest) == {Lower(w)} + Tokens(rest)
    ensures !Capital(c) && !Small(c) && !Digit(c) ==> Tokens([c] + rest) == Tokens(rest)
  {
    if BeginsWith(w, rest) {
      WordLengthIs(w, rest);
      assert (w + rest)[..|w|] == w && (w + rest)[|w|..] == rest;
    }
    assert ([c] + rest)[1..] == rest;
  }

  /** Words one after the other, each ending where the next begins. */
  ghost predicate AreWords(ws: seq<string>) {
    forall k :: 0 <= k < |ws| ==> BeginsWith(ws[k], Concat(ws[k + 1..]))
  }

  function Concat(ws: seq<string>): string {
    if ws == [] then "" else ws[0] + Concat(ws[1..])
  }

  lemma {:induction false} TokensOfWords(ws: seq<string>)
    requires AreWords(ws)
    ensures forall t :: t in Tokens(Concat(ws)) <==> exists k :: 0 <= k < |ws| && t == Lower(ws[k])
  {
    if ws == [] {
    } else {
      forall k | 0 <= k < |ws[1..]|
        ensures BeginsWith(ws[1..][k], Concat(ws[1..][k + 1..]))
      {
        assert BeginsWith(ws[k + 1], Concat(ws[k + 2..])) && ws[1..][k + 1..] == ws[k + 2..];
      }
      TokensOfWords(ws[1..]);
      TokensAre(ws[0], Concat(ws[1..]), ' ');
      forall t | t in Tokens(Concat(ws[1..]))
        ensures exists k :: 0 <= k < |ws| && t == Lower(ws[k])
      {
        var k :| 0 <= k < |ws[1..]| && t == Lower(ws[1..][k]);
        assert ws[1..][k] == ws[k + 1];
      }
      assert forall k :: 0 < k < |ws| ==> ws[k] == ws[1..][k - 1];
    }
  }

  lemma ComfortTemperature()
    ensures Excluded("setpointTemperatureForLevelComfort")
  {
    ComfortIsAWord();
    WordExcludes("setpointTemperatureForLevelComfort", "comfort");
  }

  lemma WordExcludes(s: string, word: string)
    requires word in Tokens(s) && word in SETPOINT_EXCLUDE
    ensures Excluded(s)
  {
    hide Tokens;
    assert word in Tokens(s) * SETPOINT_EXCLUDE;
  }

  lemma ComfortIsAWord()
    ensures "comfort" in Tokens("setpointTemperatureForLevelComfort")
  {
    hide Tokens, Lower, Span, WordLength;
    TemperatureForLevelComfort();
    FollowedBy("setpoint", "TemperatureForLevelComfort");
    assert "setpoint" + "TemperatureForLevelComfort" == "setpointTemperatureForLevelComfort";
  }

  lemma TemperatureForLevelComfort()
    ensures "comfort" in Tokens("TemperatureForLevelComfort")
  {
    hide Tokens, Lower, Span, WordLength;
    ForLevelComfort();
    FollowedBy("Temperature", "ForLevelComfort");
    assert "Temperature" + "ForLevelComfort" == "TemperatureForLevelComfort";
  }

  lemma ForLevelComfort()
    ensures "comfort" in Tokens("ForLevelComfort")
  {
    hide Tokens, Lower, Span, WordLength;
    LevelComfort();
    FollowedBy("For", "LevelComfort");
    assert "For" + "LevelComfort" == "ForLevelComfort";
  }

  lemma LevelComfort()
    ensures "comfort" in Tokens("LevelComfort")
  {
    hide Tokens, Lower, Span, WordLength;
    FollowedBy("Comfort", "");
    FollowedBy("Level", "Comfort");
    assert "Comfort" + "" == "Comfort" && "Level" + "Comfort" == "LevelComfort";
    LowerOfComfort();
  }

  lemma LowerOfComfort()
    ensures Lower("Comfort") == "comfort"
  {
    hide Lower;
    var s := "Comfort";
    forall i | 0 <= i < |s|
      ensures |Lower(s)| == |s| && Lower(s)[i] == "comfort"[i]
    {
      LowerIs(s, i);
    }
    LowerIs(s, 0);
  }

  /** A word with a capital or a small letter in front, before a text that does not go on with one. */
  lemma FollowedBy(w: string, rest: string)
    requires w != "" && (IsUpper(w[0]) || IsLower(w[0])) && (|w| > 1 || IsLower(w[0]))
    requires forall i :: 1 <= i < |w| ==> IsLower(w[i])
    requires rest == "" || !IsLower(rest[0])
    ensures Tokens(w + rest) == {Lower(w)} + Tokens(rest)
  {
    hide Tokens, Lower;
    TokensAre(w, rest, ' ');
  }

  /** A setpoint is marked as one of several just when one of its words, in small letters, is on the list. */
  lemma ExcludedIff(ws: seq<string>)
    requires AreWords(ws)
    ensures Excluded(Concat(ws)) <==> exists k :: 0 <= k < |ws| && Lower(ws[k]) in SETPOINT_EXCLUDE
  {
    hide Tokens, Lower, AreWords, Concat;
    var s := Concat(ws);
    TokensOfWords(ws);
    if Excluded(s) {
      assert Tokens(s) * SETPOINT_EXCLUDE != {};
      var t :| t in Tokens(s) * SETPOINT_EXCLUDE;
      assert t in Tokens(s);
    }
    forall k | 0 <= k < |ws| && Lower(ws[k]) in SETPOINT_EXCLUDE
      ensures Excluded(s)
    {
      WordExcludes(s, Lower(ws[k]));
    }
  }

  // ----------------------------------------------------------------------
  // Names

  /** Some slot before the i-th has this id, or a standard one. */
  ghost predicate Borne(slots: seq<Slot>, i: nat, id: string) {
    exists j :: 0 <= j < |slots| && slots[j].slotId == id && (j < i || slots[j].kind !in GENERIC_KINDS)
  }

  /** A generic slot is named after the suffix of its state, when no slot before it and no standard slot has
      that name, and else with the least number from 2 on that gives a name none of them has. */
  lemma GenericName(states: seq<State>, slots: seq<Slot>, i: nat)
    requires |slots| == |states| && i < |slots| && slots[i].kind in {GenericNumber, GenericBool, GenericText}
    requires NamedApart(states, slots, StandardIds(slots), i)
    ensures var suffix, id := states[i].suffix, slots[i].slotId;
      && !Borne(slots, i, id)
      && if !Borne(slots, i, suffix) then id == suffix
         else exists n: nat ::
           n >= 2 && id == suffix + "_" + NatText(n, 10)
           && forall m: nat :: 2 <= m < n ==> Borne(slots, i, suffix + "_" + NatText(m, 10))
  {
    var taken := SlotIds(slots[..i]) + StandardIds(slots);
    forall id
      ensures id in taken <==> Borne(slots, i, id)
    {
      BorneIs(slots, i, id);
    }
    var suffix, id := states[i].suffix, slots[i].slotId;
    assert FirstFree(suffix, taken, id);
    hide Borne, SlotIds, StandardIds;
    if Borne(slots, i, suffix) {
      var n: nat :| IsFirstNumber(suffix, taken, id, n);
      forall m: nat | 2 <= m < n
        ensures Borne(slots, i, suffix + "_" + NatText(m, 10))
      {
        assert Numbered(suffix, m) in taken;
      }
      assert n >= 2 && id == suffix + "_" + NatText(n, 10);
    }
  }

  lemma BorneIs(slots: seq<Slot>, i: nat, id: string)
    requires i <= |slots|
    ensures id in SlotIds(slots[..i]) + StandardIds(slots) <==> Borne(slots, i, id)
  {
    if id in SlotIds(slots[..i]) {
      var j :| 0 <= j < i && slots[..i][j].slotId == id;
      assert slots[j].slotId == id;
    }
    if j :| 0 <= j < i && slots[j].slotId == id {
      assert slots[..i][j].slotId == id;
    }
  }
}

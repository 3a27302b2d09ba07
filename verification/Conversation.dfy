/** Conversation context per source: what was last talked about, and the message
    history, both lapsing after a time without any new utterance. */
module Conversations {
  import opened Options

  /** A value that Python takes for true: present and not empty. */
  predicate Given(o: Option<string>) {
    o.Some? && o.value != ""
  }

  datatype IntentValue = IntentValue(
    name: string,
    room: Option<string>, roomId: Option<string>,
    device: Option<string>, deviceId: Option<string>, deviceKey: Option<string>, deviceCandidates: seq<string>,
    category: Option<string>,
    value: Option<string>, unit: Option<string>)

  datatype Clarification = Clarification(kind: string, candidates: seq<string>)

  /** All a context remembers but the messages. */
  datatype Memory = Memory(
    room: Option<string>, roomId: Option<string>,
    device: Option<string>, deviceId: Option<string>,
    category: Option<string>,
    action: Option<string>, value: Option<string>, unit: Option<string>,
    clarification: Option<Clarification>,
    smalltalk: bool)

  const NOTHING := Memory(None, None, None, None, None, None, None, None, None, false)

  datatype Message = FromUser(text: string) | FromAssistant(text: string)

  datatype Context = Context(memory: Memory, history: seq<Message>, ts: real)

  datatype Write =
    | Handled(intent: IntentValue)
    | Asked(question: Clarification)
    | Smalltalk(active: bool)
    | Exchange(user: string, assistant: string)
    | Spoken(text: string)

  /** What happens to one source's context. */
  datatype Event = Wrote(w: Write, now: real) | Answered | Swept(now: real)

  const DEVICE_INTENTS := {"TurnOn", "TurnOff", "SetLevel", "SetColor"}

  function Remember(m: Memory, w: Write): Memory {
    match w
    case Handled(i) =>
      var m1 := if Given(i.roomId) then m.(room := i.room, roomId := i.roomId) else m;
      var m2 := if Given(i.deviceId) then m1.(device := i.device, deviceId := i.deviceId) else m1;
      var m3 := if Given(i.category) then m2.(category := i.category) else m2;
      if i.name in DEVICE_INTENTS then m3.(action := Some(i.name), value := i.value, unit := i.unit) else m3
    case Asked(q) => m.(clarification := Some(q))
    case Smalltalk(active) => m.(smalltalk := active)
    case Exchange(_, _) => m
    case Spoken(_) => m
  }

  function Messages(w: Write): seq<Message> {
    match w
    case Exchange(user, assistant) => [FromUser(user), FromAssistant(assistant)]
    case Spoken(text) => [FromAssistant(text)]
    case _ => []
  }

  /** A message at the end of a deque of at most `max` messages, and what falls out at its front. */
  function Push(h: seq<Message>, m: Message, max: nat): (seq<Message>, seq<Message>) {
    if |h| < max then (h + [m], [])
    else if max == 0 then ([], [m])
    else (h[1..] + [m], [h[0]])
  }

  function PushAll(h: seq<Message>, ms: seq<Message>, max: nat): (seq<Message>, seq<Message>) {
    if ms == [] then (h, [])
    else
      var (h1, out1) := PushAll(h, ms[..|ms| - 1], max);
      var (h2, out2) := Push(h1, ms[|ms| - 1], max);
      (h2, out1 + out2)
  }

  predicate Lapsed(c: Context, now: real, ttl: real) {
    now - c.ts > ttl
  }

  /** The context a write goes to. A lapsed one is not revived, only its messages stay. */
  function Ensured(c: Option<Context>, now: real, ttl: real): Context {
    match c
    case None => Context(NOTHING, [], now)
    case Some(x) => if Lapsed(x, now, ttl) then Context(NOTHING, x.history, now) else x
  }

  /** One event. Nothing spoken is not recorded at all. */
  function Step(c: Option<Context>, e: Event, ttl: real, max: nat): Option<Context> {
    match e
    case Wrote(w, now) =>
      if w == Spoken("") then c
      else
        var x := Ensured(c, now, ttl);
        Some(Context(Remember(x.memory, w), PushAll(x.history, Messages(w), max).0, now))
    case Answered =>
      if c == None then None else Some(c.value.(memory := c.value.memory.(clarification := None)))
    case Swept(now) =>
      if c == None || !Lapsed(c.value, now, ttl) then c else Some(c.value.(history := []))
  }

  /** What may be read at a time. */
  function Recall(c: Option<Context>, now: real, ttl: real): Memory {
    if c == None || Lapsed(c.value, now, ttl) then NOTHING else c.value.memory
  }

  // ----------------------------------------------------------------------
  // Reading into an intent

  /** Whether the room is inherited: none was said, and the satellite's own is not known. */
  predicate InheritsRoom(i: IntentValue, m: Memory, satelliteRoom: Option<string>) {
    i.roomId == None && satelliteRoom == None && Given(m.roomId)
  }

  predicate InheritsDevice(i: IntentValue, m: Memory, satelliteRoom: Option<string>) {
    i.device == None && Given(m.deviceId) && i.roomId == None && satelliteRoom == None && i.category == None
  }

  predicate NamesDevice(i: IntentValue) {
    Given(i.device) || Given(i.deviceId) || Given(i.deviceKey) || i.deviceCandidates != []
  }

  function Filled(i: IntentValue, m: Memory, satelliteRoom: Option<string>): IntentValue {
    var i1 := if InheritsRoom(i, m, satelliteRoom) then i.(room := m.room, roomId := m.roomId) else i;
    var i2 := if InheritsDevice(i, m, satelliteRoom) then i1.(device := m.device, deviceId := m.deviceId) else i1;
    if i.category == None && Given(m.category) && !NamesDevice(i2) then i2.(category := m.category) else i2
  }

  predicate InheritsAction(i: IntentValue, m: Memory) {
    Given(m.action) && i.name == "Unknown" && (Given(i.roomId) || Given(i.deviceId) || Given(i.category))
  }

  function WithAction(i: IntentValue, m: Memory): IntentValue {
    if !InheritsAction(i, m) then i
    else if i.value == None && m.value.Some? then i.(name := m.action.value, value := m.value, unit := m.unit)
    else i.(name := m.action.value)
  }

  /** Whatever the user said stays; a category is never inherited next to a device. */
  lemma FilledKeepsWhatWasSaid(i: IntentValue, m: Memory, satelliteRoom: Option<string>)
    ensures var f := Filled(i, m, satelliteRoom);
      && (i.roomId.Some? ==> f.roomId == i.roomId && f.room == i.room)
      && (i.device.Some? || i.roomId.Some? || satelliteRoom.Some? || i.category.Some? ==>
            f.device == i.device && f.deviceId == i.deviceId)
      && (i.category.Some? ==> f.category == i.category)
      && (f.category != i.category ==> !NamesDevice(f))
      && Filled(f, m, satelliteRoom) == f
  {}

  class Intent {
    var name: string
    var room: Option<string>
    var roomId: Option<string>
    var device: Option<string>
    var deviceId: Option<string>
    var deviceKey: Option<string>
    var deviceCandidates: seq<string>
    var category: Option<string>
    var value: Option<string>
    var unit: Option<string>

    constructor (i: IntentValue)
      ensures Value() == i
    {
      name, room, roomId := i.name, i.room, i.roomId;
      device, deviceId, deviceKey, deviceCandidates := i.device, i.deviceId, i.deviceKey, i.deviceCandidates;
      category, value, unit := i.category, i.value, i.unit;
    }

    function Value(): IntentValue
      reads this
    {
      IntentValue(name, room, roomId, device, deviceId, deviceKey, deviceCandidates, category, value, unit)
    }
  }

  class ConversationContext {
    const ttl: real
    const maxMessages: nat
    var contexts: map<string, Context>
    /** The calls of the end-of-conversation callback. */
    var handedOver: seq<(string, seq<Message>)>

    function Of(source: string): Option<Context>
      reads this`contexts
    {
      if source in contexts then Some(contexts[source]) else None
    }

    constructor (ttl: real, maxHistoryTurns: nat)
      ensures this.ttl == ttl && maxMessages == 2 * maxHistoryTurns && contexts == map[] && handedOver == []
    {
      this.ttl, maxMessages := ttl, 2 * maxHistoryTurns;
      contexts, handedOver := map[], [];
    }

    function Valid(c: Context, now: real): bool {
      now - c.ts <= ttl
    }

    method Ensure(source: string, now: real)
      modifies this`contexts
      ensures contexts == old(contexts)[source := Ensured(old(Of(source)), now, ttl)]
    {
      if source !in contexts {
        contexts := contexts[source := Context(NOTHING, [], now)];
      } else if !Valid(contexts[source], now) {
        contexts := contexts[source := Context(NOTHING, contexts[source].history, now)];
      } else {
        assert contexts[source := contexts[source]] == contexts;
      }
    }

    /** Any of the writing calls. */
    method Record(source: string, w: Write, now: real)
      modifies this`contexts
      ensures Of(source) == Step(old(Of(source)), Wrote(w, now), ttl, maxMessages)
      ensures forall s :: s != source ==> Of(s) == old(Of(s))
    {
      if w == Spoken("") {
        return;
      }
      Ensure(source, now);
      var c := contexts[source];
      var history := c.history;
      var ms := Messages(w);
      for i := 0 to |ms|
        invariant history == PushAll(c.history, ms[..i], maxMessages).0
      {
        assert ms[..i + 1][..i] == ms[..i];
        history := Push(history, ms[i], maxMessages).0;
      }
      assert ms[..|ms|] == ms;
      contexts := contexts[source := Context(Remember(c.memory, w), history, now)];
    }

    method ClearClarification(source: string)
      modifies this`contexts
      ensures Of(source) == Step(old(Of(source)), Answered, ttl, maxMessages)
      ensures forall s :: s != source ==> Of(s) == old(Of(s))
    {
      if source in contexts {
        var c := contexts[source];
        contexts := contexts[source := c.(memory := c.memory.(clarification := None))];
      }
    }

    /** One pass of the expiry loop: lapsed histories are taken out and handed over. */
    method ExpirySweep(now: real)
      modifies this
      ensures forall s :: Of(s) == Step(old(Of(s)), Swept(now), ttl, maxMessages)
      ensures forall s ::
        HandedTo(handedOver, s) == HandedTo(old(handedOver), s) + HandedBy(old(Of(s)), Swept(now), ttl)
    {
      hide Step, HandedBy, HandedTo;
      var rest := contexts.Keys;
      NothingToSweep(now, ttl, maxMessages);
      while rest != {}
        invariant rest <= contexts.Keys && contexts.Keys == old(contexts).Keys
        invariant forall s ::
          Of(s) == (if s in rest then old(Of(s)) else Step(old(Of(s)), Swept(now), ttl, maxMessages))
        invariant forall s ::
          HandedTo(handedOver, s) == HandedTo(old(handedOver), s) +
                                     (if s in rest then [] else HandedBy(old(Of(s)), Swept(now), ttl))
      {
        var source :| source in rest;
        rest := rest - {source};
        assert Of(source) == old(Of(source));
        SweepSource(source, now);
      }
    }

    static lemma NothingToSweep(now: real, ttl: real, max: nat)
      ensures Step(None, Swept(now), ttl, max) == None && HandedBy(None, Swept(now), ttl) == []
    {}

    method SweepSource(source: string, now: real)
      requires source in contexts
      modifies this
      ensures contexts.Keys == old(contexts).Keys
      ensures Of(source) == Step(old(Of(source)), Swept(now), ttl, maxMessages)
      ensures forall s :: s != source ==> Of(s) == old(Of(s)) && HandedTo(handedOver, s) == HandedTo(old(handedOver), s)
      ensures HandedTo(handedOver, source) ==
              HandedTo(old(handedOver), source) + HandedBy(old(Of(source)), Swept(now), ttl)
    {
      var c := contexts[source];
      if !Valid(c, now) && c.history != [] {
        handedOver := handedOver + [(source, c.history)];
        contexts := contexts[source := c.(history := [])];
        assert handedOver[..|handedOver| - 1] == old(handedOver);
      }
    }

    method FillIntent(source: string, intent: Intent, satelliteRoom: Option<string>, now: real)
      modifies intent
      ensures intent.Value() == Filled(old(intent.Value()), Recall(Of(source), now, ttl), satelliteRoom)
    {
      if source !in contexts || !Valid(contexts[source], now) {
        return;
      }
      var m := contexts[source].memory;
      var saidRoom := intent.roomId.Some? || satelliteRoom.Some?;
      var saidCategory := intent.category.Some?;
      if intent.roomId == None && satelliteRoom == None && Given(m.roomId) {
        intent.room, intent.roomId := m.room, m.roomId;
      }
      if intent.device == None && Given(m.deviceId) {
        if !saidRoom && !saidCategory {
          intent.device, intent.deviceId := m.device, m.deviceId;
        }
      }
      if intent.category == None && Given(m.category) {
        var named := Given(intent.device) || Given(intent.deviceId) || Given(intent.deviceKey);
        if !(named || intent.deviceCandidates != []) {
          intent.category := m.category;
        }
      }
    }

    method InheritAction(source: string, intent: Intent, now: real) returns (inherited: bool)
      modifies intent
      ensures inherited == InheritsAction(old(intent.Value()), Recall(Of(source), now, ttl))
      ensures intent.Value() == WithAction(old(intent.Value()), Recall(Of(source), now, ttl))
    {
      if source !in contexts || !Valid(contexts[source], now) || !Given(contexts[source].memory.action) {
        return false;
      }
      var m := contexts[source].memory;
      if intent.name != "Unknown" {
        return false;
      }
      if !(Given(intent.roomId) || Given(intent.deviceId) || Given(intent.category)) {
        return false;
      }
      intent.name := m.action.value;
      if intent.value == None && m.value.Some? {
        intent.value, intent.unit := m.value, m.unit;
      }
      inherited := true;
    }

    method GetClarification(source: string, now: real) returns (c: Option<Clarification>)
      ensures c == Recall(Of(source), now, ttl).clarification
    {
      c := if source in contexts && Valid(contexts[source], now) then contexts[source].memory.clarification else None;
    }

    method IsSmalltalkActive(source: string, now: real) returns (active: bool)
      ensures active == Recall(Of(source), now, ttl).smalltalk
    {
      active := source in contexts && Valid(contexts[source], now) && contexts[source].memory.smalltalk;
    }

    method GetHistory(source: string, now: real) returns (h: seq<Message>)
      ensures h == if Of(source) == None || Lapsed(Of(source).value, now, ttl) then [] else Of(source).value.history
    {
      h := if source !in contexts || !Valid(contexts[source], now) then [] else contexts[source].history;
    }
  }

  /** The histories handed over for one source, in order. */
  function HandedTo(calls: seq<(string, seq<Message>)>, source: string): seq<seq<Message>> {
    if calls == [] then []
    else HandedTo(calls[..|calls| - 1], source) +
         (if calls[|calls| - 1].0 == source then [calls[|calls| - 1].1] else [])
  }

  /** What an event hands over. */
  function HandedBy(c: Option<Context>, e: Event, ttl: real): seq<seq<Message>> {
    if e.Swept? && c.Some? && Lapsed(c.value, e.now, ttl) && c.value.history != [] then [c.value.history] else []
  }

  /** A history handed over is the next one of its source, and of no other. */
  lemma HandedToNext(calls: seq<(string, seq<Message>)>, source: string, history: seq<Message>, s: string)
    ensures HandedTo([], s) == []
    ensures HandedTo(calls + [(source, history)], s) == HandedTo(calls, s) + (if s == source then [history] else [])
  {
    assert (calls + [(source, history)])[..|calls|] == calls;
  }
}

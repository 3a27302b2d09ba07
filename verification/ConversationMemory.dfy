/** What can be recalled, by the place in the log where it was said, and what a
    later utterance takes over from it. */
module ConversationMemory {
  import opened Options
  import opened Conversations
  import opened ConversationRuns

  /** What a conversation remembers, part by part. */
  datatype Topic = RoomSaid | DeviceSaid | CategorySaid | ActionSaid | Question | Smalltalking

  /** The text is there. */
  predicate Present(o: Option<string>) {
    o != None && o != Some("")
  }

  /** The event says something on the topic. */
  predicate Sets(t: Topic, e: Event) {
    match t
    case RoomSaid => e.Wrote? && e.w.Handled? && Present(e.w.intent.roomId)
    case DeviceSaid => e.Wrote? && e.w.Handled? && Present(e.w.intent.deviceId)
    case CategorySaid => e.Wrote? && e.w.Handled? && Present(e.w.intent.category)
    case ActionSaid =>
      e.Wrote? && e.w.Handled? &&
      (e.w.intent.name == "TurnOn" || e.w.intent.name == "TurnOff" ||
       e.w.intent.name == "SetLevel" || e.w.intent.name == "SetColor")
    case Question => e.Answered? || (e.Wrote? && e.w.Asked?)
    case Smalltalking => e.Wrote? && e.w.Smalltalk?
  }

  /** The memory is on the topic what the event said. */
  predicate Agrees(m: Memory, t: Topic, e: Event)
    requires Sets(t, e)
  {
    match t
    case RoomSaid => m.room == e.w.intent.room && m.roomId == e.w.intent.roomId
    case DeviceSaid => m.device == e.w.intent.device && m.deviceId == e.w.intent.deviceId
    case CategorySaid => m.category == e.w.intent.category
    case ActionSaid =>
      m.action == Some(e.w.intent.name) && m.value == e.w.intent.value && m.unit == e.w.intent.unit
    case Question => m.clarification == (if e.Answered? then None else Some(e.w.question))
    case Smalltalking => m.smalltalk == e.w.active
  }

  /** Nothing is remembered on the topic. */
  predicate Blank(m: Memory, t: Topic) {
    match t
    case RoomSaid => m.room == None && m.roomId == None
    case DeviceSaid => m.device == None && m.deviceId == None
    case CategorySaid => m.category == None
    case ActionSaid => m.action == None && m.value == None && m.unit == None
    case Question => m.clarification == None
    case Smalltalking => !m.smalltalk
  }

  /** The i-th event is the last from s on to say something on the topic. */
  ghost predicate SaidLast(log: seq<Event>, s: nat, t: Topic, i: nat) {
    s <= i < |log| && Sets(t, log[i]) && forall j :: i < j < |log| ==> !Sets(t, log[j])
  }

  ghost predicate NeverSaid(log: seq<Event>, s: nat, t: Topic) {
    forall j :: s <= j < |log| ==> !Sets(t, log[j])
  }

  /** An event that says something on a topic is what is remembered on it, any other leaves it alone. */
  lemma EventTells(m: Memory, e: Event, t: Topic, f: Event)
    requires Sets(t, f)
    ensures var after := if e.Wrote? then Remember(m, e.w) else if e.Answered? then m.(clarification := None) else m;
      && (Sets(t, e) ==> Agrees(after, t, e))
      && (!Sets(t, e) ==> (Agrees(after, t, f) <==> Agrees(m, t, f)) && (Blank(after, t) <==> Blank(m, t)))
  {}

  lemma Something(t: Topic) returns (e: Event)
    ensures Sets(t, e)
  {
    var i := IntentValue("TurnOn", Some("r"), Some("r"), Some("d"), Some("d"), None, [], Some("c"), None, None);
    match t
    case Question => e := Answered;
    case Smalltalking => e := Wrote(Smalltalk(true), 0.0);
    case _ => e := Wrote(Handled(i), 0.0);
  }

  lemma {:induction false} RememberedTells(log: seq<Event>, t: Topic, i: nat)
    ensures SaidLast(log, 0, t, i) ==> Agrees(Remembered(NOTHING, log), t, log[i])
    ensures NeverSaid(log, 0, t) ==> Blank(Remembered(NOTHING, log), t)
  {
    hide Remember, Agrees, Blank, Sets;
    if log == [] {
      NothingBlank(t);
    } else {
      var n := |log| - 1;
      RememberedTells(log[..n], t, i);
      var f := Something(t);
      EventTells(Remembered(NOTHING, log[..n]), log[n], t, f);
      if SaidLast(log, 0, t, i) && i < n {
        EventTells(Remembered(NOTHING, log[..n]), log[n], t, log[i]);
      }
    }
  }

  lemma NothingBlank(t: Topic)
    ensures Blank(NOTHING, t)
  {}

  /** Within the conversation that is going on, the memory is on every topic what was said last, or blank
      when nothing was. */
  lemma MemoryTells(log: seq<Event>, s: nat, ttl: real, max: nat, t: Topic, i: nat)
    requires BeginsAt(log, s, ttl)
    ensures Run(log, ttl, max).Some?
    ensures SaidLast(log, s, t, i) ==> Agrees(Run(log, ttl, max).value.memory, t, log[i])
    ensures NeverSaid(log, s, t) ==> Blank(Run(log, ttl, max).value.memory, t)
  {
    hide Run, Agrees, Blank, Sets, Remembered;
    MemoryIsConversation(log, s, ttl, max);
    BeginsWithin(log, s, ttl);
    hide BeginsAt;
    var own := log[s..];
    if SaidLast(log, s, t, i) {
      assert own[i - s] == log[i];
      assert SaidLast(own, 0, t, i - s);
      RememberedTells(own, t, i - s);
    } else {
      RememberedTells(own, t, 0);
    }
  }

  /** And so is what is recalled at any time within the time to live; later nothing is. */
  lemma RecallTells(log: seq<Event>, s: nat, now: real, ttl: real, max: nat, t: Topic, i: nat)
    requires BeginsAt(log, s, ttl) && LastRefresh(log).Some?
    ensures var m := Recall(Run(log, ttl, max), now, ttl);
      if now - LastRefresh(log).value <= ttl
      then (SaidLast(log, s, t, i) ==> Agrees(m, t, log[i])) && (NeverSaid(log, s, t) ==> Blank(m, t))
      else Blank(m, t)
  {
    hide Run, Agrees, Blank, BeginsAt;
    RunTime(log, ttl, max);
    MemoryTells(log, s, ttl, max, t, i);
    NothingBlank(t);
  }

  // ----------------------------------------------------------------------
  // Taking over

  /** What an intent takes over: the room when neither it nor the satellite has one, the device when besides
      no category was said and no device, and the category when there is no device then. The rest stays. */
  lemma FilledIs(i: IntentValue, m: Memory, satelliteRoom: Option<string>)
    ensures var f := Filled(i, m, satelliteRoom);
      var noRoom := i.roomId == None && satelliteRoom == None;
      var device := noRoom && i.device == None && i.category == None && Present(m.deviceId);
      var named := i.deviceCandidates != [] || Present(i.deviceKey) ||
                   (if device then true else Present(i.device) || Present(i.deviceId));
      && (f.room, f.roomId) == (if noRoom && Present(m.roomId) then (m.room, m.roomId) else (i.room, i.roomId))
      && (f.device, f.deviceId) == (if device then (m.device, m.deviceId) else (i.device, i.deviceId))
      && f.category == (if i.category == None && Present(m.category) && !named then m.category else i.category)
      && (f.name, f.value, f.unit) == (i.name, i.value, i.unit)
      && f.deviceKey == i.deviceKey && f.deviceCandidates == i.deviceCandidates
  {}

  /** An utterance with a target but no action takes over the last one, its value and unit only when it has
      no value itself and there is one; any other stays as it is. */
  lemma WithActionIs(i: IntentValue, m: Memory)
    ensures var acts := i.name == "Unknown" && Present(m.action) &&
                        (Present(i.roomId) || Present(i.deviceId) || Present(i.category));
      var takes := acts && i.value == None && m.value.Some?;
      && (InheritsAction(i, m) <==> acts)
      && WithAction(i, m).name == (if acts then m.action.value else i.name)
      && (WithAction(i, m).value, WithAction(i, m).unit) == (if takes then (m.value, m.unit) else (i.value, i.unit))
      && WithAction(i, m).(name := i.name, value := i.value, unit := i.unit) == i
  {}

  /** "Und die Küche auch?": said in time, it does what the last device intent of the conversation did. */
  lemma FollowUpActs(log: seq<Event>, s: nat, now: real, ttl: real, max: nat, i: nat, u: IntentValue)
    requires BeginsAt(log, s, ttl) && LastRefresh(log).Some? && now - LastRefresh(log).value <= ttl
    requires SaidLast(log, s, ActionSaid, i)
    requires u.name == "Unknown" && Present(u.roomId)
    ensures var said, r := log[i].w.intent, WithAction(u, Recall(Run(log, ttl, max), now, ttl));
      && r.name == said.name && r.roomId == u.roomId
      && (u.value == None && said.value.Some? ==> r.value == said.value && r.unit == said.unit)
  {
    hide Run, BeginsAt;
    RecallTells(log, s, now, ttl, max, ActionSaid, i);
    WithActionIs(u, Recall(Run(log, ttl, max), now, ttl));
  }

  // ----------------------------------------------------------------------
  // Messages

  /** Every exchange is recorded with the user first, every spoken text as the assistant's, nothing else. */
  lemma RecordedMessages(log: seq<Event>, e: Event)
    ensures AllMessages(log + [e]) == AllMessages(log) +
              if e.Wrote? && e.w.Exchange? then [FromUser(e.w.user), FromAssistant(e.w.assistant)]
              else if e.Wrote? && e.w.Spoken? && e.w.text != "" then [FromAssistant(e.w.text)]
              else []
  {
    assert (log + [e])[..|log|] == log;
  }
}

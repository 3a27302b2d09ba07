/** What the texts of reported states make of a user's presence. */
module PresenceTexts {
  import opened Options
  import opened Text
  import opened PresenceFusion
  import opened PresenceTiming
  import opened PresenceRuns

  /** The text says away: nothing, "0", "off" or "false", with any space around it and in any case. */
  predicate SaysAway(text: string) {
    var t := Lower(Strip(text));
    t == "" || t == "0" || t == "off" || t == "false"
  }

  /** A user's sources all are this one state, and can say away. */
  predicate StateUser(all: seq<Source>, user: nat, stateId: string) {
    && Of(all, user) != []
    && (forall s :: s in Of(all, user) ==>
          s.sourceType == IoBrokerState && s.reference == stateId && s.awayConfidence > 0.0)
    && forall x, y :: x in all && y in all && x.id == y.id ==> x == y
  }

  /** All of the sources read what the text said. */
  predicate Read(sources: seq<Source>, raw: Readings, text: string) {
    forall s :: s in sources ==> s.id in raw && raw[s.id].home == !SaysAway(text)
  }

  /** A signal of the state gives its sources their reading, and no other signal changes it. */
  lemma {:induction false} StateIsRead(all: seq<Source>, part: seq<Source>, user: nat, stateId: string, raw: Readings,
                                       signal: Signal, now: real, s: Source)
    requires StateUser(all, user, stateId) && s in Of(all, user)
    requires forall x :: x in part ==> x in all
    ensures var after := Noted(raw, part, signal, now);
      if signal.StateChange? && signal.stateId == stateId && s in part
      then s.id in after && after[s.id].home == !SaysAway(signal.text)
      else (s.id in after <==> s.id in raw) && (s.id in raw ==> after[s.id] == raw[s.id])
    decreases |part|
  {
    OfMembers(all, user);
    hide Of, Lower, Strip;
    if part == [] {
    } else {
      var init, last := part[..|part| - 1], part[|part| - 1];
      assert part == init + [last];
      StateIsRead(all, init, user, stateId, raw, signal, now, s);
      assert last in all && (last.id == s.id ==> last == s);
    }
  }

  /** The state reports a text. */
  predicate Reported(stateId: string, m: Moment) {
    m.what.Signalled? && m.what.signal.StateChange? && m.what.signal.stateId == stateId
  }

  lemma SignalIsRead(all: seq<Source>, user: nat, stateId: string, raw: Readings, m: Moment, text: string)
    requires StateUser(all, user, stateId) && (Reported(stateId, m) || Read(Of(all, user), raw, text))
    ensures Read(Of(all, user), RawAt(raw, all, m), if Reported(stateId, m) then m.what.signal.text else text)
  {
    OfMembers(all, user);
    hide Of, StateUser, SaysAway, Noted;
    if m.what.Signalled? {
      var said := if Reported(stateId, m) then m.what.signal.text else text;
      forall s | s in Of(all, user)
        ensures s.id in RawAt(raw, all, m) && RawAt(raw, all, m)[s.id].home == !SaysAway(said)
      {
        StateIsRead(all, all, user, stateId, raw, m.what.signal, m.now, s);
      }
    }
  }

  /** After a text the user is away if and only if the text is one of the four. */
  lemma TextVerdict(cfg: Config, all: seq<Source>, user: nat, stateId: string, raw: Readings, text: string, now: real)
    requires StateUser(all, user, stateId) && Read(Of(all, user), raw, text)
    ensures AwayWins(cfg, Of(all, user), raw, now) <==> Lower(Strip(text)) in {"", "0", "off", "false"}
  {
    hide AwayWins, Of, Lower, Strip;
    var sources := Of(all, user);
    AwayWinsMeaning(cfg, sources, raw, now);
    assert sources[0] in sources;
    if SaysAway(text) {
      assert CountsAway(cfg, sources[0], raw, now);
    }
  }

  /** What the state reported last. */
  function LastText(stateId: string, run: seq<Moment>): Option<string> {
    if run == [] then None
    else
      var m := run[|run| - 1];
      if Reported(stateId, m) then Some(m.what.signal.text) else LastText(stateId, run[..|run| - 1])
  }

  /** The user is looked at when the state reports, on ticks, and on BLE sightings of the user. */
  predicate LooksAt(user: nat, stateId: string, m: Moment) {
    Reported(stateId, m) || m.what.Ticked? || m.what == Signalled(Sighting(user))
  }

  /** Those moments, and whether the text reported last then says away. */
  function TextEvals(user: nat, stateId: string, run: seq<Moment>): seq<Eval> {
    if run == [] then []
    else
      var m, text := run[|run| - 1], LastText(stateId, run);
      TextEvals(user, stateId, run[..|run| - 1]) +
      (if LooksAt(user, stateId, m) then [Eval(m.now, text.Some? && SaysAway(text.value))] else [])
  }

  lemma LooksIffEvaluates(all: seq<Source>, user: nat, stateId: string, m: Moment)
    requires StateUser(all, user, stateId)
    ensures LooksAt(user, stateId, m) <==> Evaluates(all, user, m.what)
  {
    OfMembers(all, user);
    var s := Of(all, user)[0];
    assert s in Of(all, user) && s in all && s.user == user && s.sourceType == IoBrokerState && s.reference == stateId;
    hide Of;
    if m.what.Signalled? && m.what.signal.StateChange? {
      var signal := m.what.signal;
      if signal.stateId == stateId {
        assert Reports(s, signal);
      } else {
        forall x | x in all && Reports(x, signal)
          ensures x.user != user
        {
          assert x.user == user ==> x in Of(all, user);
        }
      }
    }
  }

  /** In a run that begins with a report, the evaluations go by the text reported last. */
  lemma {:induction false} TextsAreEvals(cfg: Config, all: seq<Source>, user: nat, stateId: string, raw: Readings,
                                         run: seq<Moment>)
    requires StateUser(all, user, stateId) && run != [] && Reported(stateId, run[0])
    ensures EvalsOf(cfg, all, user, raw, run) == TextEvals(user, stateId, run)
    ensures LastText(stateId, run).Some?
    ensures Read(Of(all, user), RawAfter(raw, all, run), LastText(stateId, run).value)
  {
    hide AwayWins, Noted, Of, StateUser, Read, Evaluates, LooksAt;
    var init, m := run[..|run| - 1], run[|run| - 1];
    LooksIffEvaluates(all, user, stateId, m);
    if init == [] {
      SignalIsRead(all, user, stateId, RawAfter(raw, all, init), m, "");
    } else {
      TextsAreEvals(cfg, all, user, stateId, raw, init);
      SignalIsRead(all, user, stateId, RawAfter(raw, all, init), m, LastText(stateId, init).value);
    }
    TextVerdict(cfg, all, user, stateId, RawAfter(raw, all, run), LastText(stateId, run).value, m.now);
    TextAway(LastText(stateId, run).value);
  }

  lemma TextAway(text: string)
    ensures SaysAway(text) <==> Lower(Strip(text)) in {"", "0", "off", "false"}
  {}

  /** From the first report on, an awake user is away if and only if every text reported in the time looked
      at said away, for at least the grace period up to the last look, or in the whole run of one who was away. */
  lemma TextPresenceIff(cfg: Config, all: seq<Source>, user: nat, stateId: string, w: Watch, run: seq<Moment>)
    requires StateUser(all, user, stateId) && run != [] && Reported(stateId, run[0]) && Timed(run)
    requires w.user.pending == None && w.user.presence in {Some(Home), Some(Away)}
    ensures var evals := TextEvals(user, stateId, run);
      After(cfg, all, user, w, run).user.presence ==
        Some(if AwayForGrace(evals, cfg.grace) || (w.user.presence == Some(Away) && forall e :: e in evals ==> e.away)
             then Away else Home)
  {
    hide AwayForGrace, StateUser, Timed;
    TextsAreEvals(cfg, all, user, stateId, w.raw, run);
    PresenceIff(cfg, all, user, w, run);
  }

  lemma {:induction false} LastLook(user: nat, stateId: string, run: seq<Moment>)
    requires run != [] && Reported(stateId, run[0])
    ensures var evals, text := TextEvals(user, stateId, run), LastText(stateId, run);
      text.Some? && evals != [] && evals[|evals| - 1].away == SaysAway(text.value)
  {
    hide SaysAway;
    if |run| > 1 {
      LastLook(user, stateId, run[..|run| - 1]);
    } else {
      assert run[..0] == [];
    }
  }

  /** As soon as the state reports any other text, and as long as it does not report one of the four again,
      an awake user is home. */
  lemma HomeAtOnce(cfg: Config, all: seq<Source>, user: nat, stateId: string, w: Watch, run: seq<Moment>)
    requires StateUser(all, user, stateId) && run != [] && Reported(stateId, run[0]) && Timed(run)
    requires w.user.pending == None && w.user.presence in {Some(Home), Some(Away)}
    requires var text := LastText(stateId, run);
      text.Some? && Lower(Strip(text.value)) !in {"", "0", "off", "false"}
    ensures After(cfg, all, user, w, run).user.presence == Some(Home)
  {
    hide StateUser, Timed;
    TextPresenceIff(cfg, all, user, stateId, w, run);
    LastLook(user, stateId, run);
    TextAway(LastText(stateId, run).value);
    var evals := TextEvals(user, stateId, run);
    assert evals[|evals| - 1] in evals;
  }
}

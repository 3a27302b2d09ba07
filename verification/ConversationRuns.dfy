/** What a source's context remembers over a whole run: only what was said in
    the current conversation, and every message exactly once. */
module ConversationRuns {
  import opened Options
  import opened Conversations

  function Run(log: seq<Event>, ttl: real, max: nat): Option<Context> {
    if log == [] then None else Step(Run(log[..|log| - 1], ttl, max), log[|log| - 1], ttl, max)
  }

  /** An event that keeps the conversation going. */
  predicate Refreshes(e: Event) {
    e.Wrote? && e.w != Spoken("")
  }

  function LastRefresh(log: seq<Event>): Option<real> {
    if log == [] then None
    else if Refreshes(log[|log| - 1]) then Some(log[|log| - 1].now)
    else LastRefresh(log[..|log| - 1])
  }

  // ----------------------------------------------------------------------
  // Memory

  /** What the events make of a memory, whenever they happen. */
  function Remembered(m: Memory, log: seq<Event>): Memory {
    if log == [] then m
    else
      var before, e := Remembered(m, log[..|log| - 1]), log[|log| - 1];
      if e.Wrote? then Remember(before, e.w)
      else if e.Answered? then before.(clarification := None)
      else before
  }

  /** The k-th event, if it refreshes, comes within the time to live of the refresh before it. */
  predicate LinkedAt(log: seq<Event>, k: nat, ttl: real)
    requires k < |log|
  {
    Refreshes(log[k]) ==> LastRefresh(log[..k]).Some? && log[k].now - LastRefresh(log[..k]).value <= ttl
  }

  /** The conversation that is going on at the end of the log begins with its s-th event: a refresh
      out of reach of any before, from which on each refresh is linked to the one before. */
  ghost predicate BeginsAt(log: seq<Event>, s: nat, ttl: real) {
    && s < |log| && Refreshes(log[s]) && !LinkedAt(log, s, ttl)
    && forall k :: s < k < |log| ==> LinkedAt(log, k, ttl)
  }

  lemma {:induction false} RunTime(log: seq<Event>, ttl: real, max: nat)
    ensures (Run(log, ttl, max) == None) == (LastRefresh(log) == None)
    ensures LastRefresh(log).Some? ==> Run(log, ttl, max).value.ts == LastRefresh(log).value
  {
    if log == [] {
    } else {
      RunTime(log[..|log| - 1], ttl, max);
    }
  }

  /** Every log with a refresh has a conversation that is going on at its end. */
  lemma {:induction false} SomeBeginning(log: seq<Event>, ttl: real) returns (s: nat)
    requires LastRefresh(log).Some?
    ensures BeginsAt(log, s, ttl)
  {
    var n := |log| - 1;
    var init := log[..n];
    if Refreshes(log[n]) && !LinkedAt(log, n, ttl) {
      s := n;
    } else {
      s := SomeBeginning(init, ttl);
      assert log[..s] == init[..s];
      forall k | s < k < |log|
        ensures LinkedAt(log, k, ttl)
      {
        if k < n {
          assert LinkedAt(init, k, ttl) && log[..k] == init[..k];
        }
      }
    }
  }

  /** The memory is what the current conversation alone made of it. */
  lemma {:induction false} MemoryIsConversation(log: seq<Event>, s: nat, ttl: real, max: nat)
    requires BeginsAt(log, s, ttl)
    ensures Run(log, ttl, max).Some? && Run(log, ttl, max).value.memory == Remembered(NOTHING, log[s..])
  {
    var n := |log| - 1;
    var init := log[..n];
    RunTime(init, ttl, max);
    assert log[s..][..n - s] == init[s..];
    if s < n {
      assert LinkedAt(log, n, ttl);
      assert log[..s] == init[..s];
      forall k | s < k < n
        ensures LinkedAt(init, k, ttl)
      {
        assert LinkedAt(log, k, ttl) && log[..k] == init[..k];
      }
      MemoryIsConversation(init, s, ttl, max);
    } else {
      assert init[s..] == [];
    }
  }

  /** What is read at any time stems from the conversation going on then, whose utterances follow one
      another within the time to live; without one, nothing is remembered. Nothing that lapsed once
      comes back. */
  lemma RecallIsConversation(log: seq<Event>, now: real, ttl: real, max: nat) returns (s: nat)
    ensures LastRefresh(log).Some? && now - LastRefresh(log).value <= ttl ==>
      BeginsAt(log, s, ttl) && Recall(Run(log, ttl, max), now, ttl) == Remembered(NOTHING, log[s..])
    ensures LastRefresh(log) == None || now - LastRefresh(log).value > ttl ==>
      Recall(Run(log, ttl, max), now, ttl) == NOTHING
  {
    RunTime(log, ttl, max);
    s := 0;
    if LastRefresh(log).Some? {
      s := SomeBeginning(log, ttl);
      MemoryIsConversation(log, s, ttl, max);
    }
  }

  // ----------------------------------------------------------------------
  // History

  /** All messages ever recorded for the source. */
  function AllMessages(log: seq<Event>): seq<Message> {
    if log == [] then []
    else
      var e := log[|log| - 1];
      AllMessages(log[..|log| - 1]) + (if Refreshes(e) then Messages(e.w) else [])
  }

  /** Where a message that is no longer in the history went. */
  datatype Gone = PushedOut(m: Message) | HandedOver(m: Message)

  function Marked(ms: seq<Message>, handed: bool): seq<Gone> {
    seq(|ms|, i requires 0 <= i < |ms| => Mark(ms[i], handed))
  }

  function History(c: Option<Context>): seq<Message> {
    if c == None then [] else c.value.history
  }

  /** The messages that left the history, in the order they left it. */
  function Left(log: seq<Event>, ttl: real, max: nat): seq<Gone> {
    if log == [] then []
    else
      var before, e := log[..|log| - 1], log[|log| - 1];
      var c := Run(before, ttl, max);
      Left(before, ttl, max) +
      match e
      case Wrote(w, now) =>
        if Refreshes(e) then Marked(PushAll(History(c), Messages(w), max).1, false) else []
      case Answered => []
      case Swept(now) =>
        if c.Some? && Lapsed(c.value, now, ttl) then Marked(c.value.history, true) else []
  }

  function Unmarked(gone: seq<Gone>): seq<Message> {
    seq(|gone|, i requires 0 <= i < |gone| => gone[i].m)
  }

  lemma PushConserves(h: seq<Message>, m: Message, max: nat)
    requires |h| <= max
    ensures var (h', out) := Push(h, m, max); out + h' == h + [m] && |h'| <= max && (out != [] ==> |h'| == max)
    ensures |h| == max ==> |Push(h, m, max).0| == max
  {}

  lemma {:induction false} PushAllConserves(h: seq<Message>, ms: seq<Message>, max: nat)
    requires |h| <= max
    ensures var (h', out) := PushAll(h, ms, max); out + h' == h + ms && |h'| <= max && (out != [] ==> |h'| == max)
  {
    hide Push;
    if ms == [] {
      assert h + ms == h;
    } else {
      var init, m := ms[..|ms| - 1], ms[|ms| - 1];
      PushAllConserves(h, init, max);
      var (h1, out1) := PushAll(h, init, max);
      PushConserves(h1, m, max);
      var (h2, out2) := Push(h1, m, max);
      assert (out1 + out2) + h2 == out1 + (out2 + h2) == out1 + (h1 + [m]) == (out1 + h1) + [m];
      assert (h + init) + [m] == h + ms;
    }
  }

  lemma UnmarkedMarked(gone: seq<Gone>, ms: seq<Message>, handed: bool)
    ensures Unmarked(gone + Marked(ms, handed)) == Unmarked(gone) + ms
  {}

  /** Every message recorded is, in order and exactly once, among those that left the history or still
      in it; and the history never holds more than its bound. */
  lemma {:induction false} MessagesConserved(log: seq<Event>, ttl: real, max: nat)
    ensures AllMessages(log) == Unmarked(Left(log, ttl, max)) + History(Run(log, ttl, max))
    ensures |History(Run(log, ttl, max))| <= max
  {
    hide PushAll, Marked, Unmarked, History, Step, Run, Left, SweptAwayAt;
    if log == [] {
      NothingLeft(ttl, max);
    } else {
      var before, e := log[..|log| - 1], log[|log| - 1];
      MessagesConserved(before, ttl, max);
      HistoryStep(log, ttl, max);
      LastLeft(log, ttl, max);
      var gone, h := Left(before, ttl, max), History(Run(before, ttl, max));
      if Refreshes(e) {
        PushAllConserves(h, Messages(e.w), max);
        var (h', out) := PushAll(h, Messages(e.w), max);
        UnmarkedMarked(gone, out, false);
        Regroup(Unmarked(gone), h, Messages(e.w), out, h');
      } else if SweptAwayAt(log, |log| - 1, ttl) {
        UnmarkedMarked(gone, h, true);
        assert Unmarked(gone) + h + [] == Unmarked(gone) + h;
        assert AllMessages(before) + [] == AllMessages(before);
      } else {
        assert gone + [] == gone && AllMessages(before) + [] == AllMessages(before);
      }
    }
  }

  lemma Regroup(gone: seq<Message>, h: seq<Message>, more: seq<Message>, out: seq<Message>, h': seq<Message>)
    requires out + h' == h + more
    ensures gone + h + more == gone + out + h'
  {
    assert gone + (h + more) == gone + h + more && gone + (out + h') == gone + out + h';
  }

  /** What one event makes leave the history. */
  lemma LastLeft(log: seq<Event>, ttl: real, max: nat)
    requires log != []
    ensures var n := |log| - 1;
      var h := History(Run(log[..n], ttl, max));
      Left(log, ttl, max) == Left(log[..n], ttl, max) +
        if Refreshes(log[n]) then Marked(PushAll(h, Messages(log[n].w), max).1, false)
        else if SweptAwayAt(log, n, ttl) then Marked(h, true)
        else []
  {
    hide PushAll, Marked, Step;
    SweptIff(log, ttl, max);
  }

  lemma NothingLeft(ttl: real, max: nat)
    ensures Unmarked(Left([], ttl, max)) == [] == History(Run([], ttl, max))
  {}

  /** A sweep finds the context lapsed exactly when the last refresh is too long ago. */
  lemma SweptIff(log: seq<Event>, ttl: real, max: nat)
    requires log != []
    ensures var n := |log| - 1;
      var c := Run(log[..n], ttl, max);
      SweptAwayAt(log, n, ttl) <==> log[n].Swept? && c.Some? && Lapsed(c.value, log[n].now, ttl)
  {
    RunTime(log[..|log| - 1], ttl, max);
  }

  /** The histories handed over so far, one after the other. */
  function Handed(log: seq<Event>, ttl: real, max: nat): seq<seq<Message>> {
    if log == [] then []
    else Handed(log[..|log| - 1], ttl, max) + HandedBy(Run(log[..|log| - 1], ttl, max), log[|log| - 1], ttl)
  }

  function Flat(batches: seq<seq<Message>>): seq<Message> {
    if batches == [] then [] else Flat(batches[..|batches| - 1]) + batches[|batches| - 1]
  }

  function OnlyHanded(gone: seq<Gone>): seq<Message> {
    if gone == [] then []
    else OnlyHanded(gone[..|gone| - 1]) + (if gone[|gone| - 1].HandedOver? then [gone[|gone| - 1].m] else [])
  }

  lemma {:induction false} OnlyHandedMarked(gone: seq<Gone>, ms: seq<Message>, handed: bool)
    ensures OnlyHanded(gone + Marked(ms, handed)) == OnlyHanded(gone) + (if handed then ms else [])
  {
    if ms == [] {
      assert gone + Marked(ms, handed) == gone;
    } else {
      var n := |ms| - 1;
      OnlyHandedMarked(gone, ms[..n], handed);
      MarkedOneMore(gone, ms, handed);
      hide Marked;
      OnlyHandedOneMore(gone + Marked(ms[..n], handed), ms[n], handed);
      assert OnlyHanded(gone) + ms[..n] + [ms[n]] == OnlyHanded(gone) + ms;
    }
  }

  function Mark(m: Message, handed: bool): Gone {
    if handed then HandedOver(m) else PushedOut(m)
  }

  lemma MarkedOneMore(gone: seq<Gone>, ms: seq<Message>, handed: bool)
    requires ms != []
    ensures var n := |ms| - 1;
      gone + Marked(ms, handed) == gone + Marked(ms[..n], handed) + [Mark(ms[n], handed)]
  {}

  lemma OnlyHandedOneMore(gone: seq<Gone>, m: Message, handed: bool)
    ensures OnlyHanded(gone + [Mark(m, handed)]) == OnlyHanded(gone) + (if handed then [m] else [])
  {
    assert (gone + [Mark(m, handed)])[..|gone|] == gone;
  }

  /** What the callback received is, in order, exactly the messages that left the history by being
      handed over. */
  lemma {:induction false} HandedOverOnce(log: seq<Event>, ttl: real, max: nat)
    ensures Flat(Handed(log, ttl, max)) == OnlyHanded(Left(log, ttl, max))
  {
    if log == [] {
    } else {
      var before, e := log[..|log| - 1], log[|log| - 1];
      HandedOverOnce(before, ttl, max);
      var c, gone, handed := Run(before, ttl, max), Left(before, ttl, max), Handed(before, ttl, max);
      if Refreshes(e) {
        OnlyHandedMarked(gone, PushAll(History(c), Messages(e.w), max).1, false);
        assert Handed(log, ttl, max) == handed;
      } else if e.Swept? && c.Some? && Lapsed(c.value, e.now, ttl) {
        OnlyHandedMarked(gone, c.value.history, true);
        if c.value.history == [] {
          assert Handed(log, ttl, max) == handed;
        } else {
          assert Handed(log, ttl, max)[..|handed|] == handed;
        }
      } else {
        assert Left(log, ttl, max) == gone;
        assert Handed(log, ttl, max) == handed;
      }
    }
  }

  // ----------------------------------------------------------------------
  // Messages of earlier conversations

  /** The k-th event is a sweep that finds the conversation lapsed. */
  predicate SweptAwayAt(log: seq<Event>, k: nat, ttl: real)
    requires k < |log|
  {
    log[k].Swept? && LastRefresh(log[..k]).Some? && log[k].now - LastRefresh(log[..k]).value > ttl
  }

  /** The first event after the last such sweep. */
  function KeptFrom(log: seq<Event>, ttl: real): (f: nat)
    ensures f <= |log|
  {
    if log == [] then 0
    else if SweptAwayAt(log, |log| - 1, ttl) then |log|
    else KeptFrom(log[..|log| - 1], ttl)
  }

  lemma {:induction false} KeptFromIff(log: seq<Event>, j: nat, ttl: real)
    requires j <= |log|
    ensures KeptFrom(log, ttl) <= j <==> forall k :: j <= k < |log| ==> !SweptAwayAt(log, k, ttl)
  {
    if log == [] {
    } else {
      var n := |log| - 1;
      if j <= n {
        var init := log[..n];
        KeptFromIff(init, j, ttl);
        forall k | j <= k < n
          ensures SweptAwayAt(init, k, ttl) <==> SweptAwayAt(log, k, ttl)
        {
          assert init[..k] == log[..k];
        }
      }
    }
  }

  /** The last messages, as many as there is room for. */
  function Recent(ms: seq<Message>, max: nat): seq<Message> {
    if |ms| <= max then ms else ms[|ms| - max..]
  }

  lemma PushAllIsRecent(h: seq<Message>, ms: seq<Message>, max: nat)
    requires |h| <= max
    ensures PushAll(h, ms, max).0 == Recent(h + ms, max)
  {
    PushAllConserves(h, ms, max);
    var (h', out) := PushAll(h, ms, max);
    assert (out + h')[|out|..] == h';
  }

  lemma RecentTwice(a: seq<Message>, b: seq<Message>, max: nat)
    ensures Recent(Recent(a, max) + b, max) == Recent(a + b, max)
  {}

  /** What one event makes of the history. */
  lemma HistoryStep(log: seq<Event>, ttl: real, max: nat)
    requires log != []
    ensures var n := |log| - 1;
      var h := History(Run(log[..n], ttl, max));
      History(Run(log, ttl, max)) ==
        if Refreshes(log[n]) then PushAll(h, Messages(log[n].w), max).0
        else if SweptAwayAt(log, n, ttl) then []
        else h
  {
    hide PushAll, Remember;
    RunTime(log[..|log| - 1], ttl, max);
  }

  lemma HistoryBounded(log: seq<Event>, ttl: real, max: nat)
    ensures |History(Run(log, ttl, max))| <= max
  {
    MessagesConserved(log, ttl, max);
  }

  /** The history is what was said last since the last sweep that found the conversation lapsed,
      in however many conversations. */
  lemma {:induction false} HistoryIsRecent(log: seq<Event>, ttl: real, max: nat)
    ensures History(Run(log, ttl, max)) == Recent(AllMessages(log[KeptFrom(log, ttl)..]), max)
  {
    hide PushAll, Recent, Run, SweptAwayAt, Messages;
    if log == [] {
      NothingSaid(ttl, max);
    } else {
      var init, e, f := log[..|log| - 1], log[|log| - 1], KeptFrom(log, ttl);
      HistoryIsRecent(init, ttl, max);
      HistoryStep(log, ttl, max);
      if SweptAwayAt(log, |log| - 1, ttl) {
        NoneBoth(log, |log| - 1, ttl);
        assert log[f..] == [];
        NothingSaid(ttl, max);
      } else {
        assert log[f..][..|log[f..]| - 1] == init[f..] && log[f..][|log[f..]| - 1] == e;
        if Refreshes(e) {
          HistoryBounded(init, ttl, max);
          PushAllIsRecent(History(Run(init, ttl, max)), Messages(e.w), max);
          RecentTwice(AllMessages(init[f..]), Messages(e.w), max);
        } else {
          assert AllMessages(init[f..]) + [] == AllMessages(init[f..]) == AllMessages(log[f..]);
        }
      }
    }
  }

  lemma NothingSaid(ttl: real, max: nat)
    ensures History(Run([], ttl, max)) == [] == Recent(AllMessages([]), max)
  {}

  lemma NoneBoth(log: seq<Event>, k: nat, ttl: real)
    requires k < |log| && SweptAwayAt(log, k, ttl)
    ensures !Refreshes(log[k])
  {}

  /** The event records messages. */
  predicate Speaks(e: Event) {
    Refreshes(e) && Messages(e.w) != []
  }

  lemma {:induction false} MessagesIffSpoken(log: seq<Event>)
    ensures AllMessages(log) != [] <==> exists j :: 0 <= j < |log| && Speaks(log[j])
  {
    if log == [] {
    } else {
      var n := |log| - 1;
      MessagesIffSpoken(log[..n]);
      assert AllMessages(log) != [] <==> AllMessages(log[..n]) != [] || Speaks(log[n]);
      hide Speaks, AllMessages;
      assert log == log[..n] + [log[n]];
    }
  }

  lemma {:induction false} MessagesAppend(a: seq<Event>, b: seq<Event>)
    ensures AllMessages(a + b) == AllMessages(a) + AllMessages(b)
  {
    if b == [] {
      assert a + b == a;
    } else {
      MessagesAppend(a, b[..|b| - 1]);
      assert (a + b)[..|a + b| - 1] == a + b[..|b| - 1];
    }
  }

  /** Some message is from before the s-th event, and no sweep has found it lapsed since. */
  ghost predicate Unswept(log: seq<Event>, s: nat, ttl: real) {
    exists j :: 0 <= j < s <= |log| && Speaks(log[j]) && forall k :: j < k < |log| ==> !SweptAwayAt(log, k, ttl)
  }

  lemma UnsweptIff(log: seq<Event>, s: nat, ttl: real)
    requires s <= |log|
    ensures var f := KeptFrom(log, ttl); Unswept(log, s, ttl) <==> f <= s && AllMessages(log[f..s]) != []
  {
    hide SweptAwayAt, Speaks, AllMessages, KeptFrom;
    var f := KeptFrom(log, ttl);
    if Unswept(log, s, ttl) {
      var j :| 0 <= j < s && Speaks(log[j]) && forall k :: j < k < |log| ==> !SweptAwayAt(log, k, ttl);
      SpokenNotSwept(log, j, ttl);
      KeptFromIff(log, j, ttl);
      assert log[f..s][j - f] == log[j];
      MessagesIffSpoken(log[f..s]);
    }
    if f <= s && AllMessages(log[f..s]) != [] {
      MessagesIffSpoken(log[f..s]);
      var i :| 0 <= i < |log[f..s]| && Speaks(log[f..s][i]);
      assert log[f + i] == log[f..s][i];
      KeptFromIff(log, f, ttl);
    }
  }

  lemma SpokenNotSwept(log: seq<Event>, j: nat, ttl: real)
    requires j < |log| && Speaks(log[j])
    ensures !SweptAwayAt(log, j, ttl)
  {}

  /** Messages are held if and only if there is room for any and some were recorded that no sweep has
      found lapsed since. */
  lemma HistoryHeldIff(log: seq<Event>, ttl: real, max: nat)
    ensures History(Run(log, ttl, max)) != [] <==> max > 0 && Unswept(log, |log|, ttl)
  {
    hide Run, Unswept;
    HistoryIsRecent(log, ttl, max);
    UnsweptIff(log, |log|, ttl);
    assert log[KeptFrom(log, ttl)..|log|] == log[KeptFrom(log, ttl)..];
  }

  /** When forgetting fails: the conversation that begins at s can read messages from before it if and
      only if its own leave room for one and one was recorded before that no sweep has found lapsed.
      Otherwise it reads its own messages only. */
  lemma OldMessagesReturnIff(log: seq<Event>, s: nat, ttl: real, max: nat)
    requires BeginsAt(log, s, ttl)
    ensures var h, own := History(Run(log, ttl, max)), AllMessages(log[s..]);
      && (|h| > |own| <==> |own| < max && Unswept(log, s, ttl))
      && (if |h| > |own| then h[|h| - |own|..] == own else h == own[|own| - |h|..])
  {
    hide Run, Recent, AllMessages, Unswept, BeginsAt;
    BeginsWithin(log, s, ttl);
    var f := KeptFrom(log, ttl);
    HistoryIsRecent(log, ttl, max);
    UnsweptIff(log, s, ttl);
    if f <= s {
      assert log[f..] == log[f..s] + log[s..];
      MessagesAppend(log[f..s], log[s..]);
      RecentSplit(AllMessages(log[f..s]), AllMessages(log[s..]), max);
    } else {
      assert log[s..] == log[s..f] + log[f..];
      MessagesAppend(log[s..f], log[f..]);
      RecentSuffix(AllMessages(log[s..f]), AllMessages(log[f..]), max);
    }
  }

  lemma BeginsWithin(log: seq<Event>, s: nat, ttl: real)
    requires BeginsAt(log, s, ttl)
    ensures s < |log|
  {}

  lemma RecentSplit(earlier: seq<Message>, own: seq<Message>, max: nat)
    ensures var h := Recent(earlier + own, max);
      && (|h| > |own| <==> |own| < max && earlier != [])
      && (if |h| > |own| then h[|h| - |own|..] == own else h == own[|own| - |h|..])
  {}

  lemma RecentSuffix(before: seq<Message>, after: seq<Message>, max: nat)
    ensures var h, own := Recent(after, max), before + after; |h| <= |own| && h == own[|own| - |h|..]
  {}

  /** The exception to forgetting: a message still in the history when the next utterance comes after
      the conversation lapsed, but before a sweep, can be read again. */
  lemma LapsedHistoryReturns(ttl: real, max: nat)
    requires ttl >= 0.0 && max >= 2
    ensures var log := [Wrote(Spoken("old"), 0.0), Wrote(Smalltalk(true), ttl + 1.0)];
      History(Run(log, ttl, max)) == [FromAssistant("old")] && Lapsed(Run(log[..1], ttl, max).value, ttl + 1.0, ttl)
  {
    var log := [Wrote(Spoken("old"), 0.0), Wrote(Smalltalk(true), ttl + 1.0)];
    var first := [Wrote(Spoken("old"), 0.0)];
    assert log[..1] == first && first[..0] == [];
    var ms := [FromAssistant("old")];
    assert ms[..0] == [] && PushAll([], ms, max).0 == ms;
    assert Run(first, ttl, max) == Some(Context(NOTHING, ms, 0.0));
    assert PushAll(ms, [], max).0 == ms;
  }
}

/** Counting open streams: the total with its saturation warning, and the
    streams of each instance. */
module StreamCounters {
  import opened Options

  /** All open streams, and whether the warning has been given. */
  datatype Gauge = Gauge(open: int, saturated: bool)

  datatype Event = Open | Close

  /** At least 80 % of the worker pool. */
  predicate Crowded(limit: Option<nat>, open: int) {
    limit.Some? && 10 * open >= 8 * limit.value
  }

  /** Down to 60 % of the worker pool. */
  predicate Relieved(limit: Option<nat>, open: int) {
    limit.Some? && 10 * open <= 6 * limit.value
  }

  predicate Warns(limit: Option<nat>, g: Gauge, e: Event) {
    e.Open? && !g.saturated && Crowded(limit, g.open + 1)
  }

  function Step(limit: Option<nat>, g: Gauge, e: Event): Gauge {
    match e
    case Open => Gauge(g.open + 1, g.saturated || Crowded(limit, g.open + 1))
    case Close => Gauge(g.open - 1, g.saturated && !Relieved(limit, g.open - 1))
  }

  class StreamCounter {
    const limit: Option<nat>
    var openStreams: int
    var saturated: bool

    /** Nothing is saturated without a limit. */
    ghost predicate Valid()
      reads this
    {
      saturated ==> limit.Some?
    }

    constructor (limit: Option<nat>)
      ensures Valid() && this.limit == limit && openStreams == 0 && !saturated
    {
      this.limit, openStreams, saturated := limit, 0, false;
    }

    method StreamOpened() returns (warn: bool)
      requires Valid()
      modifies this
      ensures Valid()
      ensures warn == Warns(limit, Gauge(old(openStreams), old(saturated)), Open)
      ensures Gauge(openStreams, saturated) == Step(limit, Gauge(old(openStreams), old(saturated)), Open)
    {
      openStreams := openStreams + 1;
      warn := limit != None && !saturated && 10 * openStreams >= 8 * limit.value;
      if warn {
        saturated := true;
      }
    }

    method StreamClosed()
      requires Valid()
      modifies this
      ensures Valid()
      ensures Gauge(openStreams, saturated) == Step(limit, Gauge(old(openStreams), old(saturated)), Close)
    {
      openStreams := openStreams - 1;
      if saturated && 10 * openStreams <= 6 * limit.value {
        saturated := false;
      }
    }
  }

  function After(limit: Option<nat>, events: seq<Event>): Gauge {
    if events == [] then Gauge(0, false)
    else Step(limit, After(limit, events[..|events| - 1]), events[|events| - 1])
  }

  /** Whether the k-th event gives a warning. */
  predicate WarnsAt(limit: Option<nat>, events: seq<Event>, k: nat)
    requires k < |events|
  {
    Warns(limit, After(limit, events[..k]), events[k])
  }

  /** Whether the k-th event brings the total down to 60 %. */
  predicate RelievesAt(limit: Option<nat>, events: seq<Event>, k: nat)
    requires k < |events|
  {
    events[k].Close? && Relieved(limit, After(limit, events[..k + 1]).open)
  }

  /** The warning is on exactly when one was given and the total has not fallen to 60 % since. */
  ghost predicate WarnedSince(limit: Option<nat>, events: seq<Event>, n: nat)
    requires n <= |events|
  {
    exists i :: 0 <= i < n && WarnsAt(limit, events, i) && forall k :: i < k < n ==> !RelievesAt(limit, events, k)
  }

  lemma SaturatedStep(limit: Option<nat>, events: seq<Event>, n: nat)
    requires n < |events|
    ensures After(limit, events[..n + 1]).saturated <==>
      WarnsAt(limit, events, n) || (After(limit, events[..n]).saturated && !RelievesAt(limit, events, n))
    ensures WarnsAt(limit, events, n) ==> !RelievesAt(limit, events, n)
  {
    assert events[..n + 1][..n] == events[..n];
  }

  lemma WarnedStep(limit: Option<nat>, events: seq<Event>, n: nat)
    requires n < |events|
    ensures WarnedSince(limit, events, n + 1) <==>
      WarnsAt(limit, events, n) || (WarnedSince(limit, events, n) && !RelievesAt(limit, events, n))
  {
    hide WarnsAt, RelievesAt;
    if WarnedSince(limit, events, n) && !RelievesAt(limit, events, n) {
      var i :| 0 <= i < n && WarnsAt(limit, events, i) && forall k :: i < k < n ==> !RelievesAt(limit, events, k);
      assert WarnsAt(limit, events, i);
    }
  }

  lemma {:induction false} SaturatedIffWarnedSince(limit: Option<nat>, events: seq<Event>, n: nat)
    requires n <= |events|
    ensures After(limit, events[..n]).saturated <==> WarnedSince(limit, events, n)
  {
    hide WarnsAt, RelievesAt, WarnedSince;
    if n == 0 {
      NoneWarned(limit, events);
    } else {
      SaturatedIffWarnedSince(limit, events, n - 1);
      SaturatedStep(limit, events, n - 1);
      WarnedStep(limit, events, n - 1);
    }
  }

  lemma NoneWarned(limit: Option<nat>, events: seq<Event>)
    ensures !WarnedSince(limit, events, 0)
  {}

  /** A stream is warned about exactly when it crowds the pool and no earlier warning still stands:
      between two warnings the total fell to 60 % of the limit. */
  lemma WarnsExactly(limit: Option<nat>, events: seq<Event>, j: nat)
    requires j < |events|
    ensures WarnsAt(limit, events, j) <==>
      && events[j].Open? && Crowded(limit, After(limit, events[..j]).open + 1)
      && forall i :: 0 <= i < j && WarnsAt(limit, events, i) ==> exists k :: i < k < j && RelievesAt(limit, events, k)
  {
    SaturatedIffWarnedSince(limit, events, j);
  }

  // ----------------------------------------------------------------------
  // Streams per instance

  /** Handler wrappers that are running, each with the entry it counts on (if it has an identity),
      and the counts of the entries. */
  datatype Counts = Counts(running: map<nat, Option<nat>>, streams: map<nat, nat>, total: int)

  datatype Call = Entered(wrapper: nat, entry: Option<nat>) | Left(wrapper: nat)

  function Streams(c: Counts, e: nat): nat {
    if e in c.streams then c.streams[e] else 0
  }

  /** `opened` on entering a wrapper and `closed` in its finally. */
  function Count(c: Counts, call: Call): Counts {
    match call
    case Entered(w, e) =>
      if w in c.running then c
      else Counts(c.running[w := e],
                  if e.Some? then c.streams[e.value := Streams(c, e.value) + 1] else c.streams,
                  c.total + 1)
    case Left(w) =>
      if w !in c.running then c
      else
        var e := c.running[w];
        Counts(c.running - {w},
               if e.Some? then
                 c.streams[e.value := if Streams(c, e.value) == 0 then 0 else Streams(c, e.value) - 1]
               else c.streams,
               c.total - 1)
  }

  function CountAll(calls: seq<Call>): Counts {
    if calls == [] then Counts(map[], map[], 0) else Count(CountAll(calls[..|calls| - 1]), calls[|calls| - 1])
  }

  function On(running: map<nat, Option<nat>>, e: nat): set<nat> {
    set w | w in running && running[w] == Some(e)
  }

  /** Every entry's stream count is the number of its running wrappers, and the total counts them all. */
  lemma {:induction false} CountsRunning(calls: seq<Call>)
    ensures var c := CountAll(calls); c.total == |c.running| && forall e: nat :: Streams(c, e) == |On(c.running, e)|
  {
    if calls == [] {
    } else {
      var c, call := CountAll(calls[..|calls| - 1]), calls[|calls| - 1];
      CountsRunning(calls[..|calls| - 1]);
      var c' := Count(c, call);
      var w := call.wrapper;
      if call.Entered? && w !in c.running {
        assert c'.running.Keys == c.running.Keys + {w};
        forall e: nat
          ensures Streams(c', e) == |On(c'.running, e)|
        {
          OneMore(c.running, w, call.entry, e);
        }
      } else if call.Left? && w in c.running {
        assert c'.running.Keys == c.running.Keys - {w};
        forall e: nat
          ensures Streams(c', e) == |On(c'.running, e)|
        {
          OneLess(c.running, w, e);
        }
      }
    }
  }

  lemma OneMore(running: map<nat, Option<nat>>, w: nat, entry: Option<nat>, e: nat)
    requires w !in running
    ensures |On(running[w := entry], e)| == |On(running, e)| + (if entry == Some(e) then 1 else 0)
  {
    assert On(running[w := entry], e) == On(running, e) + (if entry == Some(e) then {w} else {});
  }

  lemma OneLess(running: map<nat, Option<nat>>, w: nat, e: nat)
    requires w in running
    ensures |On(running - {w}, e)| == |On(running, e)| - (if running[w] == Some(e) then 1 else 0)
  {
    assert On(running - {w}, e) == On(running, e) - {w};
    assert w in On(running, e) <==> running[w] == Some(e);
  }

  // ----------------------------------------------------------------------
  // The thresholds

  function Opens(n: nat): (es: seq<Event>)
    ensures |es| == n
  {
    seq(n, _ => Open)
  }

  function Closes(n: nat): (es: seq<Event>)
    ensures |es| == n
  {
    seq(n, _ => Close)
  }

  lemma AfterOneMore(limit: Option<nat>, events: seq<Event>, e: Event)
    ensures After(limit, events + [e]) == Step(limit, After(limit, events), e)
  {
    assert (events + [e])[..|events|] == events;
  }

  lemma {:induction false} AfterOpens(limit: nat, n: nat)
    ensures After(Some(limit), Opens(n)) == Gauge(n, n > 0 && 5 * n >= 4 * limit)
  {
    if n == 0 {
      assert Opens(0) == [];
    } else {
      AfterOpens(limit, n - 1);
      AfterOneMore(Some(limit), Opens(n - 1), Open);
      assert Opens(n) == Opens(n - 1) + [Open];
    }
  }

  /** Streams that only open, and then only close: the warning comes on when four fifths of the pool are
      reached, and goes off when no more than three fifths are left. */
  lemma {:induction false} FillAndDrain(limit: nat, n: nat, m: nat)
    ensures After(Some(limit), Opens(n) + Closes(m)) ==
      Gauge(n - m, n > 0 && 5 * n >= 4 * limit && (m > 0 ==> 5 * (n - m) > 3 * limit))
  {
    if m == 0 {
      AfterOpens(limit, n);
      assert Opens(n) + Closes(0) == Opens(n);
    } else {
      FillAndDrain(limit, n, m - 1);
      AfterOneMore(Some(limit), Opens(n) + Closes(m - 1), Close);
      assert Opens(n) + Closes(m) == Opens(n) + Closes(m - 1) + [Close];
    }
  }
}

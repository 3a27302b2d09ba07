/** The lazily and throttled swept table agrees with an eagerly swept one. */
module LazyExpiry {
  import opened Evictions
  import opened PresenceTable

  /** Sightings lie in the past and no two entries share one. */
  ghost predicate Stamped(t: Table, now: real) {
    && (forall n :: n in t ==> t[n].lastSeenMono <= now)
    && (forall n, m :: n in t && m in t && n != m ==> t[n].lastSeenMono != t[m].lastSeenMono)
  }

  // ----------------------------------------------------------------------
  // Eviction

  /** An eviction takes a lapsed entry before any entry that is still present. */
  lemma LapsedGoesFirst(before: Table, after: Table, keep: string, max: nat, now: real, window: real, lapsed: string,
                        live: string)
    requires MadeRoom(before, after, keep, max)
    requires lapsed in before && lapsed != keep && before[lapsed].Lapsed(now, window)
    requires live in before && live !in after && !before[live].Lapsed(now, window)
    ensures lapsed !in after
  {
    assert Evictable(before, lapsed, keep) && Evictable(before, live, keep);
  }

  function EvictableNames(t: Table, keep: string): set<string> {
    set n | n in t && Evictable(t, n, keep)
  }

  function Ages(t: Table): map<string, real> {
    map n | n in t :: t[n].lastSeenMono
  }

  /** `ev` and `age` give the evictable names and the ages of the entries of `t`. */
  ghost predicate Describes(t: Table, keep: string, ev: set<string>, age: map<string, real>) {
    && t.Keys <= age.Keys
    && forall n :: n in t ==> age[n] == t[n].lastSeenMono && (n in ev <==> Evictable(t, n, keep))
  }

  lemma MadeRoomEvicts(t: Table, t': Table, keep: string, max: nat, ev: set<string>, age: map<string, real>)
    requires MadeRoom(t, t', keep, max) && Describes(t, keep, ev, age)
    ensures Evicted(t.Keys, t'.Keys, ev, age, max)
  {
    if t.Keys == t'.Keys {
      assert t == t';
    }
  }

  /** What two tables with the same instances present have in common, when nothing in the second has lapsed. */
  lemma SameInstances(a: Table, b: Table, now: real, window: real)
    requires Present(a, now, window) == Present(b, now, window)
    requires forall m :: m in b ==> !b[m].Lapsed(now, window)
    ensures b.Keys <= a.Keys
    ensures forall m :: m in b ==> a[m].View() == b[m].View()
    ensures forall m :: m in a ==> (m in b <==> !a[m].Lapsed(now, window))
  {
    var p := Present(b, now, window);
    assert p.Keys == b.Keys;
    forall m | m in b
      ensures m in a && a[m].View() == b[m].View()
    {
      assert m in p && p[m] == b[m].View();
    }
    forall m | m in a
      ensures m in b <==> !a[m].Lapsed(now, window)
    {
      assert m in p <==> m in Present(a, now, window);
    }
  }

  lemma SameSurvivors(a: Table, a': Table, b: Table, b': Table, keep: string, max: nat, now: real, window: real)
    requires Stamped(a, now)
    requires Present(a, now, window) == Present(b, now, window)
    requires MadeRoom(a, a', keep, max) && MadeRoom(b, b', keep, max)
    requires keep in b
    requires forall m :: m in b ==> !b[m].Lapsed(now, window)
    ensures a'.Keys * b.Keys == b'.Keys
  {
    var ev, age := AgesAgree(a, b, keep, now, window);
    MadeRoomEvicts(a, a', keep, max, ev, age);
    MadeRoomEvicts(b, b', keep, max, ev, age);
    SameEvictions(a.Keys, a'.Keys, b.Keys, b'.Keys, ev, age, max);
  }

  /** Evicting from the table with lapsed entries and from the swept one leaves the same present instances. */
  lemma EvictionsAgree(a: Table, a': Table, b: Table, b': Table, keep: string, max: nat, now: real, window: real)
    requires Stamped(a, now)
    requires Present(a, now, window) == Present(b, now, window)
    requires MadeRoom(a, a', keep, max) && MadeRoom(b, b', keep, max)
    requires keep in b
    requires forall m :: m in b ==> !b[m].Lapsed(now, window)
    ensures Present(a', now, window) == Present(b', now, window)
  {
    SameInstances(a, b, now, window);
    SameSurvivors(a, a', b, b', keep, max, now, window);
    SamePresent(a, a', b, b', now, window);
  }

  lemma AgesAgree(a: Table, b: Table, keep: string, now: real, window: real) returns (ev: set<string>,
                  age: map<string, real>)
    requires Stamped(a, now) && keep in b
    requires Present(a, now, window) == Present(b, now, window)
    requires forall m :: m in b ==> !b[m].Lapsed(now, window)
    ensures age.Keys == a.Keys && Describes(a, keep, ev, age) && Describes(b, keep, ev, age)
    ensures b.Keys <= a.Keys && a.Keys - b.Keys <= ev
    ensures Distinct(a.Keys, age) && Older(a.Keys - b.Keys, b.Keys * ev, age)
  {
    ev, age := EvictableNames(a, keep), Ages(a);
    SameInstances(a, b, now, window);
    forall m | m in b
      ensures age[m] == b[m].lastSeenMono && (m in ev <==> Evictable(b, m, keep))
    {
      assert a[m].View() == b[m].View();
    }
    forall x, y | x in a.Keys - b.Keys && y in b.Keys * ev
      ensures age[x] < age[y]
    {
      assert a[x].Lapsed(now, window) && !a[y].Lapsed(now, window);
    }
  }

  lemma SamePresent(a: Table, a': Table, b: Table, b': Table, now: real, window: real)
    requires b.Keys <= a.Keys && a'.Keys <= a.Keys && b'.Keys <= b.Keys
    requires forall n :: n in a' ==> a'[n] == a[n]
    requires forall n :: n in b' ==> b'[n] == b[n]
    requires forall m :: m in b ==> a[m].View() == b[m].View()
    requires forall m :: m in a ==> (m in b <==> !a[m].Lapsed(now, window))
    requires forall m :: m in b ==> !b[m].Lapsed(now, window)
    requires a'.Keys * b.Keys == b'.Keys
    ensures Present(a', now, window) == Present(b', now, window)
  {
    var p, q := Present(a', now, window), Present(b', now, window);
    assert p.Keys == q.Keys;
    forall n | n in p
      ensures p[n] == q[n]
    {}
  }

  // ----------------------------------------------------------------------
  // One step

  function PinnedNames(t: Table): set<string> {
    set n | n in t && t[n].Pinned()
  }

  /** A returning call evicts nothing from the swept table: there is room, or nothing may go. */
  predicate NothingToEvict(live: Table, max: nat) {
    |live| < max || forall m :: m in live ==> live[m].Pinned()
  }

  /** When a call keeps both sides in agreement: a caller whose lapsed entry nobody swept finds no one
      the reference would evict for it, and a stream is counted on an entry that has not lapsed. */
  predicate Agreeable(cfg: Config, s: State, op: Op, now: real) {
    match op
    case Seen(c, _, _) =>
      c.Name() in s.table && s.table[c.Name()].Lapsed(now, cfg.window) && now < s.nextCheck ==>
        NothingToEvict(Sweep(s.table, now, cfg.window), cfg.max)
    case Opened(n) => n in s.table && !s.table[n].Lapsed(now, cfg.window)
    case Closed(_) => true
    case Permanent(_, _) => true
    case Look => true
  }

  lemma SeenKeepsStamps(t: Table, t': Table, c: Caller, legacy: bool, wall: real, now: real, max: nat)
    requires Stamped(t, now) && (forall n :: n in t ==> t[n].lastSeenMono < now)
    requires SeenOn(t, c, legacy, wall, now, max, t')
    ensures Stamped(t', now)
  {}

  /** Time passing drops the same instances from both. */
  lemma PresentLater(t: Table, u: Table, now: real, now': real, window: real)
    requires Present(t, now, window) == Present(u, now, window)
    requires now <= now'
    ensures Present(t, now', window) == Present(u, now', window)
  {
    assert Present(t, now', window) == StillPresent(Present(t, now, window), now', window);
    assert Present(u, now', window) == StillPresent(Present(u, now, window), now', window);
  }

  function StillPresent(p: map<string, Visible>, now: real, window: real): map<string, Visible> {
    map n | n in p && (p[n].permanent || p[n].openStreams > 0 || now - p[n].lastSeenMono <= window) :: p[n]
  }

  /** A call refreshes the same instance on both sides. */
  lemma RefreshAgrees(a: Table, b: Table, n: string, c: Caller, legacy: bool, wall: real, now: real, window: real)
    requires Present(a, now, window) == Present(b, now, window) && window >= 0.0
    requires n in a && n in b && !a[n].Lapsed(now, window) && a[n].View() == b[n].View()
    ensures Present(a[n := Refreshed(a[n], c, legacy, wall, now)], now, window)
         == Present(b[n := Refreshed(b[n], c, legacy, wall, now)], now, window)
  {
    PresentUpdate(a, n, Refreshed(a[n], c, legacy, wall, now), now, window);
    PresentUpdate(b, n, Refreshed(b[n], c, legacy, wall, now), now, window);
  }

  lemma PresentUpdate(t: Table, n: string, i: Instance, now: real, window: real)
    requires !i.Lapsed(now, window)
    ensures Present(t[n := i], now, window) == Present(t, now, window)[n := i.View()]
  {}

  lemma EvictsNothingIff(b: Table, b': Table, n: string, e: Instance, max: nat)
    requires n !in b && MadeRoom(b[n := e], b', n, max)
    ensures b' == b[n := e] <==> NothingToEvict(b, max)
  {
    var before := b[n := e];
    assert before.Keys == b.Keys + {n} && |before| == |b| + 1;
    if b' != before {
      assert b'.Keys != before.Keys;
      SubsetSize(b'.Keys, before.Keys);
      var m :| m in before && m !in b';
      assert Evictable(before, m, n);
    } else if |b| >= max {
      forall m | m in b
        ensures b[m].Pinned()
      {
        assert !Evictable(before, m, n);
      }
    }
  }

  /** A lapsed entry nobody swept comes back, without a stream like a new one. It has a place in the
      table, so both sides agree exactly when the swept side evicts nothing for it. */
  lemma ReturnAgreesIff(a: Table, b: Table, b': Table, n: string, c: Caller, legacy: bool, wall: real, now: real,
                        max: nat, window: real)
    requires Present(a, now, window) == Present(b, now, window) && window >= 0.0
    requires n in a && n !in b && a[n].Lapsed(now, window)
    requires forall m :: m in b ==> !b[m].Lapsed(now, window)
    requires MadeRoom(b[n := Entered(c, legacy, false, wall, now)], b', n, max)
    ensures Present(a[n := Refreshed(a[n], c, legacy, wall, now)], now, window) == Present(b', now, window)
       <==> NothingToEvict(b, max)
  {
    var e, r := Entered(c, legacy, false, wall, now), Refreshed(a[n], c, legacy, wall, now);
    EvictsNothingIff(b, b', n, e, max);
    PresentUpdate(a, n, r, now, window);
    PresentUpdate(b, n, e, now, window);
    if b' != b[n := e] {
      assert b'.Keys != b[n := e].Keys;
      var m :| m in b[n := e] && m !in b';
      assert m in Present(b, now, window);
      assert m in Present(a[n := r], now, window) && m !in Present(b', now, window);
    }
  }

  /** A call of an unknown instance. */
  lemma EntryAgrees(a: Table, a': Table, b: Table, b': Table, n: string, e: Instance, now: real, max: nat, window: real)
    requires Stamped(a[n := e], now) && !e.Lapsed(now, window)
    requires Present(a, now, window) == Present(b, now, window)
    requires forall m :: m in b ==> !b[m].Lapsed(now, window)
    requires MadeRoom(a[n := e], a', n, max) && MadeRoom(b[n := e], b', n, max)
    ensures Present(a', now, window) == Present(b', now, window)
  {
    PresentUpdate(a, n, e, now, window);
    PresentUpdate(b, n, e, now, window);
    EvictionsAgree(a[n := e], a', b[n := e], b', n, max, now, window);
  }

  /** A call on the table as it stands and on the swept one. */
  lemma SeenOnAgreesIff(a: Table, a': Table, b: Table, b': Table, c: Caller, legacy: bool, wall: real, before: real,
                        now: real, max: nat, window: real)
    requires Stamped(a, before) && before < now && window >= 0.0
    requires Present(a, now, window) == Present(b, now, window)
    requires forall m :: m in b ==> !b[m].Lapsed(now, window)
    requires SeenOn(a, c, legacy, wall, now, max, a') && SeenOn(b, c, legacy, wall, now, max, b')
    ensures Present(a', now, window) == Present(b', now, window) <==>
      (c.Name() in a && a[c.Name()].Lapsed(now, window) ==> NothingToEvict(b, max))
  {
    hide MadeRoom, Present, Entered, Refreshed, NothingToEvict;
    SameInstances(a, b, now, window);
    if c.Name() in b {
      RefreshAgrees(a, b, c.Name(), c, legacy, wall, now, window);
    } else if c.Name() in a {
      ReturnAgreesIff(a, b, b', c.Name(), c, legacy, wall, now, max, window);
    } else {
      EnteredIsFresh(a, c, legacy, wall, before, now, window);
      EntryAgrees(a, a', b, b', c.Name(), Entered(c, legacy, false, wall, now), now, max, window);
    }
  }

  lemma EnteredIsFresh(a: Table, c: Caller, legacy: bool, wall: real, before: real, now: real, window: real)
    requires Stamped(a, before) && before < now && window >= 0.0
    ensures var e := Entered(c, legacy, false, wall, now); !e.Lapsed(now, window) && Stamped(a[c.Name() := e], now)
  {}

  /** Both sides have the same instances present, so the same evictable ones. */
  lemma SameToEvict(a: Table, b: Table, max: nat, now: real, window: real)
    requires Present(a, now, window) == Present(b, now, window)
    ensures NothingToEvict(Sweep(a, now, window), max) <==> NothingToEvict(Sweep(b, now, window), max)
  {
    var p, x, y := Present(a, now, window), Sweep(a, now, window), Sweep(b, now, window);
    assert x.Keys == p.Keys == y.Keys;
    assert |x| == |x.Keys| == |y.Keys| == |y|;
    forall m | m in x
      ensures x[m].Pinned() == y[m].Pinned()
    {
      assert p[m] == x[m].View() == y[m].View();
    }
  }

  lemma SeenAgreesIff(cfg: Config, s: State, s': State, t: Table, t': Table, op: Op, before: real, now: real)
    requires op.Seen? && before < now && cfg.window >= 0.0
    requires Stamped(s.table, before)
    requires Present(s.table, now, cfg.window) == Present(t, now, cfg.window)
    requires LazyStep(cfg, s, op, now, s') && EagerStep(cfg, t, op, now, t')
    ensures Present(s'.table, now, cfg.window) == Present(t', now, cfg.window) <==> Agreeable(cfg, s, op, now)
  {
    hide SeenOn, Present, NothingToEvict;
    var a := if now >= s.nextCheck then Sweep(s.table, now, cfg.window) else s.table;
    PresentIsSwept(s.table, now, cfg.window);
    PresentIsSwept(t, now, cfg.window);
    SameToEvict(s.table, t, cfg.max, now, cfg.window);
    SeenOnAgreesIff(a, s'.table, Sweep(t, now, cfg.window), t', op.caller, op.legacy, op.wall, before, now,
                    cfg.max, cfg.window);
  }

  lemma PresentIsSwept(t: Table, now: real, window: real)
    ensures Present(Sweep(t, now, window), now, window) == Present(t, now, window)
  {}

  lemma WithStreamsAgree(a: Table, b: Table, n: string, k: nat, now: real, window: real)
    requires Present(a, now, window) == Present(b, now, window)
    requires n in a && n in b && a[n].View() == b[n].View()
    ensures Present(WithStreams(a, n, k), now, window) == Present(WithStreams(b, n, k), now, window)
  {
    var i, j := a[n].(openStreams := k), b[n].(openStreams := k);
    assert i.View() == j.View();
    if i.Lapsed(now, window) {
      PresentWithout(a, n, i, now, window);
      PresentWithout(b, n, j, now, window);
    } else {
      PresentUpdate(a, n, i, now, window);
      PresentUpdate(b, n, j, now, window);
    }
  }

  lemma PresentWithout(t: Table, n: string, i: Instance, now: real, window: real)
    requires i.Lapsed(now, window)
    ensures Present(t[n := i], now, window) == Present(t, now, window) - {n}
  {}

  lemma StreamAgrees(cfg: Config, s: State, s': State, t: Table, t': Table, op: Op, now: real)
    requires op.Opened? || op.Closed?
    requires Present(s.table, now, cfg.window) == Present(t, now, cfg.window)
    requires op.name in s.table && !s.table[op.name].Lapsed(now, cfg.window)
    requires LazyStep(cfg, s, op, now, s') && EagerStep(cfg, t, op, now, t')
    ensures Present(s'.table, now, cfg.window) == Present(t', now, cfg.window)
  {
    var live := Sweep(t, now, cfg.window);
    PresentIsSwept(t, now, cfg.window);
    SameInstances(s.table, live, now, cfg.window);
    var k := if op.Opened? then s.table[op.name].openStreams + 1 else Less1(s.table[op.name].openStreams);
    assert s.table[op.name].View() == live[op.name].View();
    WithStreamsAgree(s.table, live, op.name, k, now, cfg.window);
    PresentIsSwept(WithStreams(s.table, op.name, k), now, cfg.window);
    PresentIsSwept(WithStreams(live, op.name, k), now, cfg.window);
  }

  /** A close on an entry that has lapsed: the sweep that follows drops it here too. */
  lemma LateCloseAgrees(cfg: Config, s: State, s': State, t: Table, t': Table, n: string, now: real)
    requires Present(s.table, now, cfg.window) == Present(t, now, cfg.window)
    requires n in s.table && s.table[n].Lapsed(now, cfg.window)
    requires LazyStep(cfg, s, Closed(n), now, s') && EagerStep(cfg, t, Closed(n), now, t')
    ensures Present(s'.table, now, cfg.window) == Present(t', now, cfg.window)
  {
    assert n !in Present(s.table, now, cfg.window);
    assert n !in Sweep(t, now, cfg.window);
    assert WithStreams(s.table, n, 0) == s.table;
    PresentIsSwept(s.table, now, cfg.window);
    PresentIsSwept(t, now, cfg.window);
  }

  lemma LookAgrees(cfg: Config, s: State, s': State, t: Table, t': Table, op: Op, now: real)
    requires (op.Permanent? || op.Look?) && cfg.window >= 0.0
    requires Present(s.table, now, cfg.window) == Present(t, now, cfg.window)
    requires LazyStep(cfg, s, op, now, s') && EagerStep(cfg, t, op, now, t')
    ensures Present(s'.table, now, cfg.window) == Present(t', now, cfg.window)
  {
    PresentIsSwept(s.table, now, cfg.window);
    PresentIsSwept(t, now, cfg.window);
    if op.Permanent? {
      var e := Entered(op.caller, false, true, op.wall, now);
      PresentUpdate(s.table, op.caller.Name(), e, now, cfg.window);
      PresentUpdate(Sweep(t, now, cfg.window), op.caller.Name(), e, now, cfg.window);
    }
  }

  /** One step of the tracker and of the reference keeps the same instances present exactly when the
      call is agreeable. */
  lemma StepAgreesIff(cfg: Config, s: State, s': State, t: Table, t': Table, op: Op, before: real, now: real)
    requires before < now && cfg.window >= 0.0
    requires Stamped(s.table, before)
    requires Present(s.table, before, cfg.window) == Present(t, before, cfg.window)
    requires LazyStep(cfg, s, op, now, s') && EagerStep(cfg, t, op, now, t')
    ensures Present(s'.table, now, cfg.window) == Present(t', now, cfg.window) <==> Agreeable(cfg, s, op, now)
  {
    hide Present, NothingToEvict, SeenOn;
    PresentLater(s.table, t, before, now, cfg.window);
    match op
    case Seen(_, _, _) => SeenAgreesIff(cfg, s, s', t, t', op, before, now);
    case Opened(n) => OpenedAgreesIffUnlapsed(cfg, s, s', t, t', n, now);
    case Closed(n) =>
      if s.table[n].Lapsed(now, cfg.window) {
        LateCloseAgrees(cfg, s, s', t, t', n, now);
      } else {
        StreamAgrees(cfg, s, s', t, t', op, now);
      }
    case Permanent(_, _) => LookAgrees(cfg, s, s', t, t', op, now);
    case Look => LookAgrees(cfg, s, s', t, t', op, now);
  }

  /** No two entries ever share the time of their last sighting. */
  lemma StepKeepsStamps(cfg: Config, s: State, op: Op, before: real, now: real, s': State)
    requires before < now && Stamped(s.table, before) && LazyStep(cfg, s, op, now, s')
    ensures Stamped(s'.table, now)
  {
    if op.Seen? {
      var a := if now >= s.nextCheck then Sweep(s.table, now, cfg.window) else s.table;
      SeenKeepsStamps(a, s'.table, op.caller, op.legacy, op.wall, now, cfg.max);
    }
  }

  /** A call keeps the table within its bound exactly when it enters no instance, or there are fewer
      than `max` pinned ones beside it. */
  predicate Bounded(cfg: Config, s: State, op: Op, now: real) {
    match op
    case Seen(c, _, _) =>
      var a := if now >= s.nextCheck then Sweep(s.table, now, cfg.window) else s.table;
      c.Name() in a || |PinnedNames(a)| < cfg.max
    case Permanent(c, _) => c.Name() in s.table || |s.table| < cfg.max
    case _ => true
  }

  lemma EnteringKeepsBoundIff(a: Table, a': Table, n: string, e: Instance, max: nat)
    requires n !in a && !e.Pinned() && MadeRoom(a[n := e], a', n, max)
    ensures |a'| <= max <==> |PinnedNames(a)| < max
  {
    var pinned := PinnedNames(a) + {n};
    assert |pinned| == |PinnedNames(a)| + 1;
    forall m | m in pinned
      ensures m in a'
    {
      assert !Evictable(a[n := e], m, n);
    }
    SubsetSize(pinned, a'.Keys);
    if |a'| > max {
      forall m | m in a'
        ensures m in pinned
      {
        assert !Evictable(a', m, n);
      }
      assert a'.Keys == pinned;
    }
  }

  lemma SeenKeepsBoundIff(cfg: Config, s: State, c: Caller, legacy: bool, wall: real, now: real, s': State)
    requires |s.table| <= cfg.max && LazyStep(cfg, s, Op.Seen(c, legacy, wall), now, s')
    ensures |s'.table| <= cfg.max <==> Bounded(cfg, s, Op.Seen(c, legacy, wall), now)
  {
    hide MadeRoom, Entered, Refreshed;
    var a := if now >= s.nextCheck then Sweep(s.table, now, cfg.window) else s.table;
    SubsetSize(a.Keys, s.table.Keys);
    if c.Name() in a {
      assert s'.table.Keys == a.Keys;
    } else {
      EnteredUnpinned(c, legacy, wall, now);
      EnteringKeepsBoundIff(a, s'.table, c.Name(), Entered(c, legacy, false, wall, now), cfg.max);
    }
  }

  lemma EnteredUnpinned(c: Caller, legacy: bool, wall: real, now: real)
    ensures !Entered(c, legacy, false, wall, now).Pinned()
  {}

  /** The bound is kept exactly by the calls that can keep it. */
  lemma StepKeepsBoundIff(cfg: Config, s: State, op: Op, now: real, s': State)
    requires |s.table| <= cfg.max && LazyStep(cfg, s, op, now, s')
    ensures |s'.table| <= cfg.max <==> Bounded(cfg, s, op, now)
  {
    match op
    case Seen(c, legacy, wall) => SeenKeepsBoundIff(cfg, s, c, legacy, wall, now, s');
    case Opened(n) => assert s'.table.Keys == s.table.Keys;
    case Closed(n) => SubsetSize(s'.table.Keys, s.table.Keys);
    case Permanent(c, _) =>
      assert s'.table.Keys == s.table.Keys + {c.Name()};
    case Look => SubsetSize(s'.table.Keys, s.table.Keys);
  }

  // ----------------------------------------------------------------------
  // Whole runs

  datatype Call = Call(op: Op, now: real)

  ghost predicate LazyRun(cfg: Config, calls: seq<Call>, states: seq<State>) {
    && |states| == |calls| + 1
    && states[0] == State(map[], 0.0)
    && forall i :: 0 <= i < |calls| ==> LazyStep(cfg, states[i], calls[i].op, calls[i].now, states[i + 1])
  }

  ghost predicate EagerRun(cfg: Config, calls: seq<Call>, tables: seq<Table>) {
    && |tables| == |calls| + 1
    && tables[0] == map[]
    && forall i :: 0 <= i < |calls| ==> EagerStep(cfg, tables[i], calls[i].op, calls[i].now, tables[i + 1])
  }

  /** Every call has its own time. */
  predicate InOrder(calls: seq<Call>) {
    forall i, j :: 0 <= i < j < |calls| ==> calls[i].now < calls[j].now
  }

  /** After the k-th call both sides have the same instances present. */
  predicate AgreeAfter(cfg: Config, calls: seq<Call>, states: seq<State>, tables: seq<Table>, k: nat)
    requires 0 < k <= |calls| && |states| == |tables| == |calls| + 1
  {
    Present(states[k].table, calls[k - 1].now, cfg.window) == Present(tables[k], calls[k - 1].now, cfg.window)
  }

  lemma {:induction false} RunKeepsStamps(cfg: Config, calls: seq<Call>, states: seq<State>, k: nat)
    requires LazyRun(cfg, calls, states) && InOrder(calls) && 0 < k <= |calls|
    ensures Stamped(states[k].table, calls[k - 1].now)
    decreases k
  {
    hide LazyStep;
    if k == 1 {
      StepKeepsStamps(cfg, states[0], calls[0].op, calls[0].now - 1.0, calls[0].now, states[1]);
    } else {
      RunKeepsStamps(cfg, calls, states, k - 1);
      StepKeepsStamps(cfg, states[k - 1], calls[k - 1].op, calls[k - 2].now, calls[k - 1].now, states[k]);
    }
  }

  lemma StepOfRun(cfg: Config, calls: seq<Call>, states: seq<State>, tables: seq<Table>, k: nat)
    requires cfg.window >= 0.0 && 0 < k <= |calls|
    requires LazyRun(cfg, calls, states) && EagerRun(cfg, calls, tables) && InOrder(calls)
    requires k == 1 || AgreeAfter(cfg, calls, states, tables, k - 1)
    ensures AgreeAfter(cfg, calls, states, tables, k) <==>
      Agreeable(cfg, states[k - 1], calls[k - 1].op, calls[k - 1].now)
  {
    hide LazyStep, EagerStep, Present, Agreeable;
    var i := k - 1;
    var before := if i == 0 then calls[0].now - 1.0 else calls[i - 1].now;
    if i > 0 {
      RunKeepsStamps(cfg, calls, states, i);
    }
    StepAgreesIff(cfg, states[i], states[k], tables[i], tables[k], calls[i].op, before, calls[i].now);
  }

  /** Up to the k-th call of any run, the lazily swept tracker has after each call the same instances
      present as the eagerly swept reference if and only if each of the calls was agreeable. */
  lemma {:induction false} LazyAgreesIff(cfg: Config, calls: seq<Call>, states: seq<State>, tables: seq<Table>, k: nat)
    requires cfg.window >= 0.0 && k <= |calls|
    requires LazyRun(cfg, calls, states) && EagerRun(cfg, calls, tables) && InOrder(calls)
    ensures (forall i :: 0 < i <= k ==> AgreeAfter(cfg, calls, states, tables, i)) <==>
      (forall i :: 0 <= i < k ==> Agreeable(cfg, states[i], calls[i].op, calls[i].now))
    decreases k
  {
    hide LazyStep, EagerStep, Agreeable, AgreeAfter;
    if k == 0 {
    } else {
      LazyAgreesIff(cfg, calls, states, tables, k - 1);
      if forall i :: 0 < i <= k - 1 ==> AgreeAfter(cfg, calls, states, tables, i) {
        StepOfRun(cfg, calls, states, tables, k);
      }
    }
  }

  /** And so it has at any later time until the next call. */
  lemma LazyRefinesEager(cfg: Config, calls: seq<Call>, states: seq<State>, tables: seq<Table>, k: nat, now: real)
    requires cfg.window >= 0.0
    requires LazyRun(cfg, calls, states) && EagerRun(cfg, calls, tables) && InOrder(calls)
    requires 0 < k <= |calls| && calls[k - 1].now <= now
    requires forall i :: 0 <= i < k ==> Agreeable(cfg, states[i], calls[i].op, calls[i].now)
    ensures Present(states[k].table, now, cfg.window) == Present(tables[k], now, cfg.window)
  {
    hide LazyStep, EagerStep, Agreeable, Present;
    LazyAgreesIff(cfg, calls, states, tables, k);
    assert AgreeAfter(cfg, calls, states, tables, k);
    PresentLater(states[k].table, tables[k], calls[k - 1].now, now, cfg.window);
  }

  /** While the table is within its bound, every call of an instance is agreeable. */
  lemma WithinBoundAgreeable(cfg: Config, s: State, op: Op, now: real)
    requires |s.table| <= cfg.max && op.Seen?
    ensures Agreeable(cfg, s, op, now)
  {
    var live, n := Sweep(s.table, now, cfg.window), op.caller.Name();
    if n in s.table && s.table[n].Lapsed(now, cfg.window) {
      assert live.Keys <= s.table.Keys - {n};
      SubsetSize(live.Keys, s.table.Keys - {n});
    }
  }

  /** What the agreement leaves out: a lapsed instance that calls again starts anew exactly when a look
      was due. Otherwise it keeps its first sighting, and its host when it does not give one. */
  lemma ReturnForgetsIffSwept(cfg: Config, s: State, s': State, c: Caller, legacy: bool, wall: real, now: real)
    requires c.Name() in s.table && s.table[c.Name()].Lapsed(now, cfg.window)
    requires LazyStep(cfg, s, Op.Seen(c, legacy, wall), now, s')
    ensures var due, was := now >= s.nextCheck, s.table[c.Name()];
      && c.Name() in s'.table
      && s'.table[c.Name()].firstSeen == (if due then wall else was.firstSeen)
      && s'.table[c.Name()].host == (if due || c.host != "" then c.host else was.host)
  {
    var n := c.Name();
    if now >= s.nextCheck {
      var a := Sweep(s.table, now, cfg.window);
      assert !Evictable(a[n := Entered(c, legacy, false, wall, now)], n, n);
    }
  }

  /** Where the agreement ends: counting a stream keeps it exactly when the entry has not lapsed.
      A stream opened on a lapsed entry that nobody swept brings the entry back. */
  lemma OpenedAgreesIffUnlapsed(cfg: Config, s: State, s': State, t: Table, t': Table, n: string, now: real)
    requires Present(s.table, now, cfg.window) == Present(t, now, cfg.window)
    requires LazyStep(cfg, s, Opened(n), now, s') && EagerStep(cfg, t, Opened(n), now, t')
    ensures Present(s'.table, now, cfg.window) == Present(t', now, cfg.window) <==> !s.table[n].Lapsed(now, cfg.window)
  {
    if s.table[n].Lapsed(now, cfg.window) {
      assert n !in Present(s.table, now, cfg.window);
      assert n !in t';
      assert n in Present(s'.table, now, cfg.window);
    } else {
      StreamAgrees(cfg, s, s', t, t', Opened(n), now);
    }
  }

  /** No step takes away a pinned entry. */
  lemma PinnedStays(cfg: Config, s: State, op: Op, now: real, s': State, n: string)
    requires LazyStep(cfg, s, op, now, s')
    requires n in s.table && s.table[n].Pinned() && op != Closed(n)
    ensures n in s'.table
  {}

  /** The entry of a caller shows what the call told, under the time of the call. */
  predicate Shows(e: Instance, c: Caller, wall: real, now: real) {
    e.version == c.version && e.lastSeen == wall && e.lastSeenMono == now && (c.host != "" ==> e.host == c.host)
  }

  /** A call enters its instance or brings it up to date, and changes no other entry that stays. */
  lemma SeenIs(cfg: Config, s: State, c: Caller, legacy: bool, wall: real, now: real, s': State)
    requires LazyStep(cfg, s, Op.Seen(c, legacy, wall), now, s')
    ensures var n := c.Name();
      && n in s'.table && Shows(s'.table[n], c, wall, now) && s'.table[n].legacy == legacy
      && (forall m :: m in s'.table && m != n ==> m in s.table && s'.table[m] == s.table[m])
      && (n in s.table && !s.table[n].Lapsed(now, cfg.window) ==>
            && s'.table[n].permanent == s.table[n].permanent && s'.table[n].openStreams == s.table[n].openStreams
            && s'.table[n].firstSeen == s.table[n].firstSeen && (c.host == "" ==> s'.table[n].host == s.table[n].host))
      && (n !in s.table ==>
            !s'.table[n].permanent && s'.table[n].openStreams == 0 && s'.table[n].firstSeen == wall
            && s'.table[n].host == c.host)
  {
    var n := c.Name();
    var a := if now >= s.nextCheck then Sweep(s.table, now, cfg.window) else s.table;
    if n !in a {
      assert !Evictable(a[n := Entered(c, legacy, false, wall, now)], n, n);
    }
  }

  /** A permanent registration makes an entry that is permanent, without streams, seen now for the first
      time, and changes no other entry. */
  lemma PermanentIs(cfg: Config, s: State, c: Caller, wall: real, now: real, s': State)
    requires LazyStep(cfg, s, Op.Permanent(c, wall), now, s')
    ensures var n := c.Name();
      && n in s'.table && s'.table[n].permanent && s'.table[n].openStreams == 0
      && Shows(s'.table[n], c, wall, now) && !s'.table[n].legacy
      && s'.table[n].firstSeen == wall && s'.table[n].host == c.host
      && s'.table.Keys == s.table.Keys + {n} && (forall m :: m in s.table && m != n ==> s'.table[m] == s.table[m])
      && s'.nextCheck == s.nextCheck
  {}

  lemma PermanentStaysOn(cfg: Config, s: State, op: Op, now: real, s': State, n: string)
    requires LazyStep(cfg, s, op, now, s') && n in s.table && s.table[n].permanent
    ensures n in s'.table && s'.table[n].permanent
  {
    if op.Seen? && op.caller.Name() == n {
      assert !s.table[n].Lapsed(now, cfg.window);
      SeenIs(cfg, s, op.caller, op.legacy, op.wall, now, s');
    }
  }

  /** Once registered as permanent an instance is in the table after every later call of the run, at
      whatever times, with whatever window, and whoever else calls, streams or is evicted. */
  lemma {:induction false} PermanentStays(cfg: Config, calls: seq<Call>, states: seq<State>, i: nat, k: nat, now: real)
    requires LazyRun(cfg, calls, states) && i < k <= |calls| && calls[i].op.Permanent?
    ensures var n := calls[i].op.caller.Name();
      n in states[k].table && states[k].table[n].permanent && n in Present(states[k].table, now, cfg.window)
    decreases k
  {
    hide LazyStep;
    var n := calls[i].op.caller.Name();
    if k == i + 1 {
      PermanentIs(cfg, states[i], calls[i].op.caller, calls[i].op.wall, calls[i].now, states[k]);
    } else {
      PermanentStays(cfg, calls, states, i, k - 1, now);
      PermanentStaysOn(cfg, states[k - 1], calls[k - 1].op, calls[k - 1].now, states[k], n);
    }
  }

  /** Streams opened less streams closed on an instance by the calls from the i-th up to the k-th. */
  function Net(calls: seq<Call>, i: nat, k: nat, n: string): int
    requires i <= k <= |calls|
    decreases k
  {
    if k == i then 0
    else Net(calls, i, k - 1, n) +
         (if calls[k - 1].op == Opened(n) then 1 else if calls[k - 1].op == Closed(n) then -1 else 0)
  }

  lemma StepCountsStreams(cfg: Config, s: State, op: Op, now: real, s': State, n: string, streams: int)
    requires LazyStep(cfg, s, op, now, s') && n in s.table && s.table[n].openStreams > 0
    requires op.Permanent? ==> op.caller.Name() != n
    requires streams == s.table[n].openStreams + (if op == Opened(n) then 1 else if op == Closed(n) then -1 else 0)
    requires streams > 0
    ensures n in s'.table && s'.table[n].openStreams == streams
  {
    if op == Closed(n) {
      assert WithStreams(s.table, n, streams)[n].Pinned();
    } else {
      PinnedStays(cfg, s, op, now, s', n);
    }
  }

  /** Over any run an instance stays in the table, with an exact count, as long as more of its streams
      were opened than closed: neither expiry nor eviction touches it. */
  lemma {:induction false} StreamingStays(cfg: Config, calls: seq<Call>, states: seq<State>, i: nat, k: nat, n: string)
    requires LazyRun(cfg, calls, states) && i <= k <= |calls|
    requires n in states[i].table
    requires forall j :: i <= j < k && calls[j].op.Permanent? ==> calls[j].op.caller.Name() != n
    requires forall j :: i <= j <= k ==> states[i].table[n].openStreams + Net(calls, i, j, n) > 0
    ensures n in states[k].table && states[k].table[n].openStreams ==
              states[i].table[n].openStreams + Net(calls, i, k, n)
    decreases k
  {
    hide LazyStep;
    if k == i {
    } else {
      StreamingStays(cfg, calls, states, i, k - 1, n);
      assert Net(calls, i, k, n) == Net(calls, i, k - 1, n) +
        (if calls[k - 1].op == Opened(n) then 1 else if calls[k - 1].op == Closed(n) then -1 else 0);
      StepCountsStreams(cfg, states[k - 1], calls[k - 1].op, calls[k - 1].now, states[k], n,
                        states[i].table[n].openStreams + Net(calls, i, k, n));
    }
  }

  /** What a lookup leaves is pinned or was seen within the window. */
  lemma LookLeavesPresent(cfg: Config, s: State, now: real, s': State, n: string)
    requires LazyStep(cfg, s, Look, now, s')
    ensures n in s'.table <==> n in s.table && (s.table[n].Pinned() || now - s.table[n].lastSeenMono <= cfg.window)
  {}

  // ----------------------------------------------------------------------
  // When the table is looked through

  /** The call looks for lapsed entries, the last look having been at this time. */
  predicate LooksAfter(op: Op, now: real, last: real) {
    op.Closed? || op.Look? || (op.Seen? && now >= last + 1.0)
  }

  /** The last look before the k-th call was the i-th call. */
  ghost predicate LastLook(calls: seq<Call>, states: seq<State>, i: nat, k: nat)
    requires i < k <= |calls| && |states| == |calls| + 1
  {
    && (calls[i].op.Closed? || calls[i].op.Look? || (calls[i].op.Seen? && calls[i].now >= states[i].nextCheck))
    && forall j :: i < j < k ==> !LooksAfter(calls[j].op, calls[j].now, calls[i].now)
  }

  lemma {:induction false} NextCheckIs(cfg: Config, calls: seq<Call>, states: seq<State>, i: nat, k: nat)
    requires LazyRun(cfg, calls, states) && i < k <= |calls| && LastLook(calls, states, i, k)
    ensures states[k].nextCheck == calls[i].now + 1.0
    decreases k
  {
    hide Sweep, SeenOn;
    assert LazyStep(cfg, states[k - 1], calls[k - 1].op, calls[k - 1].now, states[k]);
    if i + 1 < k {
      assert !LooksAfter(calls[k - 1].op, calls[k - 1].now, calls[i].now);
      NextCheckIs(cfg, calls, states, i, k - 1);
    }
  }

  /** A call looks exactly when the last look is a second ago: then no other entry that has lapsed is left,
      and before none goes for having lapsed. */
  lemma LooksEverySecond(cfg: Config, calls: seq<Call>, states: seq<State>, i: nat, k: nat, n: string)
    requires LazyRun(cfg, calls, states) && i < k < |calls| && LastLook(calls, states, i, k)
    requires calls[k].op.Seen? && n in states[k].table && n != calls[k].op.caller.Name()
    ensures calls[k].now >= calls[i].now + 1.0 && states[k].table[n].Lapsed(calls[k].now, cfg.window) ==>
              n !in states[k + 1].table
    ensures calls[k].now < calls[i].now + 1.0 && |states[k].table| < cfg.max ==> n in states[k + 1].table
  {
    NextCheckIs(cfg, calls, states, i, k);
    var s, s', c := states[k], states[k + 1], calls[k].op.caller;
    assert LazyStep(cfg, s, calls[k].op, calls[k].now, s');
    if calls[k].now < calls[i].now + 1.0 && |s.table| < cfg.max && c.Name() !in s.table {
      var entered := s.table[c.Name() := Entered(c, calls[k].op.legacy, false, calls[k].op.wall, calls[k].now)];
      assert entered.Keys == s.table.Keys + {c.Name()};
      assert Evicting(entered, s'.table, c.Name(), cfg.max);
      if n !in s'.table {
        SubsetSize(s'.table.Keys, entered.Keys - {n});
      }
    }
  }
}

/** A run on which the lazily and the eagerly swept table part: the table has
    outgrown its bound, and an instance comes back after a lapse. */
module LazyParting {
  import opened PresenceTable
  import opened LazyExpiry

  const ONE := Caller("b", "1", "x", "")
  const OTHER := Caller("c", "1", "y", "")

  function Only(streams: nat): Table {
    map[ONE.Name() := Entered(ONE, false, false, 0.0, 0.0).(openStreams := streams)]
  }

  function Both(streams: nat): Table {
    Only(streams)[OTHER.Name() := Entered(OTHER, false, false, 0.5, 0.5)]
  }

  function PartingCalls(window: real): seq<Call> {
    [Call(Op.Seen(ONE, false, 0.0), 0.0), Call(Opened(ONE.Name()), 0.25), Call(Op.Seen(OTHER, false, 0.5), 0.5),
     Call(Closed(ONE.Name()), 0.75), Call(Look, window - 0.25), Call(Op.Seen(ONE, false, 1.0), window + 0.25)]
  }

  function PartingStates(window: real): seq<State> {
    [State(map[], 0.0), State(Only(0), 1.0), State(Only(1), 1.0), State(Both(1), 1.0), State(Both(0), 1.75),
     State(Both(0), window + 0.75),
     State(Both(0)[ONE.Name() := Refreshed(Both(0)[ONE.Name()], ONE, false, 1.0, window + 0.25)], window + 0.75)]
  }

  function PartingTables(window: real): seq<Table> {
    [map[], Only(0), Only(1), Both(1), Both(0), Both(0),
     map[ONE.Name() := Entered(ONE, false, false, 1.0, window + 0.25)]]
  }

  lemma NamesDiffer()
    ensures ONE.Name() != OTHER.Name()
  {
    assert ONE.Name()[0] == 'b' && OTHER.Name()[0] == 'c';
  }

  lemma FirstEntered()
    ensures SeenOn(map[], ONE, false, 0.0, 0.0, 1, Only(0))
    ensures WithStreams(Only(0), ONE.Name(), 1) == Only(1) && WithStreams(Both(1), ONE.Name(), 0) == Both(0)
  {
    NamesDiffer();
    assert |Only(0)| == 1;
  }

  /** A stream keeps the first entry, so the table outgrows its bound. */
  lemma OtherEntered()
    ensures SeenOn(Only(1), OTHER, false, 0.5, 0.5, 1, Both(1))
  {
    NamesDiffer();
  }

  lemma NothingLapsed(window: real)
    requires window > 1.0
    ensures Sweep(map[], 0.0, window) == map[] && Sweep(Only(0), 0.25, window) == Only(0)
    ensures Sweep(Only(1), 0.5, window) == Only(1)
    ensures Sweep(Both(0), 0.75, window) == Both(0) && Sweep(Both(1), 0.75, window) == Both(1)
    ensures Sweep(Both(0), window - 0.25, window) == Both(0)
  {
    NamesDiffer();
  }

  /** The reference drops the first entry and evicts the other one for its return. */
  lemma OtherEvicted(window: real)
    requires window > 1.0
    ensures var live := Sweep(Both(0), window + 0.25, window);
      && live == map[OTHER.Name() := Entered(OTHER, false, false, 0.5, 0.5)]
      && SeenOn(live, ONE, false, 1.0, window + 0.25, 1, PartingTables(window)[6])
  {
    NamesDiffer();
    var live := Sweep(Both(0), window + 0.25, window);
    var after := PartingTables(window)[6];
    assert live.Keys == {OTHER.Name()};
    assert |after| == 1;
  }

  /** With room for one instance: a stream keeps one past the bound, another calls, the stream ends, a
      look finds both within the window, and the first calls again once it has lapsed, before the next
      look is due. The tracker keeps the other instance, which is still present; the reference evicts it. */
  lemma OverfullTableParts(window: real)
    requires window > 1.0
    ensures var cfg, calls, states, tables :=
              Config(window, 1), PartingCalls(window), PartingStates(window), PartingTables(window);
      && LazyRun(cfg, calls, states) && EagerRun(cfg, calls, tables) && InOrder(calls)
      && (forall k :: 0 < k <= 5 ==> AgreeAfter(cfg, calls, states, tables, k))
      && !AgreeAfter(cfg, calls, states, tables, 6)
  {
    var cfg, calls, states, tables :=
      Config(window, 1), PartingCalls(window), PartingStates(window), PartingTables(window);
    PartingLazily(window);
    PartingEagerly(window);
    forall k | 0 < k <= 5
      ensures AgreeAfter(cfg, calls, states, tables, k)
    {
      assert states[k].table == tables[k];
    }
    NotAgreeable(window);
    hide Agreeable, AgreeAfter, LazyRun, EagerRun;
    StepOfRun(cfg, calls, states, tables, 6);
  }

  lemma NotAgreeable(window: real)
    requires window > 1.0
    ensures var last := PartingCalls(window)[5];
      !Agreeable(Config(window, 1), PartingStates(window)[5], last.op, last.now)
  {
    var live := Sweep(Both(0), window + 0.25, window);
    OtherEvicted(window);
    assert Both(0)[ONE.Name()].Lapsed(window + 0.25, window);
    assert live.Keys == {OTHER.Name()} && |live| == |live.Keys| == 1;
    assert !live[OTHER.Name()].Pinned();
  }

  lemma OneReturns(window: real)
    ensures SeenOn(Both(0), ONE, false, 1.0, window + 0.25, 1, PartingStates(window)[6].table)
  {}

  lemma PartingLazily(window: real)
    requires window > 1.0
    ensures LazyRun(Config(window, 1), PartingCalls(window), PartingStates(window))
  {
    hide SeenOn, Sweep, Only, Both;
    FirstEntered();
    OtherEntered();
    NothingLapsed(window);
    OneReturns(window);
    BothHold();
  }

  lemma PartingEagerly(window: real)
    requires window > 1.0
    ensures EagerRun(Config(window, 1), PartingCalls(window), PartingTables(window))
  {
    hide SeenOn, Sweep, Only, Both;
    FirstEntered();
    OtherEntered();
    NothingLapsed(window);
    OtherEvicted(window);
    BothHold();
  }

  lemma BothHold()
    ensures forall k: nat :: Only(k).Keys == {ONE.Name()} && Only(k)[ONE.Name()].openStreams == k
    ensures forall k: nat :: Both(k).Keys == {ONE.Name(), OTHER.Name()} && Both(k)[ONE.Name()].openStreams == k
  {
    NamesDiffer();
  }

  // ----------------------------------------------------------------------
  // Shorter runs

  lemma OnlyLapsed(window: real, now: real)
    requires 0.0 <= window < now
    ensures Sweep(Only(0), now, window) == map[]
    ensures Only(0)[ONE.Name()].Lapsed(now, window)
  {}

  lemma OnlyHolds(window: real, now: real)
    requires 0.0 <= now <= window
    ensures Sweep(Only(0), now, window) == Only(0)
  {}

  /** A stream that opens after the window brings its entry back, when nobody has looked meanwhile. */
  lemma LateStreamParts(window: real)
    requires window >= 0.0
    ensures var cfg := Config(window, 1);
      var calls := [Call(Op.Seen(ONE, false, 0.0), 0.0), Call(Opened(ONE.Name()), window + 1.0)];
      var states, tables := [State(map[], 0.0), State(Only(0), 1.0), State(Only(1), 1.0)], [map[], Only(0), map[]];
      && LazyRun(cfg, calls, states) && EagerRun(cfg, calls, tables) && InOrder(calls)
      && AgreeAfter(cfg, calls, states, tables, 1) && !AgreeAfter(cfg, calls, states, tables, 2)
  {
    hide SeenOn, Sweep, Only;
    FirstEntered();
    BothHold();
    OnlyLapsed(window, window + 1.0);
    NothingThere(window);
    PinnedIsPresent(window, window + 1.0);
  }

  lemma NothingThere(window: real)
    ensures Sweep(map[], 0.0, window) == map[]
  {}

  lemma PinnedIsPresent(window: real, now: real)
    ensures ONE.Name() in Present(Only(1), now, window) && Present(map[], now, window) == map[]
  {}

  /** Both sides have the returning instance present, but it was first seen at different times. */
  lemma ReturnRemembers(window: real)
    requires window > 1.0
    ensures var n, back := ONE.Name(), Op.Seen(ONE, false, 1.0);
      var cfg, calls := Config(window, 1),
        [Call(Op.Seen(ONE, false, 0.0), 0.0), Call(Look, window - 0.25), Call(back, window + 0.25)];
      var states := [State(map[], 0.0), State(Only(0), 1.0), State(Only(0), window + 0.75),
                     State(Only(0)[n := Refreshed(Only(0)[n], ONE, false, 1.0, window + 0.25)], window + 0.75)];
      var tables := [map[], Only(0), Only(0), map[n := Entered(ONE, false, false, 1.0, window + 0.25)]];
      && LazyRun(cfg, calls, states) && EagerRun(cfg, calls, tables) && InOrder(calls)
      && AgreeAfter(cfg, calls, states, tables, 3)
      && states[3].table[n].firstSeen == 0.0 && tables[3][n].firstSeen == 1.0
  {
    FirstEntered();
    OnlyHolds(window, window - 0.25);
    OnlyLapsed(window, window + 0.25);
    Returned(window);
  }

  lemma Returned(window: real)
    requires window > 1.0
    ensures var n, now := ONE.Name(), window + 0.25;
      && SeenOn(Only(0), ONE, false, 1.0, now, 1, Only(0)[n := Refreshed(Only(0)[n], ONE, false, 1.0, now)])
      && SeenOn(map[], ONE, false, 1.0, now, 1, map[n := Entered(ONE, false, false, 1.0, now)])
  {
    assert |map[ONE.Name() := Entered(ONE, false, false, 1.0, window + 0.25)]| == 1;
  }
}

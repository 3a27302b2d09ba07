/** The presence table of the component tracker as a value: what a sweep and an
    eviction may remove, and what each call of the tracker does to the table.
    The tracker class is proved against these definitions. */
module PresenceTable {

  /** One running instance of a component (without its name, which is the key). */
  datatype Instance = Instance(
    version: string,
    host: string,
    legacy: bool,
    permanent: bool,
    openStreams: nat,
    firstSeen: real,
    lastSeen: real,
    lastSeenMono: real)
  {
    /** Neither a sweep nor an eviction may take it. */
    predicate Pinned() {
      permanent || openStreams > 0
    }

    predicate Lapsed(now: real, window: real) {
      !Pinned() && now - lastSeenMono > window
    }

    /** What a caller sees of the instance, apart from its first sighting and
        its host, which survive a lapse that nobody swept. */
    function View(): Visible {
      Visible(version, legacy, permanent, openStreams, lastSeen, lastSeenMono)
    }
  }

  datatype Visible = Visible(
    version: string,
    legacy: bool,
    permanent: bool,
    openStreams: nat,
    lastSeen: real,
    lastSeenMono: real)

  type Table = map<string, Instance>

  datatype Caller = Caller(component: string, version: string, instanceId: string, host: string) {
    function Name(): string {
      EntryName(component, instanceId)
    }
  }

  /** The key of an instance: component and instance id joined by a slash. */
  function EntryName(component: string, instanceId: string): string {
    component + "/" + instanceId
  }

  /** Two instances share a key if and only if they are the same, or one component name goes on after the
      other and a slash, and the other's instance id makes up for the rest of it. */
  lemma KeysShareIff(a: string, i: string, b: string, j: string)
    requires |a| <= |b|
    ensures EntryName(a, i) == EntryName(b, j) <==>
      (a == b && i == j) || (a + "/" <= b && i == b[|a| + 1..] + "/" + j)
  {
    var k, l := EntryName(a, i), EntryName(b, j);
    if k == l {
      assert k[..|a|] == a && k[|a|] == '/' && k[|a| + 1..] == i;
      assert l[..|b|] == b && l[|b|] == '/' && l[|b| + 1..] == j;
      if |a| < |b| {
        assert b[..|a|] == a && b[|a|] == '/' && a + "/" <= b;
        assert l[|a| + 1..] == b[|a| + 1..] + "/" + j;
      }
    }
    if a + "/" <= b {
      assert b == a + "/" + b[|a| + 1..];
    }
  }

  datatype Config = Config(window: real, max: nat)

  /** At most once in this many seconds a call looks for lapsed entries. */
  const EXPIRY_CHECK_INTERVAL: real := 1.0

  function Sweep(t: Table, now: real, window: real): Table {
    map n | n in t && !t[n].Lapsed(now, window) :: t[n]
  }

  /** The instances that count as present, as a caller sees them. */
  function Present(t: Table, now: real, window: real): map<string, Visible> {
    map n | n in t && !t[n].Lapsed(now, window) :: t[n].View()
  }

  predicate Evictable(t: Table, n: string, keep: string)
    requires n in t
  {
    n != keep && !t[n].Pinned()
  }

  /** Entries of `before` have been evicted: only evictable ones, none younger than an evictable one
      that stays, and none when there was room. */
  ghost predicate Evicting(before: Table, after: Table, keep: string, max: nat) {
    && after.Keys <= before.Keys
    && (forall n :: n in after ==> after[n] == before[n])
    && (forall n :: n in before && n !in after ==> Evictable(before, n, keep))
    && (forall n, m :: n in before && n !in after && m in after && Evictable(before, m, keep)
                       ==> before[n].lastSeenMono <= before[m].lastSeenMono)
    && (after != before ==> |after| >= max)
  }

  ghost predicate NoneEvictable(t: Table, keep: string) {
    forall n :: n in t ==> !Evictable(t, n, keep)
  }

  lemma NothingLeft(before: Table, after: Table, keep: string, max: nat)
    requires Evicting(before, after, keep, max) && NoneEvictable(after, keep)
    ensures MadeRoom(before, after, keep, max)
  {}

  /** Eviction has come to its end: there is room, or nothing is left to evict. */
  ghost predicate MadeRoom(before: Table, after: Table, keep: string, max: nat) {
    && Evicting(before, after, keep, max)
    && (|after| <= max || NoneEvictable(after, keep))
  }

  lemma NothingEvictedYet(t: Table, keep: string, max: nat)
    ensures Evicting(t, t, keep, max)
  {}

  lemma RoomLeft(before: Table, after: Table, keep: string, max: nat)
    requires Evicting(before, after, keep, max) && |after| <= max
    ensures MadeRoom(before, after, keep, max)
  {}

  ghost predicate IsOldest(t: Table, keep: string, oldest: string) {
    && oldest in t && Evictable(t, oldest, keep)
    && forall m :: m in t && Evictable(t, m, keep) ==> t[oldest].lastSeenMono <= t[m].lastSeenMono
  }

  /** One entry too many has gone, an oldest one that may. */
  ghost predicate TookOldest(t: Table, t': Table, keep: string, max: nat) {
    && |t'| >= max
    && exists oldest :: IsOldest(t, keep, oldest) && t' == t - {oldest}
  }

  /** Taking the oldest is one more step of an eviction. */
  lemma TakingOldestEvicts(before: Table, t: Table, t': Table, keep: string, max: nat)
    requires Evicting(before, t, keep, max) && TookOldest(t, t', keep, max)
    ensures Evicting(before, t', keep, max)
  {
    var oldest :| IsOldest(t, keep, oldest) && t' == t - {oldest};
    forall n, m | n in before && n !in t' && m in t' && Evictable(before, m, keep)
      ensures before[n].lastSeenMono <= before[m].lastSeenMono
    {
      assert Evictable(t, m, keep);
    }
  }

  function Entered(c: Caller, legacy: bool, permanent: bool, wall: real, now: real): Instance {
    Instance(c.version, c.host, legacy, permanent, 0, wall, wall, now)
  }

  function Refreshed(i: Instance, c: Caller, legacy: bool, wall: real, now: real): Instance {
    i.(version := c.version,
       host := if c.host != "" then c.host else i.host,
       legacy := legacy,
       lastSeen := wall,
       lastSeenMono := now)
  }

  /** A call of `c` on a table that has just been swept, or not. */
  ghost predicate SeenOn(t: Table, c: Caller, legacy: bool, wall: real, now: real, max: nat, t': Table) {
    if c.Name() in t
    then t' == t[c.Name() := Refreshed(t[c.Name()], c, legacy, wall, now)]
    else MadeRoom(t[c.Name() := Entered(c, legacy, false, wall, now)], t', c.Name(), max)
  }

  function WithStreams(t: Table, n: string, streams: nat): Table
    requires n in t
  {
    t[n := t[n].(openStreams := streams)]
  }

  function Less1(k: nat): nat {
    if k == 0 then 0 else k - 1
  }

  /** The table and the time before which a call need not look for lapsed entries. */
  datatype State = State(table: Table, nextCheck: real)

  datatype Op =
    | Seen(caller: Caller, legacy: bool, wall: real)
    | Opened(name: string)
    | Closed(name: string)
    | Permanent(caller: Caller, wall: real)
    | Look

  /** The tracker: sweeps on a call only when the last look is long enough ago. */
  ghost predicate LazyStep(cfg: Config, s: State, op: Op, now: real, s': State) {
    match op
    case Seen(c, legacy, wall) =>
      var due := now >= s.nextCheck;
      && s'.nextCheck == (if due then now + EXPIRY_CHECK_INTERVAL else s.nextCheck)
      && SeenOn(if due then Sweep(s.table, now, cfg.window) else s.table, c, legacy, wall, now, cfg.max, s'.table)
    case Opened(n) =>
      n in s.table && s' == s.(table := WithStreams(s.table, n, s.table[n].openStreams + 1))
    case Closed(n) =>
      n in s.table &&
      s' == State(Sweep(WithStreams(s.table, n, Less1(s.table[n].openStreams)), now, cfg.window),
                  now + EXPIRY_CHECK_INTERVAL)
    case Permanent(c, wall) =>
      s' == s.(table := s.table[c.Name() := Entered(c, false, true, wall, now)])
    case Look =>
      s' == State(Sweep(s.table, now, cfg.window), now + EXPIRY_CHECK_INTERVAL)
  }

  /** The reference: every step starts by dropping what has lapsed. */
  ghost predicate EagerStep(cfg: Config, t: Table, op: Op, now: real, t': Table) {
    var live := Sweep(t, now, cfg.window);
    match op
    case Seen(c, legacy, wall) => SeenOn(live, c, legacy, wall, now, cfg.max, t')
    case Opened(n) =>
      t' == if n in live then WithStreams(live, n, live[n].openStreams + 1) else live
    case Closed(n) =>
      t' == if n in live then Sweep(WithStreams(live, n, Less1(live[n].openStreams)), now, cfg.window) else live
    case Permanent(c, wall) => t' == live[c.Name() := Entered(c, false, true, wall, now)]
    case Look => t' == live
  }
}

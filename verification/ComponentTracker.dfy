/** The component tracker: objects for the running instances, held in a table
    and mirrored one to one into the registry. */
module ComponentTrackers {
  import opened Options
  import opened PresenceTable
  import opened ComponentRegistries

  class ComponentEntry {
    const component: string
    const instanceId: string
    const permanent: bool
    const firstSeen: real
    var version: string
    var host: string
    var legacy: bool
    var lastSeen: real
    var openStreams: nat
    var lastSeenMono: real

    constructor (c: Caller, legacy: bool, permanent: bool, wall: real, now: real)
      ensures Name() == c.Name() && Who() == (c.component, c.instanceId)
      ensures Value() == Entered(c, legacy, permanent, wall, now)
    {
      component, instanceId := c.component, c.instanceId;
      version, host := c.version, c.host;
      this.legacy, this.permanent := legacy, permanent;
      firstSeen, lastSeen := wall, wall;
      openStreams := 0;
      lastSeenMono := now;
    }

    function Name(): string {
      EntryName(component, instanceId)
    }

    function Who(): Identity {
      (component, instanceId)
    }

    method Refresh(c: Caller, legacy: bool, wall: real, now: real)
      modifies this
      ensures Value() == Refreshed(old(Value()), c, legacy, wall, now)
    {
      version := c.version;
      host := if c.host != "" then c.host else host;
      this.legacy := legacy;
      lastSeen := wall;
      lastSeenMono := now;
    }

    function Value(): Instance
      reads this
    {
      Instance(version, host, legacy, permanent, openStreams, firstSeen, lastSeen, lastSeenMono)
    }
  }

  /** Component and instance id of a caller. */
  type Identity = (string, string)

  /** What the registry holds: a component, or something else under another kind. */
  datatype Handle = Component(entry: ComponentEntry) | Role(id: nat, caller: Option<Identity>)

  /** The entries of all other kinds. */
  ghost function Others(m: map<Key, Handle>): map<Key, Handle> {
    map k | k in m && k.kind != KIND_COMPONENT :: m[k]
  }

  /** The roles that hang on an instance. */
  function RolesOf(m: map<Key, Handle>, who: Identity): set<Key> {
    set k | k in m && k.kind != KIND_COMPONENT && m[k].Role? && m[k].caller == Some(who)
  }

  /** No entry is new or has been exchanged. */
  ghost predicate Kept(after: map<string, ComponentEntry>, before: map<string, ComponentEntry>) {
    forall n :: n in after ==> n in before && after[n] == before[n]
  }

  class ComponentTracker {
    const registry: ComponentRegistry<Handle>
    const cfg: Config
    var entries: map<string, ComponentEntry>
    var nextCheck: real
    /** The values of the entries. */
    ghost var table: Table

    /** Table and registry hold the same entry objects under the same names, apart from
        entries that are about to be announced. */
    ghost predicate Mirrored(unannounced: set<string>)
      reads this`entries, registry
    {
      && (forall n :: n !in unannounced ==> (n in entries <==> Key(KIND_COMPONENT, n) in registry.entries))
      && (forall n :: n in entries && n !in unannounced ==>
            registry.entries[Key(KIND_COMPONENT, n)] == Component(entries[n]))
    }

    ghost predicate Tabled()
      reads this, entries.Values
    {
      && table.Keys == entries.Keys
      && forall n :: n in entries ==> entries[n].Name() == n && table[n] == entries[n].Value()
    }

    ghost predicate ValidBut(unannounced: set<string>)
      reads this, registry, registry.listeners, entries.Values
    {
      registry.Valid() && Mirrored(unannounced) && Tabled()
    }

    ghost predicate Valid()
      reads this, registry, registry.listeners, entries.Values
    {
      ValidBut({})
    }

    constructor (registry: ComponentRegistry<Handle>, cfg: Config)
      requires registry.Valid() && forall n :: Key(KIND_COMPONENT, n) !in registry.entries
      ensures Valid() && this.registry == registry && this.cfg == cfg
      ensures entries == map[] && table == map[] && nextCheck == 0.0
    {
      this.registry, this.cfg := registry, cfg;
      entries, table, nextCheck := map[], map[], 0.0;
    }

    method Remove(entry: ComponentEntry, ghost unannounced: set<string>)
      requires ValidBut(unannounced) && entry.Name() !in unannounced
      requires entry.Name() in entries && entries[entry.Name()] == entry
      modifies this`entries, this`table, registry`entries, registry.listeners
      ensures ValidBut(unannounced) && Others(registry.entries) == old(Others(registry.entries))
      ensures entries == old(entries) - {entry.Name()} && table == old(table) - {entry.Name()}
    {
      entries := entries - {entry.Name()};
      table := table - {entry.Name()};
      var _ := registry.Unregister(KIND_COMPONENT, entry.Name(), Component(entry));
    }

    method RemoveAll(gone: set<string>, ghost unannounced: set<string>)
      requires ValidBut(unannounced) && gone <= entries.Keys && gone !! unannounced
      modifies this`entries, this`table, registry`entries, registry.listeners
      ensures ValidBut(unannounced) && Others(registry.entries) == old(Others(registry.entries))
      ensures Kept(entries, old(entries)) && table == old(table) - gone
    {
      hide *;
      var rest := gone;
      Kept0(entries);
      NoneRemoved(table, gone);
      while rest != {}
        invariant ValidBut(unannounced) && Others(registry.entries) == old(Others(registry.entries))
        invariant rest <= gone && rest <= entries.Keys
        invariant Kept(entries, old(entries)) && table == old(table) - (gone - rest)
      {
        ghost var before, done := entries, gone - rest;
        var n :| n in rest;
        NamedByKey(n, unannounced);
        Remove(entries[n], unannounced);
        KeptWithout(entries, before, n);
        KeptOn(entries, before, old(entries));
        rest := rest - {n};
        OneMoreRemoved(old(table), done, n);
        assert done + {n} == gone - rest;
      }
      assert gone - {} == gone;
    }

    lemma NamedByKey(n: string, unannounced: set<string>)
      requires ValidBut(unannounced) && n in entries
      ensures entries[n].Name() == n
    {}

    /** Removes the instances with neither a stream nor a recent call. */
    method Expire(now: real, throttle: bool)
      requires Valid()
      modifies this`entries, this`table, this`nextCheck, registry`entries, registry.listeners
      ensures Valid() && Others(registry.entries) == old(Others(registry.entries))
      ensures Kept(entries, old(entries)) && table.Keys == entries.Keys
      ensures throttle && now < old(nextCheck) ==> table == old(table) && nextCheck == old(nextCheck)
      ensures !(throttle && now < old(nextCheck)) ==>
        table == Sweep(old(table), now, cfg.window) && nextCheck == now + EXPIRY_CHECK_INTERVAL
    {
      if throttle && now < nextCheck {
        return;
      }
      nextCheck := now + EXPIRY_CHECK_INTERVAL;
      var gone := set n | n in entries && entries[n].Value().Lapsed(now, cfg.window);
      SweepRemoves(table, gone, now, cfg.window);
      RemoveAll(gone, {});
    }

    /** Evicts the longest silent instance that may go, if there is one. */
    method EvictOldest(keep: string, ghost unannounced: set<string>) returns (evicted: bool)
      requires ValidBut(unannounced) && unannounced <= {keep} && keep in entries && |entries| > cfg.max
      modifies this`entries, this`table, registry`entries, registry.listeners
      ensures ValidBut(unannounced) && Others(registry.entries) == old(Others(registry.entries))
      ensures Kept(entries, old(entries))
      ensures keep in entries && table.Keys == entries.Keys
      ensures evicted ==> |table| < old(|table|) && TookOldest(old(table), table, keep, cfg.max)
      ensures !evicted ==> table == old(table) && NoneEvictable(table, keep)
    {
      var candidates := set n | n in entries && n != keep && !entries[n].Value().Pinned();
      if candidates == {} {
        assert forall n :: n in table ==> n !in candidates;
        return false;
      }
      var oldest := Oldest(candidates);
      TakeOldest(table, candidates, keep, cfg.max, oldest);
      Remove(entries[oldest], unannounced);
      evicted := true;
    }

    /** Evicts the longest silent instances until the table fits. */
    method MakeRoom(keep: string, ghost unannounced: set<string>)
      requires ValidBut(unannounced) && unannounced <= {keep} && keep in entries && table.Keys == entries.Keys
      modifies this`entries, this`table, registry`entries, registry.listeners
      ensures ValidBut(unannounced) && Others(registry.entries) == old(Others(registry.entries))
      ensures Kept(entries, old(entries)) && keep in entries
      ensures MadeRoom(old(table), table, keep, cfg.max)
    {
      hide *;
      NothingEvictedYet(table, keep, cfg.max);
      Kept0(entries);
      while |entries| > cfg.max
        invariant ValidBut(unannounced) && Others(registry.entries) == old(Others(registry.entries))
        invariant Kept(entries, old(entries))
        invariant keep in entries && table.Keys == entries.Keys && Evicting(old(table), table, keep, cfg.max)
        decreases |table|
      {
        ghost var t, before := table, entries;
        var evicted := EvictOldest(keep, unannounced);
        KeptOn(entries, before, old(entries));
        if !evicted {
          NothingLeft(old(table), table, keep, cfg.max);
          return;
        }
        TakingOldestEvicts(old(table), t, table, keep, cfg.max);
      }
      assert |table.Keys| == |entries.Keys|;
      RoomLeft(old(table), table, keep, cfg.max);
    }

    method Oldest(names: set<string>) returns (oldest: string)
      requires names != {} && names <= entries.Keys
      ensures oldest in names
      ensures forall n :: n in names ==> entries[oldest].lastSeenMono <= entries[n].lastSeenMono
    {
      oldest :| oldest in names;
      var rest := names - {oldest};
      while rest != {}
        invariant rest <= names && oldest in names
        invariant forall n :: n in names - rest ==> entries[oldest].lastSeenMono <= entries[n].lastSeenMono
      {
        var n :| n in rest;
        rest := rest - {n};
        if entries[n].lastSeenMono < entries[oldest].lastSeenMono {
          oldest := n;
        }
      }
    }

    /** A call of `c`: enters the instance if it is new and remembers version, path and time. */
    method Seen(c: Caller, legacy: bool, wall: real, now: real) returns (entry: ComponentEntry)
      requires Valid()
      modifies this`entries, this`table, this`nextCheck, entries.Values, registry`entries, registry.listeners
      ensures Valid() && Others(registry.entries) == old(Others(registry.entries))
      ensures LazyStep(cfg, State(old(table), old(nextCheck)), Op.Seen(c, legacy, wall), now, State(table, nextCheck))
      ensures c.Name() in entries && entries[c.Name()] == entry
    {
      hide *;
      Expire(now, true);
      ghost var base := table;
      if c.Name() !in entries {
        entry := Enter(c, legacy, wall, now);
      } else {
        entry := entries[c.Name()];
        KeptValue(entries, old(entries), c.Name());
        Touch(entry, c, legacy, wall, now);
      }
      SeenIsLazy(cfg, State(old(table), old(nextCheck)), base, State(table, nextCheck), c, legacy, wall, now);
    }

    /** The entry is still the one in the table. */
    predicate Holds(entry: ComponentEntry)
      reads this`entries
    {
      entry.Name() in entries && entries[entry.Name()] == entry
    }

    /** A handler of the instance starts streaming. Its entry may have left the table by now. */
    method StreamOpened(entry: ComponentEntry)
      requires Valid()
      modifies this`table, entry`openStreams
      ensures Valid() && entry.openStreams == old(entry.openStreams) + 1
      ensures if old(Holds(entry))
              then entry.Name() in old(table) &&
                   table == WithStreams(old(table), entry.Name(), old(table)[entry.Name()].openStreams + 1)
              else table == old(table)
    {
      SetStreams(entry, entry.openStreams + 1);
    }

    method SetStreams(entry: ComponentEntry, streams: nat)
      requires Valid()
      modifies this`table, entry`openStreams
      ensures Valid() && entry.openStreams == streams
      ensures if old(Holds(entry))
              then entry.Name() in old(table) && old(table)[entry.Name()].openStreams == old(entry.openStreams) &&
                   table == WithStreams(old(table), entry.Name(), streams)
              else table == old(table)
    {
      if entry.Name() in entries && entries[entry.Name()] == entry {
        HeldIsTabled(entry);
        SetHeldStreams(entry, streams);
      } else {
        assert forall n :: n in entries ==> entries[n] != entry;
        entry.openStreams := streams;
      }
    }

    method SetHeldStreams(entry: ComponentEntry, streams: nat)
      requires Valid() && Holds(entry)
      modifies this`table, entry`openStreams
      ensures Valid() && entry.openStreams == streams
      ensures entry.Name() in old(table) && table == WithStreams(old(table), entry.Name(), streams)
    {
      hide ComponentRegistry.Valid, Mirrored;
      entry.openStreams := streams;
      table := WithStreams(table, entry.Name(), streams);
    }

    lemma HeldIsTabled(entry: ComponentEntry)
      requires Valid() && Holds(entry)
      ensures entry.Name() in table && table[entry.Name()] == entry.Value()
    {}

    /** A handler ends. When it was the last stream of an instance not heard within the window, the
        instance goes at once. */
    method StreamClosed(entry: ComponentEntry, now: real)
      requires Valid()
      modifies this`entries, this`table, this`nextCheck, entry`openStreams, registry`entries, registry.listeners
      ensures Valid() && Others(registry.entries) == old(Others(registry.entries))
      ensures entry.openStreams == Less1(old(entry.openStreams))
      ensures LazyStep(cfg, State(old(table), old(nextCheck)),
                       if old(Holds(entry)) then Op.Closed(entry.Name()) else Op.Look, now, State(table, nextCheck))
    {
      ghost var held, before := Holds(entry), State(table, nextCheck);
      SetStreams(entry, Less1(entry.openStreams));
      Expire(now, false);
      ClosedIsLazy(cfg, before, entry.Name(), held, now, State(table, nextCheck));
    }

    /** Enters an instance that never lapses. */
    method RegisterPermanent(c: Caller, wall: real, now: real) returns (entry: ComponentEntry)
      requires Valid()
      modifies this`entries, this`table, registry`entries, registry.listeners
      ensures Valid() && Others(registry.entries) == old(Others(registry.entries))
      ensures LazyStep(cfg, State(old(table), old(nextCheck)), Op.Permanent(c, wall), now, State(table, nextCheck))
      ensures c.Name() in entries && entries[c.Name()] == entry
    {
      hide *;
      entry := new ComponentEntry(c, false, true, wall, now);
      Insert(entry);
      Announce(entry);
      PermanentIsLazy(cfg, State(old(table), old(nextCheck)), c, wall, now, entry.Value());
    }

    method Get(component: string, instanceId: string, now: real) returns (entry: Option<ComponentEntry>)
      requires Valid()
      modifies this`entries, this`table, this`nextCheck, registry`entries, registry.listeners
      ensures Valid() && Others(registry.entries) == old(Others(registry.entries))
      ensures LazyStep(cfg, State(old(table), old(nextCheck)), Op.Look, now, State(table, nextCheck))
      ensures entry.Some? <==> EntryName(component, instanceId) in table
      ensures entry.Some? ==> Holds(entry.value) && entry.value.Name() == EntryName(component, instanceId)
    {
      Expire(now, false);
      var name := EntryName(component, instanceId);
      entry := if name in entries then Some(entries[name]) else None;
    }

    /** All present instances, the ones seen last first, each with its roles. */
    method Snapshot(now: real) returns (list: seq<ComponentEntry>, roles: seq<set<Key>>)
      requires Valid()
      modifies this`entries, this`table, this`nextCheck, registry`entries, registry.listeners
      ensures Valid() && Others(registry.entries) == old(Others(registry.entries))
      ensures LazyStep(cfg, State(old(table), old(nextCheck)), Op.Look, now, State(table, nextCheck))
      ensures |list| == |table| && (forall e :: e in list ==> Holds(e)) && forall n :: n in entries ==>
                entries[n] in list
      ensures forall i, j :: 0 <= i < j < |list| ==> list[i].lastSeenMono >= list[j].lastSeenMono
      ensures |roles| == |list|
      ensures forall i :: 0 <= i < |list| ==> roles[i] == RolesOf(registry.entries, list[i].Who())
    {
      hide ValidBut, RolesOf, Holds, Others, Sweep;
      Expire(now, false);
      list := ByLastSighting();
      roles := RolesFor(list);
    }

    method RolesFor(list: seq<ComponentEntry>) returns (roles: seq<set<Key>>)
      ensures |roles| == |list|
      ensures forall i :: 0 <= i < |list| ==> roles[i] == RolesOf(registry.entries, list[i].Who())
    {
      hide *;
      var byCaller := Roles();
      roles := [];
      for i := 0 to |list|
        invariant |roles| == i
        invariant forall j :: 0 <= j < i ==> roles[j] == RolesOf(registry.entries, list[j].Who())
      {
        var who := list[i].Who();
        roles := roles + [if who in byCaller then byCaller[who] else {}];
      }
    }

    method Roles() returns (roles: map<Identity, set<Key>>)
      ensures forall who :: (if who in roles then roles[who] else {}) == RolesOf(registry.entries, who)
    {
      roles := map[];
      var rest := registry.entries.Keys;
      while rest != {}
        invariant rest <= registry.entries.Keys
        invariant forall who :: (if who in roles then roles[who] else {}) == RolesOf(registry.entries, who) - rest
      {
        var k :| k in rest;
        rest := rest - {k};
        var handle := registry.entries[k];
        if k.kind != KIND_COMPONENT && handle.Role? && handle.caller.Some? {
          var who := handle.caller.value;
          roles := roles[who := (if who in roles then roles[who] else {}) + {k}];
        }
      }
    }

    method ByLastSighting() returns (list: seq<ComponentEntry>)
      requires Valid()
      ensures |list| == |table| && (forall e :: e in list ==> Holds(e)) && forall n :: n in entries ==>
                entries[n] in list
      ensures forall i, j :: 0 <= i < j < |list| ==> list[i].lastSeenMono >= list[j].lastSeenMono
    {
      hide *;
      list := [];
      var rest := entries.Keys;
      AllHeld();
      while rest != {}
        invariant rest <= entries.Keys && |list| + |rest| == |table|
        invariant forall e :: e in list ==> Holds(e)
        invariant forall n :: n in entries && n !in rest ==> entries[n] in list
        invariant forall i, n :: 0 <= i < |list| && n in rest ==> list[i].lastSeenMono <= entries[n].lastSeenMono
        invariant forall i, j :: 0 <= i < j < |list| ==> list[i].lastSeenMono >= list[j].lastSeenMono
      {
        var n := Oldest(rest);
        list := [entries[n]] + list;
        rest := rest - {n};
      }
    }

    lemma AllHeld()
      requires Valid()
      ensures |table| == |entries.Keys| && forall n :: n in entries ==> Holds(entries[n])
    {
      assert table.Keys == entries.Keys;
      assert |table| == |table.Keys|;
    }

    method Enter(c: Caller, legacy: bool, wall: real, now: real) returns (entry: ComponentEntry)
      requires Valid() && c.Name() !in entries && table.Keys == entries.Keys
      modifies this`entries, this`table, registry`entries, registry.listeners
      ensures Valid() && Others(registry.entries) == old(Others(registry.entries))
      ensures c.Name() in entries && entries[c.Name()] == entry
      ensures SeenOn(old(table), c, legacy, wall, now, cfg.max, table)
    {
      hide *;
      entry := new ComponentEntry(c, legacy, false, wall, now);
      Insert(entry);
      ghost var before := entries;
      MakeRoom(c.Name(), {c.Name()});
      KeptValue(entries, before, c.Name());
      Announce(entry);
      EntryIsSeen(old(table), c, legacy, wall, now, cfg.max, table);
    }

    method Insert(entry: ComponentEntry)
      requires Valid()
      modifies this`entries, this`table
      ensures ValidBut({entry.Name()}) && registry.entries == old(registry.entries) && table.Keys == entries.Keys
      ensures entries == old(entries)[entry.Name() := entry] && table == old(table)[entry.Name() := entry.Value()]
    {
      entries := entries[entry.Name() := entry];
      table := table[entry.Name() := entry.Value()];
    }

    /** The registry learns of an instance only when there is room for it. */
    method Announce(entry: ComponentEntry)
      requires ValidBut({entry.Name()}) && entry.Name() in entries && entries[entry.Name()] == entry
      modifies registry`entries, registry.listeners
      ensures Valid() && Others(registry.entries) == old(Others(registry.entries))
    {
      var _ := registry.Register(KIND_COMPONENT, entry.Name(), Component(entry));
    }

    method Touch(entry: ComponentEntry, c: Caller, legacy: bool, wall: real, now: real)
      requires Valid() && c.Name() in entries && entries[c.Name()] == entry
      modifies this`table, entry
      ensures Valid()
      ensures SeenOn(old(table), c, legacy, wall, now, cfg.max, table)
    {
      entry.Refresh(c, legacy, wall, now);
      table := table[c.Name() := entry.Value()];
    }
  }

  lemma KeptValue(a: map<string, ComponentEntry>, b: map<string, ComponentEntry>, n: string)
    requires Kept(a, b) && n in a
    ensures n in b && a[n] == b[n] && a[n] in b.Values
  {}

  lemma PermanentIsLazy(cfg: Config, s: State, c: Caller, wall: real, now: real, i: Instance)
    requires i == Entered(c, false, true, wall, now)
    ensures LazyStep(cfg, s, Op.Permanent(c, wall), now, s.(table := s.table[c.Name() := i]))
  {}

  lemma SeenIsLazy(cfg: Config, s: State, base: Table, s': State, c: Caller, legacy: bool, wall: real, now: real)
    requires now < s.nextCheck ==> base == s.table && s'.nextCheck == s.nextCheck
    requires now >= s.nextCheck ==>
      base == Sweep(s.table, now, cfg.window) && s'.nextCheck == now + EXPIRY_CHECK_INTERVAL
    requires SeenOn(base, c, legacy, wall, now, cfg.max, s'.table)
    ensures LazyStep(cfg, s, Seen(c, legacy, wall), now, s')
  {}

  lemma ClosedIsLazy(cfg: Config, s: State, n: string, held: bool, now: real, s': State)
    requires held ==> n in s.table
    requires s'.nextCheck == now + EXPIRY_CHECK_INTERVAL
    requires var t := if held then WithStreams(s.table, n, Less1(s.table[n].openStreams)) else s.table;
      s'.table == Sweep(t, now, cfg.window)
    ensures LazyStep(cfg, s, if held then Closed(n) else Look, now, s')
  {}

  lemma EntryIsSeen(t: Table, c: Caller, legacy: bool, wall: real, now: real, max: nat, t': Table)
    requires c.Name() !in t
    requires MadeRoom(t[c.Name() := Entered(c, legacy, false, wall, now)], t', c.Name(), max)
    ensures SeenOn(t, c, legacy, wall, now, max, t')
  {}

  lemma KeptOn(a: map<string, ComponentEntry>, b: map<string, ComponentEntry>, c: map<string, ComponentEntry>)
    requires Kept(a, b) && Kept(b, c)
    ensures Kept(a, c)
  {}

  lemma Kept0(a: map<string, ComponentEntry>)
    ensures Kept(a, a)
  {}

  lemma KeptWithout(a: map<string, ComponentEntry>, b: map<string, ComponentEntry>, n: string)
    requires a == b - {n}
    ensures Kept(a, b)
  {}

  lemma NoneRemoved(t: Table, gone: set<string>)
    ensures t == t - (gone - gone)
  {}

  lemma OneMoreRemoved(t: Table, gone: set<string>, n: string)
    ensures t - gone - {n} == t - (gone + {n})
  {}

  lemma SweepRemoves(t: Table, gone: set<string>, now: real, window: real)
    requires forall n :: n in gone <==> n in t && t[n].Lapsed(now, window)
    ensures t - gone == Sweep(t, now, window)
  {}

  lemma TakeOldest(t: Table, candidates: set<string>, keep: string, max: nat, oldest: string)
    requires |t| > max
    requires forall n :: n in candidates <==> n in t && Evictable(t, n, keep)
    requires oldest in candidates
    requires forall n :: n in candidates ==> t[oldest].lastSeenMono <= t[n].lastSeenMono
    ensures TookOldest(t, t - {oldest}, keep, max) && |t - {oldest}| < |t|
  {
    assert (t - {oldest}).Keys == t.Keys - {oldest};
    forall m | m in t && Evictable(t, m, keep)
      ensures t[oldest].lastSeenMono <= t[m].lastSeenMono
    {
      assert m in candidates;
    }
    assert IsOldest(t, keep, oldest);
  }

  /** A role hangs on the instance that announced it, from its announcement until the name is given away. */
  lemma RolesChange(m: map<Key, Handle>, k: Key, id: nat, caller: Option<Identity>, who: Identity)
    requires k.kind != KIND_COMPONENT
    ensures RolesOf(m[k := Role(id, caller)], who) == RolesOf(m, who) - {k} + (if caller == Some(who) then {k} else {})
    ensures RolesOf(m - {k}, who) == RolesOf(m, who) - {k} && RolesOf(map[], who) == {}
  {}
}

/** What is published from the registry: the filtered infrastructure stream and
    the address of the log collector. */
module InfrastructureFeed {
  import opened Options
  import opened ComponentRegistries

  // ----------------------------------------------------------------------
  // Filtered subscribers

  function Filter<H>(m: map<Key, H>, kinds: set<string>): map<Key, H> {
    map k | k in m && k.kind in kinds :: m[k]
  }

  function Wanted<H>(events: seq<Event<H>>, kinds: set<string>): seq<Event<H>> {
    if events == [] then []
    else
      var last := events[|events| - 1];
      Wanted(events[..|events| - 1], kinds) + (if last.key.kind in kinds then [last] else [])
  }

  /** A subscriber that gets only some kinds, in the snapshot and in the deltas, rebuilds exactly
      that part of the registry. */
  lemma {:induction false} FilteredReplay<H>(m: map<Key, H>, events: seq<Event<H>>, kinds: set<string>)
    ensures Replay(Filter(m, kinds), Wanted(events, kinds)) == Filter(Replay(m, events), kinds)
  {
    if events == [] {
    } else {
      var before, last := events[..|events| - 1], events[|events| - 1];
      FilteredReplay(m, before, kinds);
      if last.key.kind in kinds {
        ReplayOneMore(Filter(m, kinds), Wanted(before, kinds), last);
      } else {
        assert Wanted(events, kinds) == Wanted(before, kinds);
      }
      FilterApply(Replay(m, before), last, kinds);
    }
  }

  lemma FilterApply<H>(m: map<Key, H>, e: Event<H>, kinds: set<string>)
    ensures Filter(Apply(m, e), kinds) ==
            if e.key.kind in kinds then Apply(Filter(m, kinds), e) else Filter(m, kinds)
  {}

  // ----------------------------------------------------------------------
  // Order of instance names

  /** Lexicographic order, as of strings compared character by character. */
  predicate StrLe(a: string, b: string) {
    a == "" || (b != "" && (a[0] < b[0] || (a[0] == b[0] && StrLe(a[1..], b[1..]))))
  }

  lemma {:induction false} StrLeTotal(a: string, b: string)
    ensures StrLe(a, b) || StrLe(b, a)
    ensures StrLe(a, b) && StrLe(b, a) ==> a == b
  {
    if a != "" && b != "" {
      StrLeTotal(a[1..], b[1..]);
      assert a == [a[0]] + a[1..] && b == [b[0]] + b[1..];
    }
  }

  lemma {:induction false} StrLeTransitive(a: string, b: string, c: string)
    requires StrLe(a, b) && StrLe(b, c)
    ensures StrLe(a, c)
  {
    if a != "" && a[0] == c[0] {
      StrLeTransitive(a[1..], b[1..], c[1..]);
    }
  }

  ghost predicate IsLeast(n: string, names: set<string>) {
    n in names && forall m :: m in names ==> StrLe(n, m)
  }

  method Least(names: set<string>) returns (least: string)
    requires names != {}
    ensures IsLeast(least, names)
  {
    least :| least in names;
    var rest := names - {least};
    StrLeTotal(least, least);
    while rest != {}
      invariant rest <= names && least in names && least !in rest
      invariant forall m :: m in names - rest ==> StrLe(least, m)
    {
      var n :| n in rest;
      rest := rest - {n};
      StrLeTotal(n, least);
      StrLeTotal(n, n);
      if StrLe(n, least) {
        forall m | m in names - rest
          ensures StrLe(n, m)
        {
          if m != n {
            StrLeTransitive(n, least, m);
          }
        }
        least := n;
      }
    }
  }

  // ----------------------------------------------------------------------
  // The log collector

  datatype Handle = Collector(id: nat, host: string, port: string) | Other(id: nat)

  predicate IsBareIpv6(host: string) {
    ':' in host && (host == "" || host[0] != '[')
  }

  function FormatAddress(host: string, port: string): string {
    (if IsBareIpv6(host) then "[" + host + "]" else host) + ":" + port
  }

  function Address(h: Handle): string {
    match h
    case Collector(_, host, port) => FormatAddress(host, port)
    case Other(_) => ""
  }

  /** The addresses of the registered collectors by instance. */
  function Collectors(m: map<Key, Handle>): map<string, string> {
    map n | n in Names(m) :: Address(m[Key(KIND_LOG_COLLECTOR, n)])
  }

  function Names<H>(m: map<Key, H>): set<string> {
    set k | k in m && k.kind == KIND_LOG_COLLECTOR :: k.name
  }

  /** The address of the least registered instance, or nothing. */
  ghost predicate IsChosen(m: map<Key, Handle>, address: Option<string>) {
    match address
    case None => Names(m) == {}
    case Some(a) => exists n :: IsLeast(n, Names(m)) && a == Address(m[Key(KIND_LOG_COLLECTOR, n)])
  }

  /** Follows the registry: starts from its snapshot and gets every later event. */
  class CollectorFollower {
    var collectors: map<string, string>
    var published: Option<string>
    /** The snapshot with the events so far replayed. */
    ghost var known: map<Key, Handle>

    ghost predicate Valid()
      reads this
    {
      collectors == Collectors(known) && IsChosen(known, published)
    }

    constructor (snapshot: map<Key, Handle>)
      ensures Valid() && known == snapshot
    {
      known := snapshot;
      collectors := Collectors(snapshot);
      published := None;
      new;
      if collectors != map[] {
        Publish();
      } else {
        assert collectors.Keys == Names(known);
      }
    }

    method OnChange(e: Event<Handle>)
      requires Valid()
      modifies this
      ensures Valid() && known == Apply(old(known), e)
    {
      known := Apply(known, e);
      if e.key.kind != KIND_LOG_COLLECTOR {
        OtherKind(old(known), e);
        return;
      }
      match e {
        case Registered(k, h) =>
          collectors := collectors[k.name := Address(h)];
        case Unregistered(k, _) =>
          collectors := collectors - {k.name};
      }
      CollectorsApply(old(known), e);
      Publish();
    }

    method Publish()
      requires collectors == Collectors(known)
      modifies this`published
      ensures Valid()
    {
      assert collectors.Keys == Names(known);
      if collectors == map[] {
        published := None;
      } else {
        var n := Least(collectors.Keys);
        published := Some(collectors[n]);
      }
    }
  }

  lemma NamesApply<H>(m: map<Key, H>, e: Event<H>)
    ensures e.key.kind != KIND_LOG_COLLECTOR ==> Names(Apply(m, e)) == Names(m)
    ensures e.key.kind == KIND_LOG_COLLECTOR ==>
      Names(Apply(m, e)) == if e.Registered? then Names(m) + {e.key.name} else Names(m) - {e.key.name}
  {
    var m' := Apply(m, e);
    forall n
      ensures n in Names(m) <==> Key(KIND_LOG_COLLECTOR, n) in m
      ensures n in Names(m') <==> Key(KIND_LOG_COLLECTOR, n) in m'
    {}
  }

  lemma OtherKind(m: map<Key, Handle>, e: Event<Handle>)
    requires e.key.kind != KIND_LOG_COLLECTOR
    ensures Collectors(Apply(m, e)) == Collectors(m)
    ensures forall a :: IsChosen(m, a) ==> IsChosen(Apply(m, e), a)
  {
    NamesApply(m, e);
  }

  lemma CollectorsApply(m: map<Key, Handle>, e: Event<Handle>)
    requires e.key.kind == KIND_LOG_COLLECTOR
    ensures Collectors(Apply(m, e)) ==
            if e.Registered? then Collectors(m)[e.key.name := Address(e.handle)] else Collectors(m) - {e.key.name}
  {
    NamesApply(m, e);
  }

  /** Following any run of events publishes the address of the least collector registered at its end. */
  method Follow(snapshot: map<Key, Handle>, events: seq<Event<Handle>>) returns (published: Option<string>)
    ensures IsChosen(Replay(snapshot, events), published)
  {
    hide IsChosen, Collectors, Apply;
    var f := new CollectorFollower(snapshot);
    var i := 0;
    while i < |events|
      invariant 0 <= i <= |events| && f.Valid() && fresh(f)
      invariant f.known == Replay(snapshot, events[..i])
    {
      f.OnChange(events[i]);
      assert events[..i + 1] == events[..i] + [events[i]];
      ReplayOneMore(snapshot, events[..i], events[i]);
      i := i + 1;
    }
    assert events[..|events|] == events;
    published := f.published;
  }

  // ----------------------------------------------------------------------
  // What the names and addresses mean

  /** The order by characters: where two names first differ the smaller character comes first, and a name
      comes before its continuations. */
  lemma {:induction false} StrLeIff(a: string, b: string)
    ensures StrLe(a, b) <==> a == b || exists i ::
      && 0 <= i < |b| && i <= |a| && a[..i] == b[..i]
      && (i == |a| || a[i] as int < b[i] as int)
  {
    if a == "" {
      assert b != "" ==> a[..0] == b[..0];
    } else if b == "" {
    } else {
      var x, y := a[1..], b[1..];
      StrLeIff(x, y);
      assert a == [a[0]] + x && b == [b[0]] + y;
      assert a[..0] == b[..0];
      forall i | 0 <= i <= |x| && i <= |y|
        ensures a[..i + 1] == [a[0]] + x[..i] && b[..i + 1] == [b[0]] + y[..i]
      {}
      if a[0] == b[0] && StrLe(x, y) && x != y {
        var i :| 0 <= i < |y| && i <= |x| && x[..i] == y[..i] && (i == |x| || x[i] as int < y[i] as int);
        assert a[..i + 1] == b[..i + 1];
      }
      if i :| 0 < i < |b| && i <= |a| && a[..i] == b[..i] && (i == |a| || a[i] as int < b[i] as int) {
        assert a[0] == a[..i][0] == b[..i][0] == b[0];
        assert x[..i - 1] == a[..i][1..] && y[..i - 1] == b[..i][1..];
      }
    }
  }

  /** A collector's address is the host, a colon and the port; a host that has colons itself stands in
      brackets, unless it came in them. */
  lemma AddressIs(id: nat, host: string, port: string)
    ensures var a := Address(Collector(id, host, port));
      && (':' !in host || host[0] == '[' ==> a == host + ":" + port)
      && (':' in host && host[0] != '[' ==> a == "[" + host + "]:" + port)
      && (':' !in port ==> exists i ::
            0 <= i < |a| && a[i] == ':' && a[i + 1..] == port && (':' in a[..i] ==> a[0] == '['))
  {
    var a := Address(Collector(id, host, port));
    var i := |a| - |port| - 1;
    var front := if IsBareIpv6(host) then "[" + host + "]" else host;
    assert a[i] == ':' && a[i + 1..] == port && a[..i] == front;
    assert "[" + host + "]" + ":" + port == "[" + host + "]:" + port;
  }

  /** Nothing is published just when no collector is registered, and else the address of one whose name is
      not above any other's. */
  lemma PublishedIff(m: map<Key, Handle>, address: Option<string>)
    ensures IsChosen(m, address) <==>
      if address == None then forall n :: Key(KIND_LOG_COLLECTOR, n) !in m
      else exists n ::
        && Key(KIND_LOG_COLLECTOR, n) in m && address.value == Address(m[Key(KIND_LOG_COLLECTOR, n)])
        && forall o :: Key(KIND_LOG_COLLECTOR, o) in m ==> StrLe(n, o)
  {
    hide StrLe, Address;
    forall n
      ensures n in Names(m) <==> Key(KIND_LOG_COLLECTOR, n) in m
    {
      if Key(KIND_LOG_COLLECTOR, n) in m {
        assert Key(KIND_LOG_COLLECTOR, n).name in Names(m);
      }
    }
    hide Names;
    if address.Some? {
      forall n | Key(KIND_LOG_COLLECTOR, n) in m && forall o :: Key(KIND_LOG_COLLECTOR, o) in m ==> StrLe(n, o)
        ensures IsLeast(n, Names(m))
      {}
    }
  }

  /** A subscriber to some kinds gets exactly the entries and as many events of those. */
  lemma {:induction false} FilterTells<H>(m: map<Key, H>, events: seq<Event<H>>, kinds: set<string>, k: Key,
                                          e: Event<H>)
    ensures k in Filter(m, kinds) <==> k in m && k.kind in kinds
    ensures k in Filter(m, kinds) ==> Filter(m, kinds)[k] == m[k]
    ensures multiset(Wanted(events, kinds))[e] == if e.key.kind in kinds then multiset(events)[e] else 0
  {
    if events == [] {
    } else {
      FilterTells(m, events[..|events| - 1], kinds, k, e);
      assert events == events[..|events| - 1] + [events[|events| - 1]];
    }
  }
}

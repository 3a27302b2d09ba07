/** Streams that announce themselves under a name and take over from one
    another: channel adapters and log collectors. */
module RoleStreams {
  import opened Options
  import opened ComponentRegistries

  /** Whether a stream that goes on to another name, or ends, gives this one back. A channel
      adapter does not give back the empty name. */
  predicate GivesBack(kind: string, name: string) {
    kind != KIND_CHANNEL || name != ""
  }

  /** The registry after the stream has given back the name it announced, if it still holds it. */
  function Released<S(==)>(kind: string, m: map<Key, S>, current: Option<string>, s: S): map<Key, S> {
    if
      && current.Some? && GivesBack(kind, current.value)
      && Key(kind, current.value) in m && m[Key(kind, current.value)] == s
    then m - {Key(kind, current.value)}
    else m
  }

  class RoleSub {
    var name: Option<string>
    var closed: bool

    constructor ()
      ensures name == None && !closed
    {
      name, closed := None, false;
    }

    method Close()
      modifies this`closed
      ensures closed
    {
      closed := true;
    }
  }

  class RoleServer {
    const kind: string
    const registry: ComponentRegistry<RoleSub>

    constructor (kind: string, registry: ComponentRegistry<RoleSub>)
      ensures this.kind == kind && this.registry == registry
    {
      this.kind, this.registry := kind, registry;
    }

    /** The stream announces itself; whoever held the name is told to end. */
    method RegisterRole(sub: RoleSub, name: string)
      requires registry.Valid()
      modifies sub, registry`entries, registry.listeners, registry.entries.Values
      ensures registry.Valid()
      ensures registry.entries == Released(kind, old(registry.entries), old(sub.name), sub)[Key(kind, name) := sub]
      ensures sub.name == Some(name)
      ensures forall s :: s in old(registry.entries).Values && s != sub ==>
        s.name == old(s.name) &&
        s.closed == (old(s.closed) ||
                     (Key(kind, name) in old(registry.entries) && old(registry.entries)[Key(kind, name)] == s))
    {
      if sub.name.Some? && GivesBack(kind, sub.name.value) {
        var _ := registry.Unregister(kind, sub.name.value, sub);
      }
      sub.name := Some(name);
      var displaced := registry.Register(kind, name, sub);
      if displaced.Some? {
        displaced.value.Close();
      }
    }

    /** The stream has ended. */
    method Cleanup(sub: RoleSub)
      requires registry.Valid()
      modifies registry`entries, registry.listeners
      ensures registry.Valid()
      ensures registry.entries == Released(kind, old(registry.entries), sub.name, sub)
    {
      if sub.name.Some? && GivesBack(kind, sub.name.value) {
        var _ := registry.Unregister(kind, sub.name.value, sub);
      }
    }
  }

  // ----------------------------------------------------------------------
  // Whole runs

  datatype Event = Register(stream: nat, name: string) | End(stream: nat)

  datatype Roles = Roles(entries: map<Key, nat>, current: map<nat, string>, closed: set<nat>)

  function Current(r: Roles, s: nat): Option<string> {
    if s in r.current then Some(r.current[s]) else None
  }

  function Do(kind: string, r: Roles, e: Event): Roles {
    var released := Released(kind, r.entries, Current(r, e.stream), e.stream);
    match e
    case Register(s, n) =>
      var k := Key(kind, n);
      Roles(released[k := s], r.current[s := n],
            if k in released && released[k] != s then r.closed + {released[k]} else r.closed)
    case End(_) => Roles(released, r.current, r.closed)
  }

  function Run(kind: string, log: seq<Event>): Roles {
    if log == [] then Roles(map[], map[], {}) else Do(kind, Run(kind, log[..|log| - 1]), log[|log| - 1])
  }

  /** The i-th event is the last announcement of the name, and its stream has not given it back since. */
  ghost predicate HoldsSince(kind: string, log: seq<Event>, i: nat, n: string, s: nat)
    requires i < |log|
  {
    && log[i] == Register(s, n)
    && (forall j :: i < j < |log| && log[j].Register? ==> log[j].name != n)
    && (GivesBack(kind, n) ==> forall j :: i < j < |log| ==> log[j].stream != s)
  }

  ghost predicate Holder(kind: string, log: seq<Event>, n: string, s: nat) {
    exists i :: 0 <= i < |log| && HoldsSince(kind, log, i, n, s)
  }

  ghost predicate IsLastOf(log: seq<Event>, i: nat, s: nat, n: string)
    requires i < |log|
  {
    log[i] == Register(s, n) && forall j :: i < j < |log| && log[j].Register? ==> log[j].stream != s
  }

  /** The name the stream announced last. */
  ghost predicate AnnouncedLast(log: seq<Event>, s: nat, n: string) {
    exists i :: 0 <= i < |log| && IsLastOf(log, i, s, n)
  }

  lemma {:induction false} CurrentIsLast(kind: string, log: seq<Event>, s: nat, n: string)
    ensures Current(Run(kind, log), s) == Some(n) <==> AnnouncedLast(log, s, n)
  {
    if log == [] {
    } else {
      var before, e := log[..|log| - 1], log[|log| - 1];
      CurrentIsLast(kind, before, s, n);
      AnnouncedStep(before, e, s, n);
      assert log == before + [e];
    }
  }

  lemma AnnouncedStep(before: seq<Event>, e: Event, s: nat, n: string)
    ensures AnnouncedLast(before + [e], s, n) <==>
      e == Register(s, n) || (AnnouncedLast(before, s, n) && !(e.Register? && e.stream == s))
  {
    var log := before + [e];
    assert forall j :: 0 <= j < |before| ==> before[j] == log[j];
    if AnnouncedLast(log, s, n) && e != Register(s, n) {
      var i :| 0 <= i < |log| && IsLastOf(log, i, s, n);
      assert i < |before| && log[|before|] == e;
      assert IsLastOf(before, i, s, n);
    }
    if AnnouncedLast(before, s, n) && !(e.Register? && e.stream == s) {
      var i :| 0 <= i < |before| && IsLastOf(before, i, s, n);
      assert IsLastOf(log, i, s, n);
    }
    if e == Register(s, n) {
      assert IsLastOf(log, |before|, s, n);
    }
  }

  /** The registry holds, under each name, exactly the stream that announced it last, unless that
      stream went on to another name or ended: the cleanup of a displaced stream never removes its
      successor. */
  lemma {:induction false} RegistryIsHolder(kind: string, log: seq<Event>, n: string, s: nat)
    ensures Key(kind, n) in Run(kind, log).entries && Run(kind, log).entries[Key(kind, n)] == s <==>
              Holder(kind, log, n, s)
  {
    if log == [] {
    } else {
      var before, e := log[..|log| - 1], log[|log| - 1];
      assert log == before + [e];
      RegistryIsHolder(kind, before, n, s);
      CurrentIsLast(kind, before, s, n);
      if GivesBack(kind, n) {
        HolderAnnounced(kind, before, n, s);
      }
      HolderStep(kind, before, e, n, s);
    }
  }

  lemma HolderAnnounced(kind: string, log: seq<Event>, n: string, s: nat)
    requires GivesBack(kind, n)
    ensures Holder(kind, log, n, s) ==> AnnouncedLast(log, s, n)
  {
    if Holder(kind, log, n, s) {
      var i :| 0 <= i < |log| && HoldsSince(kind, log, i, n, s);
      assert IsLastOf(log, i, s, n);
    }
  }

  /** How one more event changes who holds a name. */
  lemma HolderStep(kind: string, before: seq<Event>, e: Event, n: string, s: nat)
    ensures Holder(kind, before + [e], n, s) <==>
      || e == Register(s, n)
      || (Holder(kind, before, n, s) && !(e.Register? && e.name == n) && !(GivesBack(kind, n) && e.stream == s))
  {
    var log := before + [e];
    assert forall j :: 0 <= j < |before| ==> before[j] == log[j];
    if Holder(kind, log, n, s) && e != Register(s, n) {
      var i :| 0 <= i < |log| && HoldsSince(kind, log, i, n, s);
      assert i < |before| && log[|before|] == e;
      assert HoldsSince(kind, before, i, n, s);
    }
    if Holder(kind, before, n, s) && !(e.Register? && e.name == n) && !(GivesBack(kind, n) && e.stream == s) {
      var i :| 0 <= i < |before| && HoldsSince(kind, before, i, n, s);
      assert HoldsSince(kind, log, i, n, s);
    }
    if e == Register(s, n) {
      assert HoldsSince(kind, log, |before|, n, s);
    }
  }

  /** Of two names a stream holds, one is the empty name of a channel adapter, which is not given back. */
  lemma OneNamePerStream(kind: string, log: seq<Event>, n: string, m: string, s: nat)
    requires Holder(kind, log, n, s) && Holder(kind, log, m, s)
    ensures n == m || !GivesBack(kind, n) || !GivesBack(kind, m)
  {
    var i :| 0 <= i < |log| && HoldsSince(kind, log, i, n, s);
    var j :| 0 <= j < |log| && HoldsSince(kind, log, j, m, s);
  }

  /** Once its stream has ended, a name is still held by it if and only if it is the empty name of a
      channel adapter and was held at the end. */
  lemma HeldAfterEndIff(kind: string, log: seq<Event>, s: nat, n: string)
    ensures var entries := Run(kind, log + [End(s)]).entries;
      Key(kind, n) in entries && entries[Key(kind, n)] == s <==>
        kind == KIND_CHANNEL && n == "" && Holder(kind, log, n, s)
  {
    RegistryIsHolder(kind, log + [End(s)], n, s);
    HolderStep(kind, log, End(s), n, s);
  }

  /** A channel adapter that announced the empty name and then another holds both, and after its end
      the empty one. */
  lemma EmptyNameStays(s: nat, n: string)
    ensures var log := [Register(s, ""), Register(s, n)];
      && Holder(KIND_CHANNEL, log, "", s) && Holder(KIND_CHANNEL, log, n, s)
      && Key(KIND_CHANNEL, "") in Run(KIND_CHANNEL, log + [End(s)]).entries
  {
    var log := [Register(s, ""), Register(s, n)];
    assert HoldsSince(KIND_CHANNEL, log, if n == "" then 1 else 0, "", s);
    assert HoldsSince(KIND_CHANNEL, log, 1, n, s);
    HeldAfterEndIff(KIND_CHANNEL, log, s, "");
  }

  /** No stream is left behind: one that announced a name last still holds it, has given it back
      by ending, or has been told to end because another stream took the name. */
  lemma {:induction false} DisplacedIsClosed(kind: string, log: seq<Event>, n: string, s: nat)
    requires Current(Run(kind, log), s) == Some(n)
    ensures var r := Run(kind, log);
      || (Key(kind, n) in r.entries && r.entries[Key(kind, n)] == s)
      || s in r.closed
      || End(s) in log
  {
    if log == [] {
    } else {
      var before, e := log[..|log| - 1], log[|log| - 1];
      assert log == before + [e];
      if Current(Run(kind, before), s) == Some(n) {
        DisplacedIsClosed(kind, before, n, s);
      }
    }
  }
}

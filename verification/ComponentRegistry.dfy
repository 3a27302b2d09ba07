/** The registry of connected components: one handle per kind and name, and
    observers that receive a snapshot followed by every later change. */
module ComponentRegistries {
  import opened Options
  import opened Sequences

  const KIND_CHANNEL := "channel"
  const KIND_LOG_COLLECTOR := "log_collector"
  const KIND_COMPONENT := "component"

  datatype Key = Key(kind: string, name: string)

  datatype Event<H> = Registered(key: Key, handle: H) | Unregistered(key: Key, handle: H)

  function Apply<H>(m: map<Key, H>, e: Event<H>): map<Key, H> {
    match e
    case Registered(k, h) => m[k := h]
    case Unregistered(k, _) => m - {k}
  }

  /** What an observer knows who started from `m` and received `events`. */
  function Replay<H>(m: map<Key, H>, events: seq<Event<H>>): map<Key, H> {
    if events == [] then m else Apply(Replay(m, events[..|events| - 1]), events[|events| - 1])
  }

  lemma ReplayOneMore<H>(m: map<Key, H>, events: seq<Event<H>>, e: Event<H>)
    ensures Replay(m, events + [e]) == Apply(Replay(m, events), e)
  {
    assert (events + [e])[..|events|] == events;
  }

  function Copies<H>(e: Event<H>, n: nat): seq<Event<H>> {
    seq(n, _ => e)
  }

  /** Being told the same event several times in a row changes nothing more. */
  lemma {:induction false} ReplayCopies<H>(m: map<Key, H>, events: seq<Event<H>>, e: Event<H>, n: nat)
    requires n > 0
    ensures Replay(m, events + Copies(e, n)) == Apply(Replay(m, events), e)
  {
    if n == 1 {
      assert Copies(e, 1) == [e];
      ReplayOneMore(m, events, e);
    } else {
      ReplayCopies(m, events, e, n - 1);
      assert events + Copies(e, n) == (events + Copies(e, n - 1)) + [e];
      ReplayOneMore(m, events + Copies(e, n - 1), e);
    }
  }

  /** An observer: the snapshot it got on subscribing last and the events since. */
  class Listener<H(==)> {
    var snapshot: map<Key, H>
    var queue: seq<Event<H>>

    constructor ()
      ensures queue == []
    {
      snapshot, queue := map[], [];
    }

    ghost predicate Sees(entries: map<Key, H>)
      reads this
    {
      Replay(snapshot, queue) == entries
    }
  }

  class ComponentRegistry<H(==)> {
    var entries: map<Key, H>
    var listeners: seq<Listener<H>>

    /** Every observer can rebuild the registry. */
    ghost predicate Valid()
      reads this, listeners
    {
      forall l :: l in listeners ==> l.Sees(entries)
    }

    /** How often the observer is subscribed: it is told every event that often. */
    function Times(l: Listener<H>): nat
      reads this`listeners
    {
      multiset(listeners)[l]
    }

    constructor ()
      ensures Valid() && entries == map[] && listeners == []
    {
      entries, listeners := map[], [];
    }

    method Register(kind: string, name: string, handle: H) returns (displaced: Option<H>)
      requires Valid()
      modifies this`entries, listeners
      ensures Valid()
      ensures entries == old(entries)[Key(kind, name) := handle]
      ensures displaced == (if Key(kind, name) in old(entries) && old(entries)[Key(kind, name)] != handle
                            then Some(old(entries)[Key(kind, name)]) else None)
      ensures forall l :: l in listeners ==>
        l.queue == old(l.queue) + Copies(Registered(Key(kind, name), handle), Times(l))
    {
      var k := Key(kind, name);
      displaced := if k in entries && entries[k] != handle then Some(entries[k]) else None;
      entries := entries[k := handle];
      Notify(old(entries), Registered(k, handle));
    }

    /** Removes the entry only while it still holds this very handle. */
    method Unregister(kind: string, name: string, handle: H) returns (removed: bool)
      requires Valid()
      modifies this`entries, listeners
      ensures Valid()
      ensures removed <==> Key(kind, name) in old(entries) && old(entries)[Key(kind, name)] == handle
      ensures entries == if removed then old(entries) - {Key(kind, name)} else old(entries)
      ensures forall l :: l in listeners ==>
        l.queue == old(l.queue) + Copies(Unregistered(Key(kind, name), handle), if removed then Times(l) else 0)
    {
      var k := Key(kind, name);
      if k !in entries || entries[k] != handle {
        return false;
      }
      entries := entries - {k};
      Notify(old(entries), Unregistered(k, handle));
      removed := true;
    }

    /** An observer that is subscribed already is subscribed once more, and starts from a new snapshot. */
    method Subscribe(listener: Listener<H>)
      requires Valid()
      modifies this`listeners, listener
      ensures Valid()
      ensures listeners == old(listeners) + [listener] && listener.snapshot == entries && listener.queue == []
    {
      listeners := listeners + [listener];
      listener.snapshot, listener.queue := entries, [];
    }

    /** Takes back one subscription, if there is one. */
    method Unsubscribe(listener: Listener<H>)
      requires Valid()
      modifies this`listeners
      ensures Valid()
      ensures multiset(listeners) == multiset(old(listeners)) - multiset{listener}
    {
      for i := 0 to |listeners|
        invariant listener !in listeners[..i]
      {
        if listeners[i] == listener {
          WithoutOne(listeners, i);
          listeners := listeners[..i] + listeners[i + 1..];
          return;
        }
      }
      assert listeners[..|listeners|] == listeners;
    }

    /** Every observer can rebuild the registry with what it is told. */
    method Notify(ghost before: map<Key, H>, e: Event<H>)
      requires forall l :: l in listeners ==> l.Sees(before)
      requires entries == Apply(before, e)
      modifies listeners
      ensures Valid()
      ensures forall l :: l in listeners ==>
                l.queue == old(l.queue) + Copies(e, Times(l)) && l.snapshot == old(l.snapshot)
    {
      Tell(e);
      forall l | l in listeners
        ensures l.Sees(entries)
      {
        ReplayCopies(l.snapshot, old(l.queue), e, Times(l));
      }
    }

    /** Tells every observer the event, as often as it is subscribed. */
    method Tell(e: Event<H>)
      modifies listeners
      ensures forall l :: l in listeners ==>
                l.queue == old(l.queue) + Copies(e, Times(l)) && l.snapshot == old(l.snapshot)
    {
      hide Copies;
      NoCopies(e);
      for i := 0 to |listeners|
        invariant forall l :: l in listeners ==>
          l.queue == old(l.queue) + Copies(e, multiset(listeners[..i])[l]) && l.snapshot == old(l.snapshot)
      {
        assert listeners[..i + 1] == listeners[..i] + [listeners[i]];
        CopiesOneMore(e, multiset(listeners[..i])[listeners[i]]);
        listeners[i].queue := listeners[i].queue + [e];
      }
      assert listeners[..|listeners|] == listeners;
    }
  }

  lemma NoCopies<H>(e: Event<H>)
    ensures Copies(e, 0) == []
  {}

  lemma CopiesOneMore<H>(e: Event<H>, n: nat)
    ensures Copies(e, n) + [e] == Copies(e, n + 1)
  {}
}

/** One-time codes for linking accounts: two maps that are each other's inverse,
    as a fast form of a log of issued and consumed codes. */
module LinkTokens {

  datatype Owner = Owner(user: nat, service: string)

  datatype LinkToken = LinkToken(token: string, owner: Owner, expiresAt: real)

  datatype Lookup = Ok(entry: LinkToken) | Unknown | Expired

  /** The codes by their text and, of each owner, the text of the one in force. */
  datatype Store = Store(byToken: map<string, LinkToken>, byOwner: map<Owner, string>)

  /** The two maps are each other's inverse. */
  ghost predicate Inverse(s: Store) {
    && (forall t :: t in s.byToken ==>
          s.byToken[t].token == t && s.byToken[t].owner in s.byOwner && s.byOwner[s.byToken[t].owner] == t)
    && (forall o :: o in s.byOwner ==>
          s.byOwner[o] in s.byToken && s.byToken[s.byOwner[o]].owner == o)
  }

  function Remove(s: Store, e: LinkToken): Store {
    Store(s.byToken - {e.token},
          if e.owner in s.byOwner && s.byOwner[e.owner] == e.token then s.byOwner - {e.owner} else s.byOwner)
  }

  /** Without the codes that have run out. */
  function Pruned(s: Store, now: real): Store {
    Store(map t | t in s.byToken && s.byToken[t].expiresAt > now :: s.byToken[t],
          map o | o in s.byOwner && s.byOwner[o] in s.byToken && s.byToken[s.byOwner[o]].expiresAt > now ::
            s.byOwner[o])
  }

  /** Puts a code in force; its owner's former one is not any more. */
  function Put(s: Store, e: LinkToken): Store {
    var q := if e.owner in s.byOwner then s.byToken - {s.byOwner[e.owner]} else s.byToken;
    Store(q[e.token := e], s.byOwner[e.owner := e.token])
  }

  function Issue(s: Store, e: LinkToken, now: real): Store {
    Put(Pruned(s, now), e)
  }

  lemma PutKeepsInverse(s: Store, e: LinkToken)
    requires Inverse(s) && e.token !in s.byToken
    ensures Inverse(Put(s, e))
  {}

  lemma PrunedKeepsInverse(s: Store, now: real)
    requires Inverse(s)
    ensures Inverse(Pruned(s, now)) && Pruned(s, now).byToken.Keys <= s.byToken.Keys
  {}

  lemma RemoveKeepsInverse(s: Store, e: LinkToken)
    requires Inverse(s) && e.token in s.byToken && s.byToken[e.token] == e
    ensures Inverse(Remove(s, e))
  {}

  lemma IssueKeepsInverse(s: Store, e: LinkToken, now: real)
    requires Inverse(s) && e.token !in s.byToken
    ensures Inverse(Issue(s, e, now))
  {
    hide Inverse, Pruned, Put;
    PrunedKeepsInverse(s, now);
    PutKeepsInverse(Pruned(s, now), e);
  }

  lemma EntryUnderToken(s: Store, token: string)
    requires Inverse(s) && token in s.byToken
    ensures s.byToken[token].token == token
  {}

  lemma LookUpKeepsInverse(s: Store, token: string, service: string, now: real)
    requires Inverse(s)
    ensures Inverse(LookUp(s, token, service, now).0)
  {
    hide Inverse, Remove;
    if token in s.byToken {
      EntryUnderToken(s, token);
      RemoveKeepsInverse(s, s.byToken[token]);
    }
  }

  lemma ConsumeKeepsInverse(s: Store, token: string)
    requires Inverse(s)
    ensures Inverse(Consume(s, token))
  {
    hide Inverse, Remove;
    if token in s.byToken {
      EntryUnderToken(s, token);
      RemoveKeepsInverse(s, s.byToken[token]);
    }
  }

  function LookUp(s: Store, token: string, service: string, now: real): (Store, Lookup) {
    if token !in s.byToken || s.byToken[token].owner.service != service then (s, Unknown)
    else if s.byToken[token].expiresAt <= now then (Remove(s, s.byToken[token]), Expired)
    else (s, Ok(s.byToken[token]))
  }

  function Consume(s: Store, token: string): Store {
    if token in s.byToken then Remove(s, s.byToken[token]) else s
  }

  class LinkTokenStore {
    const ttl: real
    var byToken: map<string, LinkToken>
    var byOwner: map<Owner, string>

    function State(): Store
      reads this
    {
      Store(byToken, byOwner)
    }

    ghost predicate Valid()
      reads this
    {
      Inverse(State())
    }

    constructor (ttl: real)
      ensures Valid() && State() == Store(map[], map[]) && this.ttl == ttl
    {
      this.ttl, byToken, byOwner := ttl, map[], map[];
    }

    /** A new code for the owner; the one in force, if any, is no longer. The text is random. */
    method IssueToken(owner: Owner, text: string, now: real) returns (entry: LinkToken)
      requires Valid() && text !in byToken
      modifies this
      ensures Valid()
      ensures entry == LinkToken(text, owner, now + ttl)
      ensures State() == Issue(old(State()), entry, now)
    {
      hide Inverse, Pruned;
      PrunedKeepsInverse(State(), now);
      PruneExpired(now);
      entry := LinkToken(text, owner, now + ttl);
      PutKeepsInverse(State(), entry);
      if owner in byOwner {
        byToken := byToken - {byOwner[owner]};
        byOwner := byOwner - {owner};
      }
      byToken := byToken[text := entry];
      byOwner := byOwner[owner := text];
      assert byOwner == Pruned(old(State()), now).byOwner[owner := text];
    }

    method LookupToken(token: string, service: string, now: real) returns (r: Lookup)
      requires Valid()
      modifies this
      ensures Valid()
      ensures r == LookUp(old(State()), token, service, now).1
      ensures State() == LookUp(old(State()), token, service, now).0
    {
      if token !in byToken || byToken[token].owner.service != service {
        return Unknown;
      }
      var entry := byToken[token];
      if entry.expiresAt <= now {
        RemoveEntry(entry);
        return Expired;
      }
      r := Ok(entry);
    }

    method ConsumeToken(token: string)
      requires Valid()
      modifies this
      ensures Valid()
      ensures State() == Consume(old(State()), token)
    {
      if token in byToken {
        RemoveEntry(byToken[token]);
      }
    }

    method RemoveEntry(e: LinkToken)
      requires Valid() && e.token in byToken && byToken[e.token] == e
      modifies this
      ensures Valid()
      ensures State() == Remove(old(State()), e)
    {
      byToken := byToken - {e.token};
      if e.owner in byOwner && byOwner[e.owner] == e.token {
        byOwner := byOwner - {e.owner};
      }
    }

    method PruneExpired(now: real)
      requires Valid()
      modifies this
      ensures Valid()
      ensures State() == Pruned(old(State()), now)
    {
      var gone := set t | t in byToken && byToken[t].expiresAt <= now;
      ghost var before := State();
      while gone != {}
        invariant Valid()
        invariant forall t :: t in byToken <==> t in before.byToken && (before.byToken[t].expiresAt > now || t in gone)
        invariant forall t :: t in gone ==> t in byToken
        invariant forall t :: t in byToken ==> byToken[t] == before.byToken[t]
      {
        var t :| t in gone;
        gone := gone - {t};
        RemoveEntry(byToken[t]);
      }
      assert byToken == Pruned(before, now).byToken;
      InverseDetermined(State(), Pruned(before, now));
    }
  }

  /** The codes by text determine the codes by owner. */
  lemma InverseDetermined(s: Store, u: Store)
    requires Inverse(s) && Inverse(u) && s.byToken == u.byToken
    ensures s == u
  {
    forall o | o in s.byOwner
      ensures o in u.byOwner && u.byOwner[o] == s.byOwner[o]
    {
      assert s.byOwner[o] in u.byToken;
    }
    forall o | o in u.byOwner
      ensures o in s.byOwner
    {
      assert u.byOwner[o] in s.byToken;
    }
    assert s.byOwner.Keys == u.byOwner.Keys;
  }

  /** Issuing leaves the new code and, of the others, exactly those that have not run out and belong to
      someone else or to another service. */
  lemma IssueLeaves(s: Store, e: LinkToken, now: real, t: string)
    requires Inverse(s) && e.token !in s.byToken
    ensures var after := Issue(s, e, now);
      && (t in after.byToken <==>
            t == e.token || (t in s.byToken && s.byToken[t].expiresAt > now && s.byToken[t].owner != e.owner))
      && (t in after.byToken ==> after.byToken[t] == if t == e.token then e else s.byToken[t])
  {}
}

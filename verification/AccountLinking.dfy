/** Redeeming codes: what a code is worth according to the log of everything
    that was issued and consumed, and which accounts end up linked. */
module AccountLinking {
  import opened Options
  import opened LinkTokens

  // ----------------------------------------------------------------------
  // The log behind the store

  datatype Op =
    | Issuing(text: string, owner: Owner)
    | LookingUp(token: string, service: string)
    | Consuming(token: string)

  datatype Call = Call(op: Op, now: real)

  function Step(s: Store, c: Call, ttl: real): Store {
    match c.op
    case Issuing(text, owner) => Issue(s, LinkToken(text, owner, c.now + ttl), c.now)
    case LookingUp(token, service) => LookUp(s, token, service, c.now).0
    case Consuming(token) => Consume(s, token)
  }

  function After(log: seq<Call>, ttl: real): Store {
    if log == [] then Store(map[], map[]) else Step(After(log[..|log| - 1], ttl), log[|log| - 1], ttl)
  }

  /** Clocks do not run backwards, and no random code comes up twice. */
  ghost predicate Proper(log: seq<Call>) {
    && (forall i, j :: 0 <= i < j < |log| ==> log[i].now <= log[j].now)
    && (forall i, j :: 0 <= i < j < |log| && log[i].op.Issuing? && log[j].op.Issuing? ==>
      log[i].op.text != log[j].op.text)
  }

  /** The i-th call issued the code, and since then nobody consumed it or issued another to its owner. */
  ghost predicate IssuedAndKept(log: seq<Call>, i: nat, token: string, owner: Owner)
    requires i < |log|
  {
    && log[i].op == Issuing(token, owner)
    && (forall j :: i < j < |log| ==> log[j].op != Consuming(token))
    && (forall j :: i < j < |log| && log[j].op.Issuing? ==> log[j].op.owner != owner)
  }

  /** The newest code of its owner and service, not consumed, not run out. */
  ghost predicate InForce(log: seq<Call>, e: LinkToken, ttl: real) {
    exists i :: 0 <= i < |log| && IssuedAndKept(log, i, e.token, e.owner) && e.expiresAt == log[i].now + ttl
  }

  predicate Held(s: Store, e: LinkToken) {
    e.token in s.byToken && s.byToken[e.token] == e
  }

  lemma InForceStep(before: seq<Call>, c: Call, e: LinkToken, ttl: real)
    ensures InForce(before + [c], e, ttl) <==>
      || c == Call(Issuing(e.token, e.owner), e.expiresAt - ttl)
      || (InForce(before, e, ttl) && c.op != Consuming(e.token) && !(c.op.Issuing? && c.op.owner == e.owner))
  {
    var log := before + [c];
    assert forall j :: 0 <= j < |before| ==> log[j] == before[j];
    if InForce(log, e, ttl) && c != Call(Issuing(e.token, e.owner), e.expiresAt - ttl) {
      var i :| 0 <= i < |log| && IssuedAndKept(log, i, e.token, e.owner) && e.expiresAt == log[i].now + ttl;
      assert i < |before| && log[|before|] == c;
      assert IssuedAndKept(before, i, e.token, e.owner);
    }
    if InForce(before, e, ttl) && c.op != Consuming(e.token) && !(c.op.Issuing? && c.op.owner == e.owner) {
      var i :| 0 <= i < |before| && IssuedAndKept(before, i, e.token, e.owner) && e.expiresAt == before[i].now + ttl;
      assert IssuedAndKept(log, i, e.token, e.owner);
    }
    if c == Call(Issuing(e.token, e.owner), e.expiresAt - ttl) {
      assert IssuedAndKept(log, |before|, e.token, e.owner);
    }
  }

  /** One call keeps a code that has not run out, unless it consumes it or replaces it. */
  lemma HeldStep(s: Store, c: Call, e: LinkToken, ttl: real, now: real)
    requires Inverse(s) && c.now <= now && e.expiresAt > now
    requires c.op.Issuing? ==> c.op.text !in s.byToken
    ensures Inverse(Step(s, c, ttl))
    ensures Held(Step(s, c, ttl), e) <==>
      || c == Call(Issuing(e.token, e.owner), e.expiresAt - ttl)
      || (Held(s, e) && c.op != Consuming(e.token) && !(c.op.Issuing? && c.op.owner == e.owner))
  {
    match c.op
    case Issuing(text, owner) =>
      hide Inverse;
      IssueKeepsInverse(s, LinkToken(text, owner, c.now + ttl), c.now);
      HeldAfterIssue(s, LinkToken(text, owner, c.now + ttl), c.now, e);
    case LookingUp(token, service) =>
      hide Inverse;
      LookUpKeepsInverse(s, token, service, c.now);
      HeldAfterLookUp(s, token, service, c.now, e);
    case Consuming(token) =>
      hide Inverse;
      ConsumeKeepsInverse(s, token);
      HeldAfterConsume(s, token, e);
  }

  lemma HeldAfterIssue(s: Store, d: LinkToken, now: real, e: LinkToken)
    requires Inverse(s) && d.token !in s.byToken && e.expiresAt > now
    ensures Held(Issue(s, d, now), e) <==> e == d || (Held(s, e) && d.owner != e.owner)
  {
    var p := Pruned(s, now);
    PrunedKeepsInverse(s, now);
    assert Held(p, e) <==> Held(s, e);
  }

  lemma HeldAfterLookUp(s: Store, token: string, service: string, now: real, e: LinkToken)
    requires Inverse(s) && e.expiresAt > now
    ensures Held(LookUp(s, token, service, now).0, e) <==> Held(s, e)
  {}

  lemma HeldAfterConsume(s: Store, token: string, e: LinkToken)
    requires Inverse(s)
    ensures Held(Consume(s, token), e) <==> Held(s, e) && token != e.token
  {}

  lemma {:induction false} TokensWereIssued(log: seq<Call>, ttl: real, t: string)
    ensures t in After(log, ttl).byToken ==> exists i :: 0 <= i < |log| && log[i].op.Issuing? && log[i].op.text == t
  {
    if log != [] && t in After(log, ttl).byToken {
      var before, c := log[..|log| - 1], log[|log| - 1];
      TokensWereIssued(before, ttl, t);
      if t in After(before, ttl).byToken {
        var i :| 0 <= i < |before| && before[i].op.Issuing? && before[i].op.text == t;
        assert log[i] == before[i];
      }
    }
  }

  lemma LastCall(log: seq<Call>, ttl: real)
    requires Proper(log) && log != []
    ensures var before, c := log[..|log| - 1], log[|log| - 1];
      && Proper(before) && (before != [] ==> before[|before| - 1].now <= c.now)
      && (c.op.Issuing? ==> c.op.text !in After(before, ttl).byToken)
  {
    hide Step;
    var c := log[|log| - 1];
    if c.op.Issuing? {
      TokensWereIssued(log[..|log| - 1], ttl, c.op.text);
    }
  }

  /** The store holds, of the codes that have not run out, exactly those in force by the log. */
  lemma {:induction false} StoreIsLog(log: seq<Call>, ttl: real, e: LinkToken, now: real)
    requires Proper(log) && e.expiresAt > now
    requires log != [] ==> log[|log| - 1].now <= now
    ensures Inverse(After(log, ttl))
    ensures Held(After(log, ttl), e) <==> InForce(log, e, ttl)
  {
    if log == [] {
    } else {
      hide Proper, Step, Inverse, InForce;
      var before, c := log[..|log| - 1], log[|log| - 1];
      assert log == before + [c];
      LastCall(log, ttl);
      StoreIsLog(before, ttl, e, now);
      HeldStep(After(before, ttl), c, e, ttl, now);
      InForceStep(before, c, e, ttl);
    }
  }

  /** Looking a code up says OK exactly for the newest code of its owner and service that was neither
      consumed nor has run out. */
  lemma LookupOkIffInForce(log: seq<Call>, ttl: real, token: string, service: string, now: real, e: LinkToken)
    requires Proper(log) && (log != [] ==> log[|log| - 1].now <= now)
    ensures LookUp(After(log, ttl), token, service, now).1 == Ok(e) <==>
      e.token == token && e.owner.service == service && e.expiresAt > now && InForce(log, e, ttl)
  {
    if e.expiresAt > now {
      StoreIsLog(log, ttl, e, now);
    }
  }

  // ----------------------------------------------------------------------
  // Linking

  datatype Outcome = Linked | AlreadyLinked | LinkedElsewhere

  /** The external account of each owner: at most one per user and service. */
  type Accounts = map<Owner, string>

  predicate HeldByOther(accounts: Accounts, owner: Owner, account: string) {
    exists o :: o in accounts && o.service == owner.service && o.user != owner.user && accounts[o] == account
  }

  function LinkOutcome(accounts: Accounts, owner: Owner, account: string): Outcome {
    if HeldByOther(accounts, owner, account) then LinkedElsewhere
    else if owner in accounts then AlreadyLinked
    else Linked
  }

  /** No two users share an external account of a service. */
  ghost predicate OneToOne(accounts: Accounts) {
    forall o, p :: o in accounts && p in accounts && o.service == p.service && accounts[o] == accounts[p] ==> o == p
  }

  datatype Redeemed =
    | RedeemOk(user: nat)
    | UnknownToken
    | TokenExpired
    | AccountLinkedElsewhere
    | UserAlreadyLinked

  class AccountLinker {
    const tokens: LinkTokenStore
    var users: set<nat>
    var accounts: Accounts

    ghost predicate Valid()
      reads this, tokens
    {
      tokens.Valid() && OneToOne(accounts) && forall o :: o in accounts ==> o.user in users
    }

    constructor (tokens: LinkTokenStore, users: set<nat>)
      requires tokens.Valid()
      ensures Valid() && this.tokens == tokens && this.users == users && accounts == map[]
    {
      this.tokens, this.users, accounts := tokens, users, map[];
    }

    /** The user who holds an external account, if any does. */
    method FindByAccount(service: string, account: string) returns (user: Option<nat>)
      requires Valid()
      ensures user.Some? ==> Owner(user.value, service) in accounts && accounts[Owner(user.value, service)] == account
      ensures user == None ==> forall o :: o in accounts && o.service == service ==> accounts[o] != account
    {
      var rest := accounts.Keys;
      while rest != {}
        invariant rest <= accounts.Keys
        invariant forall o :: o in accounts && o !in rest && o.service == service ==> accounts[o] != account
      {
        var o :| o in rest;
        rest := rest - {o};
        if o.service == service && accounts[o] == account {
          return Some(o.user);
        }
      }
      user := None;
    }

    method LinkAccount(user: nat, service: string, account: string) returns (outcome: Outcome)
      requires Valid() && user in users
      modifies this`accounts
      ensures Valid()
      ensures outcome == LinkOutcome(old(accounts), Owner(user, service), account)
      ensures accounts == if outcome == Linked then old(accounts)[Owner(user, service) := account] else old(accounts)
    {
      var existing := FindByAccount(service, account);
      if existing.Some? && existing.value != user {
        return LinkedElsewhere;
      }
      if Owner(user, service) in accounts {
        return AlreadyLinked;
      }
      accounts := accounts[Owner(user, service) := account];
      outcome := Linked;
    }

    /** An adapter of `service` redeems a code. */
    method RedeemLinkToken(service: string, token: string, account: string, now: real) returns (r: Redeemed)
      requires Valid()
      modifies this`accounts, tokens
      ensures Valid()
      ensures var result := Redeem(old(tokens.State()), users, old(accounts), service, token, account, now);
        tokens.State() == result.0 && accounts == result.1 && r == result.2
    {
      if service == "" {
        return UnknownToken;
      }
      var found := tokens.LookupToken(token, service, now);
      if !found.Ok? {
        return if found == Expired then TokenExpired else UnknownToken;
      }
      var user := found.entry.owner.user;
      if user !in users {
        tokens.ConsumeToken(token);
        return UnknownToken;
      }
      var outcome := LinkAccount(user, service, account);
      if outcome == LinkedElsewhere {
        return AccountLinkedElsewhere;
      }
      if outcome == AlreadyLinked && accounts[Owner(user, service)] != account {
        return UserAlreadyLinked;
      }
      tokens.ConsumeToken(token);
      r := RedeemOk(user);
    }
  }

  function Redeem(s: Store, users: set<nat>, accounts: Accounts, service: string, token: string, account: string,
                  now: real)
    : (Store, Accounts, Redeemed)
  {
    if service == "" then (s, accounts, UnknownToken)
    else
      var (s1, found) := LookUp(s, token, service, now);
      match found
      case Unknown => (s1, accounts, UnknownToken)
      case Expired => (s1, accounts, TokenExpired)
      case Ok(e) =>
        var owner := Owner(e.owner.user, service);
        if owner.user !in users then (Consume(s1, token), accounts, UnknownToken)
        else if HeldByOther(accounts, owner, account) then (s1, accounts, AccountLinkedElsewhere)
        else if owner in accounts && accounts[owner] != account then (s1, accounts, UserAlreadyLinked)
        else (Consume(s1, token), accounts[owner := account], RedeemOk(owner.user))
  }

  /** A redeemed code is gone, and its user holds just the account it was redeemed for. */
  lemma RedeemedOnce(s: Store, users: set<nat>, accounts: Accounts, service: string, token: string, account: string,
                     now: real)
    requires Inverse(s)
    ensures var (s', accounts', r) := Redeem(s, users, accounts, service, token, account, now);
      r.RedeemOk? ==>
        && token !in s'.byToken && Inverse(s')
        && Owner(r.user, service) in accounts' && accounts'[Owner(r.user, service)] == account
  {}

  // ----------------------------------------------------------------------
  // Whole runs

  datatype System = System(store: Store, users: set<nat>, accounts: Accounts)

  datatype Event =
    | Create(text: string, owner: Owner)
    | Redeeming(service: string, token: string, account: string)
    | Linking(owner: Owner, account: string)
    | Unlinking(owner: Owner)
    | UserAdded(user: nat)
    | UserRemoved(user: nat)

  datatype Entry = Entry(event: Event, now: real)

  function Do(y: System, e: Entry, ttl: real): System {
    match e.event
    case Create(text, owner) => y.(store := Issue(y.store, LinkToken(text, owner, e.now + ttl), e.now))
    case Redeeming(service, token, account) =>
      var (s, a, _) := Redeem(y.store, y.users, y.accounts, service, token, account, e.now);
      y.(store := s, accounts := a)
    case Linking(owner, account) =>
      if owner.user in y.users && LinkOutcome(y.accounts, owner, account) == Linked
      then y.(accounts := y.accounts[owner := account]) else y
    case Unlinking(owner) => y.(accounts := y.accounts - {owner})
    case UserAdded(u) => y.(users := y.users + {u})
    case UserRemoved(u) =>
      y.(users := y.users - {u}, accounts := map o | o in y.accounts && o.user != u :: y.accounts[o])
  }

  function Run(events: seq<Entry>, ttl: real): System {
    if events == [] then System(Store(map[], map[]), {}, map[])
    else Do(Run(events[..|events| - 1], ttl), events[|events| - 1], ttl)
  }

  lemma DoKeepsInverse(y: System, e: Entry, ttl: real)
    requires Inverse(y.store) && (e.event.Create? ==> e.event.text !in y.store.byToken)
    ensures Inverse(Do(y, e, ttl).store)
  {
    hide Inverse, Redeem, Issue;
    match e.event
    case Create(text, owner) => IssueKeepsInverse(y.store, LinkToken(text, owner, e.now + ttl), e.now);
    case Redeeming(service, token, account) =>
      RedeemKeepsInverse(y.store, y.users, y.accounts, service, token, account, e.now);
    case _ =>
  }

  lemma RedeemKeepsInverse(s: Store, users: set<nat>, accounts: Accounts, service: string, token: string,
                           account: string, now: real)
    requires Inverse(s)
    ensures Inverse(Redeem(s, users, accounts, service, token, account, now).0)
  {
    hide Inverse, LookUp, Consume, HeldByOther;
    LookUpKeepsInverse(s, token, service, now);
    ConsumeKeepsInverse(LookUp(s, token, service, now).0, token);
  }

  /** Only issuing brings a code into the store. */
  lemma DoBringsOnlyCreated(y: System, e: Entry, ttl: real, t: string)
    requires t !in y.store.byToken && (e.event.Create? ==> e.event.text != t)
    ensures t !in Do(y, e, ttl).store.byToken
  {}

  ghost predicate FreshCodes(events: seq<Entry>) {
    forall i, j :: 0 <= i < j < |events| && events[i].event.Create? && events[j].event.Create? ==>
      events[i].event.text != events[j].event.text
  }

  /** What the k-th event, a redemption, gave back. */
  function RedeemedAt(events: seq<Entry>, k: nat, ttl: real): Redeemed
    requires k < |events| && events[k].event.Redeeming?
  {
    var y, e := Run(events[..k], ttl), events[k];
    Redeem(y.store, y.users, y.accounts, e.event.service, e.event.token, e.event.account, e.now).2
  }

  lemma {:induction false} RunKeepsOneToOne(events: seq<Entry>, ttl: real)
    ensures OneToOne(Run(events, ttl).accounts)
  {
    if events == [] {
    } else {
      RunKeepsOneToOne(events[..|events| - 1], ttl);
    }
  }

  lemma {:induction false} RunHoldsCreated(events: seq<Entry>, ttl: real, t: string)
    ensures t in Run(events, ttl).store.byToken ==> exists i ::
              0 <= i < |events| && events[i].event.Create? && events[i].event.text == t
  {
    if events != [] && t in Run(events, ttl).store.byToken {
      var before, e := events[..|events| - 1], events[|events| - 1];
      RunHoldsCreated(before, ttl, t);
      if t in Run(before, ttl).store.byToken {
        var i :| 0 <= i < |before| && before[i].event.Create? && before[i].event.text == t;
        assert events[i] == before[i];
      }
    }
  }

  lemma {:induction false} RunKeepsInverse(events: seq<Entry>, ttl: real)
    requires FreshCodes(events)
    ensures Inverse(Run(events, ttl).store)
  {
    if events == [] {
    } else {
      var before, e := events[..|events| - 1], events[|events| - 1];
      RunKeepsInverse(before, ttl);
      if e.event.Create? {
        RunHoldsCreated(before, ttl, e.event.text);
      }
      DoKeepsInverse(Run(before, ttl), e, ttl);
    }
  }

  lemma {:induction false} GoneStaysGone(events: seq<Entry>, k: nat, n: nat, t: string, ttl: real)
    requires FreshCodes(events) && k <= n <= |events|
    requires exists i :: 0 <= i < k && events[i].event.Create? && events[i].event.text == t
    requires t !in Run(events[..k], ttl).store.byToken
    ensures t !in Run(events[..n], ttl).store.byToken
  {
    hide Do;
    if k == n {
    } else {
      GoneStaysGone(events, k, n - 1, t, ttl);
      assert events[..n][..n - 1] == events[..n - 1];
      var i :| 0 <= i < k && events[i].event.Create? && events[i].event.text == t;
      DoBringsOnlyCreated(Run(events[..n - 1], ttl), events[n - 1], ttl, t);
    }
  }

  /** Each code yields at most one successful redemption in any run. */
  lemma AtMostOneRedeemOk(events: seq<Entry>, i: nat, j: nat, ttl: real)
    requires FreshCodes(events) && i < j < |events|
    requires events[i].event.Redeeming? && events[j].event.Redeeming? && events[i].event.token == events[j].event.token
    requires RedeemedAt(events, i, ttl).RedeemOk?
    ensures !RedeemedAt(events, j, ttl).RedeemOk?
  {
    var t := events[i].event.token;
    var y, e := Run(events[..i], ttl), events[i];
    assert FreshCodes(events[..i]);
    RunKeepsInverse(events[..i], ttl);
    RunHoldsCreated(events[..i], ttl, t);
    assert events[..i + 1][..i] == events[..i];
    RedeemedOnce(y.store, y.users, y.accounts, e.event.service, t, e.event.account, e.now);
    GoneStaysGone(events, i + 1, j, t, ttl);
  }
}

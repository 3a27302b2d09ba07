/** What a redemption comes to, by the history of the system: the log of issued
    and consumed codes behind a run of events. */
module RedemptionRuns {
  import opened LinkTokens
  import opened AccountLinking

  /** What stands against linking the account to the owner. */
  predicate Linkable(accounts: Accounts, owner: Owner, account: string) {
    !HeldByOther(accounts, owner, account) && (owner in accounts ==> accounts[owner] == account)
  }

  /** A redemption consumes its code when it succeeds, or when the user of the code is gone. */
  predicate Consumes(y: System, service: string, token: string, account: string, now: real) {
    var found := LookUp(y.store, token, service, now).1;
    && service != "" && found.Ok?
    && (found.entry.owner.user in y.users ==> Linkable(y.accounts, Owner(found.entry.owner.user, service), account))
  }

  /** The calls of the store that an event makes. */
  function CallsOf(y: System, e: Entry): seq<Call> {
    match e.event
    case Create(text, owner) => [Call(Issuing(text, owner), e.now)]
    case Redeeming(service, token, account) =>
      if service == "" then []
      else if Consumes(y, service, token, account, e.now)
      then [Call(LookingUp(token, service), e.now), Call(Consuming(token), e.now)]
      else [Call(LookingUp(token, service), e.now)]
    case Linking(_, _) => []
    case Unlinking(_) => []
    case UserAdded(_) => []
    case UserRemoved(_) => []
  }

  /** The log of the store behind a run. */
  function LogOf(events: seq<Entry>, ttl: real): seq<Call> {
    if events == [] then []
    else
      var before := events[..|events| - 1];
      LogOf(before, ttl) + CallsOf(Run(before, ttl), events[|events| - 1])
  }

  lemma AfterOne(log: seq<Call>, c: Call, ttl: real)
    ensures After(log + [c], ttl) == Step(After(log, ttl), c, ttl)
  {
    assert (log + [c])[..|log|] == log;
  }

  lemma AfterTwo(log: seq<Call>, c: Call, d: Call, ttl: real)
    ensures After(log + [c, d], ttl) == Step(Step(After(log, ttl), c, ttl), d, ttl)
  {
    hide After, Step;
    assert log + [c] + [d] == log + [c, d];
    AfterOne(log, c, ttl);
    AfterOne(log + [c], d, ttl);
  }

  /** The calls do to the store what the event does. */
  lemma CallsDo(y: System, e: Entry, log: seq<Call>, ttl: real)
    requires y.store == After(log, ttl)
    ensures Do(y, e, ttl).store == After(log + CallsOf(y, e), ttl)
  {
    hide After, Issue, Consume;
    match e.event
    case Create(text, owner) => AfterOne(log, Call(Issuing(text, owner), e.now), ttl);
    case Redeeming(service, token, account) =>
      var look, consume := Call(LookingUp(token, service), e.now), Call(Consuming(token), e.now);
      AfterOne(log, look, ttl);
      AfterTwo(log, look, consume, ttl);
      assert log + [] == log;
    case _ => assert log + [] == log;
  }

  lemma {:induction false} RunIsLog(events: seq<Entry>, ttl: real)
    ensures Run(events, ttl).store == After(LogOf(events, ttl), ttl)
  {
    hide Do, CallsOf;
    if events == [] {
    } else {
      var before := events[..|events| - 1];
      RunIsLog(before, ttl);
      CallsDo(Run(before, ttl), events[|events| - 1], LogOf(before, ttl), ttl);
    }
  }

  predicate Timed(events: seq<Entry>) {
    forall i, j :: 0 <= i < j < |events| ==> events[i].now <= events[j].now
  }

  ghost predicate CreatedBy(events: seq<Entry>, text: string) {
    exists i :: 0 <= i < |events| && events[i].event.Create? && events[i].event.text == text
  }

  /** The log is no later than the run, and issues only what the run creates. */
  lemma {:induction false} LogFromRun(events: seq<Entry>, ttl: real, c: Call)
    requires Timed(events) && c in LogOf(events, ttl)
    ensures events != [] && c.now <= events[|events| - 1].now
    ensures c.op.Issuing? ==> CreatedBy(events, c.op.text)
  {
    hide Run, Consumes;
    var before, e := events[..|events| - 1], events[|events| - 1];
    if c in LogOf(before, ttl) {
      LogFromRun(before, ttl, c);
      if c.op.Issuing? {
        var i :| 0 <= i < |before| && before[i].event.Create? && before[i].event.text == c.op.text;
        assert events[i] == before[i];
      }
    } else {
      assert c in CallsOf(Run(before, ttl), e);
    }
  }

  /** The calls of one event are at one time, and issue at most the code it creates. */
  lemma CallsOfOne(y: System, e: Entry, c: Call)
    requires c in CallsOf(y, e)
    ensures c.now == e.now && (c.op.Issuing? ==> e.event.Create? && c.op.text == e.event.text && |CallsOf(y, e)| == 1)
  {}

  /** A run on a clock that does not run backwards, with random codes, leaves a log of that kind. */
  lemma {:induction false} LogProper(events: seq<Entry>, ttl: real)
    requires Timed(events) && FreshCodes(events)
    ensures Proper(LogOf(events, ttl))
  {
    hide Run, CallsOf, CreatedBy;
    if events == [] {
    } else {
      var before, e := events[..|events| - 1], events[|events| - 1];
      LogProper(before, ttl);
      var log, more := LogOf(before, ttl), CallsOf(Run(before, ttl), e);
      forall c | c in log
        ensures c.now <= e.now && (c.op.Issuing? && e.event.Create? ==> c.op.text != e.event.text)
      {
        LogFromRun(before, ttl, c);
        if c.op.Issuing? && e.event.Create? {
          CreatedBefore(events, c.op.text);
        }
      }
      forall c | c in more
        ensures c.now == e.now && (c.op.Issuing? ==> e.event.Create? && c.op.text == e.event.text && |more| == 1)
      {
        CallsOfOne(Run(before, ttl), e, c);
      }
      ProperAppend(log, more, e);
    }
  }

  lemma CreatedBefore(events: seq<Entry>, text: string)
    requires FreshCodes(events) && events != [] && events[|events| - 1].event.Create?
    requires CreatedBy(events[..|events| - 1], text)
    ensures events[|events| - 1].event.text != text
  {}

  lemma ProperAppend(log: seq<Call>, more: seq<Call>, e: Entry)
    requires Proper(log)
    requires forall c :: c in log ==> c.now <= e.now && (c.op.Issuing? && e.event.Create? ==> c.op.text != e.event.text)
    requires forall c :: c in more ==>
      c.now == e.now && (c.op.Issuing? ==> e.event.Create? && c.op.text == e.event.text && |more| == 1)
    ensures Proper(log + more)
  {
    var all := log + more;
    forall i, j | 0 <= i < j < |all|
      ensures all[i].now <= all[j].now
      ensures all[i].op.Issuing? && all[j].op.Issuing? ==> all[i].op.text != all[j].op.text
    {
      assert i < |log| ==> all[i] == log[i] && log[i] in log;
      assert j < |log| ==> all[j] == log[j];
      assert i >= |log| ==> all[i] == more[i - |log|] && more[i - |log|] in more;
      assert j >= |log| ==> all[j] == more[j - |log|] && more[j - |log|] in more;
    }
  }

  /** Some code with this text is in force for the owner. */
  ghost predicate CodeInForce(log: seq<Call>, token: string, owner: Owner, now: real, ttl: real) {
    exists expiresAt :: expiresAt > now && InForce(log, LinkToken(token, owner, expiresAt), ttl)
  }

  /** In any run, a redemption succeeds for a user if and only if the code is in force for the user and the
      service by what was issued and consumed before, the user still is there, and nothing stands against
      linking the account. */
  lemma RedeemOkIff(events: seq<Entry>, k: nat, ttl: real, user: nat)
    requires Timed(events) && FreshCodes(events) && k < |events| && events[k].event.Redeeming?
    ensures var y, e := Run(events[..k], ttl), events[k].event;
      var owner := Owner(user, e.service);
      RedeemedAt(events, k, ttl) == RedeemOk(user) <==>
        && e.service != "" && user in y.users && Linkable(y.accounts, owner, e.account)
        && CodeInForce(LogOf(events[..k], ttl), e.token, owner, events[k].now, ttl)
  {
    hide Run, LogOf, HeldByOther, Proper, InForce;
    var y, e, now, log := Run(events[..k], ttl), events[k].event, events[k].now, LogOf(events[..k], ttl);
    RunIsLog(events[..k], ttl);
    Prefix(events, k);
    LogProper(events[..k], ttl);
    LogInPast(events, k, ttl);
    var found := LookUp(y.store, e.token, e.service, now).1;
    if found.Ok? {
      LookupOkIffInForce(log, ttl, e.token, e.service, now, found.entry);
    }
    forall expiresAt: real | expiresAt > now && InForce(log, LinkToken(e.token, Owner(user, e.service), expiresAt), ttl)
      ensures found == Ok(LinkToken(e.token, Owner(user, e.service), expiresAt))
    {
      LookupOkIffInForce(log, ttl, e.token, e.service, now, LinkToken(e.token, Owner(user, e.service), expiresAt));
    }
  }

  lemma Prefix(events: seq<Entry>, k: nat)
    requires Timed(events) && FreshCodes(events) && k <= |events|
    ensures Timed(events[..k]) && FreshCodes(events[..k])
  {}

  lemma LogInPast(events: seq<Entry>, k: nat, ttl: real)
    requires Timed(events) && FreshCodes(events) && k < |events|
    ensures var log := LogOf(events[..k], ttl); log != [] ==> log[|log| - 1].now <= events[k].now
  {
    hide LogOf;
    var log := LogOf(events[..k], ttl);
    if log != [] {
      Prefix(events, k);
      LogFromRun(events[..k], ttl, log[|log| - 1]);
    }
  }

  // ----------------------------------------------------------------------
  // Outcomes

  /** The code is held for the service, whether or not it has run out. */
  predicate Kept(s: Store, token: string, service: string) {
    token in s.byToken && s.byToken[token].owner.service == service
  }

  /** Someone else has the account at the service. */
  ghost predicate Taken(accounts: Accounts, owner: Owner, account: string) {
    exists u: nat ::
      u != owner.user && Owner(u, owner.service) in accounts && accounts[Owner(u, owner.service)] == account
  }

  /** Which answer a redemption gets. */
  lemma AnswerIff(y: System, service: string, token: string, account: string, now: real)
    ensures var r := Redeem(y.store, y.users, y.accounts, service, token, account, now).2;
      var live := service != "" && Kept(y.store, token, service) && y.store.byToken[token].expiresAt > now;
      if !live
      then r == if service != "" && Kept(y.store, token, service) then TokenExpired else UnknownToken
      else
        var owner := y.store.byToken[token].owner;
        && (r == UnknownToken <==> owner.user !in y.users)
        && (r == AccountLinkedElsewhere <==> owner.user in y.users && Taken(y.accounts, owner, account))
        && (r == UserAlreadyLinked <==> owner.user in y.users && !Taken(y.accounts, owner, account)
                                        && owner in y.accounts && y.accounts[owner] != account)
        && (r == RedeemOk(owner.user) <==> owner.user in y.users && !Taken(y.accounts, owner, account)
                                           && (owner in y.accounts ==> y.accounts[owner] == account))
        && r != TokenExpired
  {
    TakenIs(y.accounts, service, account);
    hide HeldByOther, Taken;
  }

  lemma TakenIs(accounts: Accounts, service: string, account: string)
    ensures forall u :: HeldByOther(accounts, Owner(u, service), account) == Taken(accounts, Owner(u, service), account)
  {
    forall u: nat
      ensures HeldByOther(accounts, Owner(u, service), account) == Taken(accounts, Owner(u, service), account)
    {
      if HeldByOther(accounts, Owner(u, service), account) {
        var o :| o in accounts && o.service == service && o.user != u && accounts[o] == account;
        assert o == Owner(o.user, service);
      }
    }
  }

  /** The answer to a redemption uses its code up. */
  predicate UsesUp(y: System, e: Entry, r: Redeemed)
    requires e.event.Redeeming?
  {
    && e.event.service != "" && Kept(y.store, e.event.token, e.event.service)
    && (r.RedeemOk? || r == TokenExpired || y.store.byToken[e.event.token].owner.user !in y.users)
  }

  /** What a redemption leaves: the account is linked just on success, no other is touched, and the code is
      gone just on success, when it had run out, and when its user is gone; no other code is touched. */
  lemma RedemptionLeaves(y: System, e: Entry, ttl: real, t: string, o: Owner)
    requires Inverse(y.store) && e.event.Redeeming?
    ensures var y', r := Do(y, e, ttl),
        Redeem(y.store, y.users, y.accounts, e.event.service, e.event.token, e.event.account, e.now).2;
      var linked := r.RedeemOk? && o == Owner(r.user, e.event.service);
      && y'.users == y.users
      && (o in y'.accounts <==> o in y.accounts || linked)
      && (o in y'.accounts ==> y'.accounts[o] == if linked then e.event.account else y.accounts[o])
      && (t in y'.store.byToken <==> t in y.store.byToken && !(t == e.event.token && UsesUp(y, e, r)))
      && (t in y'.store.byToken ==> y'.store.byToken[t] == y.store.byToken[t])
  {
    hide HeldByOther;
  }

  /** Linking by hand: done unless someone else has the account or the user has one already; and the other
      changes of users and accounts. */
  lemma ChangesLeave(y: System, e: Entry, ttl: real, o: Owner)
    requires !e.event.Redeeming?
    ensures var y' := Do(y, e, ttl);
      match e.event
      case Create(_, _) => y'.accounts == y.accounts && y'.users == y.users
      case Linking(owner, account) =>
        var links := owner.user in y.users && owner !in y.accounts && !Taken(y.accounts, owner, account);
        && y'.users == y.users && y'.store == y.store
        && (o in y'.accounts <==> o in y.accounts || (links && o == owner))
        && (o in y'.accounts ==> y'.accounts[o] == if links && o == owner then account else y.accounts[o])
      case Unlinking(owner) =>
        && y'.users == y.users && y'.store == y.store
        && (o in y'.accounts <==> o in y.accounts && o != owner)
        && (o in y'.accounts ==> y'.accounts[o] == y.accounts[o])
      case UserAdded(u) => y' == System(y.store, y.users + {u}, y.accounts)
      case UserRemoved(u) =>
        && y'.store == y.store && (forall v :: v in y'.users <==> v in y.users && v != u)
        && (o in y'.accounts <==> o in y.accounts && o.user != u)
        && (o in y'.accounts ==> y'.accounts[o] == y.accounts[o])
  {
    if e.event.Linking? {
      TakenIs(y.accounts, e.event.owner.service, e.event.account);
      hide HeldByOther, Taken;
    }
  }
}

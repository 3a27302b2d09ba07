/** Presence fusion: the strongest home and away signals of a user, and the
    grace period before an away is believed. */
module PresenceFusion {
  import opened Options
  import opened Text

  datatype SourceType = IoBrokerState | BleTag

  datatype Source = Source(
    id: nat,
    user: nat,
    sourceType: SourceType,
    reference: string,
    homeConfidence: real,
    awayConfidence: real)

  datatype Reading = Reading(home: bool, ts: real)

  type Readings = map<nat, Reading>

  datatype Config = Config(grace: real, staleness: real)

  datatype Presence = Away | Home | Asleep

  /** Only an explicit "away", "off" or nothing at all counts as away. */
  predicate IsHomeValue(raw: string) {
    Lower(Strip(raw)) !in {"0", "false", "off", ""}
  }

  function Of(sources: seq<Source>, user: nat): seq<Source> {
    if sources == [] then []
    else Of(sources[..|sources| - 1], user) +
         (if sources[|sources| - 1].user == user then [sources[|sources| - 1]] else [])
  }

  // ----------------------------------------------------------------------
  // One evaluation

  predicate Stale(cfg: Config, s: Source, r: Reading, now: real) {
    s.sourceType == BleTag && now - r.ts > cfg.staleness
  }

  /** The source counts for home: it reports home and is fresh. */
  predicate CountsHome(cfg: Config, s: Source, raw: Readings, now: real) {
    s.id in raw && raw[s.id].home && !Stale(cfg, s, raw[s.id], now)
  }

  /** The source counts for away: it reports away or is stale. A source without a signal counts for neither. */
  predicate CountsAway(cfg: Config, s: Source, raw: Readings, now: real) {
    s.id in raw && !CountsHome(cfg, s, raw, now)
  }

  function Max(a: real, b: real): real {
    if a >= b then a else b
  }

  function StrongestHome(cfg: Config, sources: seq<Source>, raw: Readings, now: real): real {
    if sources == [] then 0.0
    else
      var s := sources[|sources| - 1];
      var before := StrongestHome(cfg, sources[..|sources| - 1], raw, now);
      if CountsHome(cfg, s, raw, now) then Max(before, s.homeConfidence) else before
  }

  function StrongestAway(cfg: Config, sources: seq<Source>, raw: Readings, now: real): real {
    if sources == [] then 0.0
    else
      var s := sources[|sources| - 1];
      var before := StrongestAway(cfg, sources[..|sources| - 1], raw, now);
      if CountsAway(cfg, s, raw, now) then Max(before, s.awayConfidence) else before
  }

  /** Away is strictly stronger; a tie is home. */
  predicate AwayWins(cfg: Config, sources: seq<Source>, raw: Readings, now: real) {
    StrongestAway(cfg, sources, raw, now) > StrongestHome(cfg, sources, raw, now)
  }

  /** What that means source by source: some away signal of positive confidence beats every home signal. */
  ghost predicate AwayBeatsHome(cfg: Config, sources: seq<Source>, raw: Readings, now: real) {
    exists a :: a in sources && CountsAway(cfg, a, raw, now) && a.awayConfidence > 0.0 &&
      forall h :: h in sources && CountsHome(cfg, h, raw, now) ==> h.homeConfidence < a.awayConfidence
  }

  lemma {:induction false} HomeIsMaximum(cfg: Config, sources: seq<Source>, raw: Readings, now: real, x: real)
    ensures StrongestHome(cfg, sources, raw, now) < x <==>
      0.0 < x && forall h :: h in sources && CountsHome(cfg, h, raw, now) ==> h.homeConfidence < x
  {
    if sources == [] {
    } else {
      HomeIsMaximum(cfg, sources[..|sources| - 1], raw, now, x);
      assert sources == sources[..|sources| - 1] + [sources[|sources| - 1]];
    }
  }

  lemma {:induction false} AwayIsMaximum(cfg: Config, sources: seq<Source>, raw: Readings, now: real, x: real)
    requires x >= 0.0
    ensures StrongestAway(cfg, sources, raw, now) > x <==>
      exists a :: a in sources && CountsAway(cfg, a, raw, now) && a.awayConfidence > x
  {
    if sources == [] {
    } else {
      AwayIsMaximum(cfg, sources[..|sources| - 1], raw, now, x);
      assert sources == sources[..|sources| - 1] + [sources[|sources| - 1]];
    }
  }

  /** Comparing the two running maxima decides the same as comparing the signals one by one. */
  lemma AwayWinsMeaning(cfg: Config, sources: seq<Source>, raw: Readings, now: real)
    ensures AwayWins(cfg, sources, raw, now) <==> AwayBeatsHome(cfg, sources, raw, now)
  {
    var home := StrongestHome(cfg, sources, raw, now);
    HomeIsMaximum(cfg, sources, raw, now, home);
    HomeIsMaximum(cfg, sources, raw, now, 0.0);
    AwayIsMaximum(cfg, sources, raw, now, home);
    forall a | a in sources && CountsAway(cfg, a, raw, now)
      ensures home < a.awayConfidence <==>
        a.awayConfidence > 0.0 && forall h :: h in sources && CountsHome(cfg, h, raw, now) ==>
          h.homeConfidence < a.awayConfidence
    {
      HomeIsMaximum(cfg, sources, raw, now, a.awayConfidence);
    }
  }

  // ----------------------------------------------------------------------
  // Hysteresis

  /** What the fusion decides on an evaluation: home at once, away after the grace period. */
  function Decision(pending: Option<real>, away: bool, now: real, grace: real): Option<Presence> {
    if !away then Some(Home)
    else if pending.Some? && now - pending.value >= grace then Some(Away)
    else None
  }

  function Pending(pending: Option<real>, away: bool, now: real): Option<real> {
    if !away then None else if pending.Some? then pending else Some(now)
  }

  /** A sleeping user is left alone. */
  function Applied(p: Presence, d: Option<Presence>): Presence {
    if d == None || p == Asleep then p else d.value
  }

  datatype UserState = UserState(pending: Option<real>, presence: Option<Presence>)

  function Fused(u: UserState, away: bool, now: real, grace: real): UserState {
    UserState(Pending(u.pending, away, now),
              if u.presence == None then None
              else Some(Applied(u.presence.value, Decision(u.pending, away, now, grace))))
  }

  /** A user's state after an evaluation; without a source there is none. */
  function Evaluated(cfg: Config, u: UserState, mine: seq<Source>, raw: Readings, now: real): UserState {
    if mine == [] then u else Fused(u, AwayWins(cfg, mine, raw, now), now, cfg.grace)
  }

  /** A state reports a text, or a BLE scanner has seen a user. */
  datatype Signal = StateChange(stateId: string, text: string) | Sighting(user: nat)

  /** What a signal says of its sources. */
  predicate SaysHome(signal: Signal) {
    match signal
    case StateChange(_, text) => IsHomeValue(text)
    case Sighting(_) => true
  }

  /** The source is one the signal comes from. */
  predicate Reports(s: Source, signal: Signal) {
    match signal
    case StateChange(stateId, _) => s.sourceType == IoBrokerState && s.reference == stateId
    case Sighting(user) => s.sourceType == BleTag && s.user == user
  }

  /** The readings after a signal has been noted for each of its sources. */
  function Noted(raw: Readings, sources: seq<Source>, signal: Signal, now: real): Readings {
    if sources == [] then raw
    else
      var s := sources[|sources| - 1];
      var before := Noted(raw, sources[..|sources| - 1], signal, now);
      if Reports(s, signal) then before[s.id := Reading(SaysHome(signal), now)] else before
  }

  /** The user is evaluated because of the signal. */
  ghost predicate Concerns(sources: seq<Source>, signal: Signal, user: nat) {
    match signal
    case StateChange(_, _) => exists s :: s in sources && Reports(s, signal) && s.user == user
    case Sighting(u) => u == user
  }

  class PresenceManager {
    const cfg: Config
    var raw: Readings
    var pendingAwaySince: map<nat, real>
    /** The presence of the users, as the user objects hold it. */
    var users: map<nat, Presence>

    function User(u: nat): UserState
      reads this`pendingAwaySince, this`users
    {
      UserState(if u in pendingAwaySince then Some(pendingAwaySince[u]) else None,
                if u in users then Some(users[u]) else None)
    }

    constructor (cfg: Config, users: map<nat, Presence>)
      ensures this.cfg == cfg && raw == map[] && pendingAwaySince == map[] && this.users == users
    {
      this.cfg, raw, pendingAwaySince, this.users := cfg, map[], map[], users;
    }

    /** Evaluates a user's signals. */
    method RunFusion(sources: seq<Source>, user: nat, now: real)
      modifies this`pendingAwaySince, this`users
      ensures User(user) == Evaluated(cfg, old(User(user)), Of(sources, user), raw, now)
      ensures forall u: nat :: u != user ==> User(u) == old(User(u))
    {
      var mine := OfUser(sources, user);
      if mine == [] {
        return;
      }
      var away := Compare(mine, now);
      var decision := None;
      if !away {
        pendingAwaySince := pendingAwaySince - {user};
        decision := Some(Home);
      } else if user !in pendingAwaySince {
        pendingAwaySince := pendingAwaySince[user := now];
      } else if now - pendingAwaySince[user] >= cfg.grace {
        decision := Some(Away);
      }
      if decision.Some? {
        Apply(user, decision.value);
      }
    }

    method Compare(mine: seq<Source>, now: real) returns (away: bool)
      ensures away == AwayWins(cfg, mine, raw, now)
    {
      var strongestHome, strongestAway := 0.0, 0.0;
      for i := 0 to |mine|
        invariant strongestHome == StrongestHome(cfg, mine[..i], raw, now)
        invariant strongestAway == StrongestAway(cfg, mine[..i], raw, now)
      {
        assert mine[..i + 1][..i] == mine[..i];
        var s := mine[i];
        if s.id !in raw {
          continue;
        }
        if raw[s.id].home && !Stale(cfg, s, raw[s.id], now) {
          strongestHome := Max(strongestHome, s.homeConfidence);
        } else {
          strongestAway := Max(strongestAway, s.awayConfidence);
        }
      }
      assert mine[..|mine|] == mine;
      away := !(strongestHome >= strongestAway);
    }

    method OfUser(sources: seq<Source>, user: nat) returns (mine: seq<Source>)
      ensures mine == Of(sources, user)
    {
      mine := [];
      for i := 0 to |sources|
        invariant mine == Of(sources[..i], user)
      {
        assert sources[..i + 1][..i] == sources[..i];
        if sources[i].user == user {
          mine := mine + [sources[i]];
        }
      }
      assert sources[..|sources|] == sources;
    }

    method Apply(user: nat, target: Presence)
      modifies this`users
      ensures users.Keys == old(users).Keys
      ensures user in users ==> users[user] == Applied(old(users)[user], Some(target))
      ensures forall u :: u in users && u != user ==> users[u] == old(users)[u]
    {
      if user !in users || users[user] == Asleep {
        return;
      }
      if users[user] != target {
        users := users[user := target];
      }
    }

    method FuseAll(sources: seq<Source>, who: set<nat>, now: real)
      modifies this`pendingAwaySince, this`users
      ensures forall u: nat ::
        User(u) == (if u in who then Evaluated(cfg, old(User(u)), Of(sources, u), raw, now) else old(User(u)))
    {
      var rest := who;
      while rest != {}
        invariant rest <= who
        invariant forall u: nat ::
          User(u) == (if u in who - rest then Evaluated(cfg, old(User(u)), Of(sources, u), raw, now) else old(User(u)))
      {
        var u :| u in rest;
        rest := rest - {u};
        RunFusion(sources, u, now);
      }
    }

    /** A level-triggered state reports. */
    method OnStateUpdate(sources: seq<Source>, stateId: string, value: string, now: real)
      modifies this
      ensures var signal := StateChange(stateId, value);
        && raw == Noted(old(raw), sources, signal, now)
        && forall u: nat ::
          User(u) == (if Concerns(sources, signal, u) then Evaluated(cfg, old(User(u)), Of(sources, u), raw, now)
                      else old(User(u)))
    {
      var signal := StateChange(stateId, value);
      var matched := Note(sources, signal, now);
      FuseAll(sources, matched, now);
    }

    /** The user was seen by a BLE scanner: every BLE source of the user is fresh. */
    method OnBleSighting(sources: seq<Source>, user: nat, now: real)
      modifies this
      ensures raw == Noted(old(raw), sources, Sighting(user), now)
      ensures forall u: nat ::
        User(u) == (if u == user then Evaluated(cfg, old(User(u)), Of(sources, u), raw, now) else old(User(u)))
    {
      var _ := Note(sources, Sighting(user), now);
      RunFusion(sources, user, now);
    }

    method Note(sources: seq<Source>, signal: Signal, now: real) returns (matched: set<nat>)
      modifies this`raw
      ensures raw == Noted(old(raw), sources, signal, now)
      ensures forall u :: u in matched <==> exists s :: s in sources && Reports(s, signal) && s.user == u
    {
      matched := {};
      for i := 0 to |sources|
        invariant raw == Noted(old(raw), sources[..i], signal, now)
        invariant forall u :: u in matched <==> exists s :: s in sources[..i] && Reports(s, signal) && s.user == u
      {
        assert sources[..i + 1][..i] == sources[..i];
        assert forall s :: s in sources[..i + 1] <==> s in sources[..i] || s == sources[i];
        var s := sources[i];
        if Reports(s, signal) {
          raw := raw[s.id := Reading(SaysHome(signal), now)];
          matched := matched + {s.user};
        }
      }
      assert sources[..|sources|] == sources;
    }

    method Tick(sources: seq<Source>, now: real)
      modifies this`pendingAwaySince, this`users
      ensures forall u: nat :: User(u) == Evaluated(cfg, old(User(u)), Of(sources, u), raw, now)
    {
      var who := set i | 0 <= i < |sources| :: sources[i].user;
      forall u
        ensures u in who <==> Of(sources, u) != []
      {
        OfNonEmpty(sources, u);
      }
      FuseAll(sources, who, now);
    }
  }

  lemma {:induction false} OfNonEmpty(sources: seq<Source>, user: nat)
    ensures Of(sources, user) != [] <==> exists s :: s in sources && s.user == user
  {
    if sources == [] {
    } else {
      OfNonEmpty(sources[..|sources| - 1], user);
      assert sources == sources[..|sources| - 1] + [sources[|sources| - 1]];
    }
  }
}

/** The presence of a user over whole runs of the manager: signals and ticks. */
module PresenceRuns {
  import opened Options
  import opened PresenceFusion
  import opened PresenceTiming

  datatype Occasion = Signalled(signal: Signal) | Ticked

  /** What happens to the manager, and when. */
  datatype Moment = Moment(what: Occasion, now: real)

  /** The readings, and one user. */
  datatype Watch = Watch(raw: Readings, user: UserState)

  ghost predicate Evaluates(all: seq<Source>, user: nat, what: Occasion) {
    Of(all, user) != [] && match what case Signalled(signal) => Concerns(all, signal, user) case Ticked => true
  }

  function RawAt(raw: Readings, all: seq<Source>, m: Moment): Readings {
    match m.what
    case Signalled(signal) => Noted(raw, all, signal, m.now)
    case Ticked => raw
  }

  /** What the methods of the manager make of the readings and of the user. */
  ghost function Advance(cfg: Config, all: seq<Source>, user: nat, w: Watch, m: Moment): Watch {
    var raw := RawAt(w.raw, all, m);
    Watch(raw, if Evaluates(all, user, m.what) then Evaluated(cfg, w.user, Of(all, user), raw, m.now) else w.user)
  }

  ghost function After(cfg: Config, all: seq<Source>, user: nat, w: Watch, run: seq<Moment>): Watch {
    if run == [] then w
    else Advance(cfg, all, user, After(cfg, all, user, w, run[..|run| - 1]), run[|run| - 1])
  }

  function RawAfter(raw: Readings, all: seq<Source>, run: seq<Moment>): Readings {
    if run == [] then raw else RawAt(RawAfter(raw, all, run[..|run| - 1]), all, run[|run| - 1])
  }

  /** The evaluations of the user in a run, with their outcome. */
  ghost function EvalsOf(cfg: Config, all: seq<Source>, user: nat, raw: Readings, run: seq<Moment>): seq<Eval> {
    if run == [] then []
    else
      var m := run[|run| - 1];
      EvalsOf(cfg, all, user, raw, run[..|run| - 1]) +
      (if Evaluates(all, user, m.what) then [Eval(m.now, AwayWins(cfg, Of(all, user), RawAfter(raw, all, run), m.now))]
       else [])
  }

  /** A run does to a user what its evaluations do. */
  lemma {:induction false} RunIsFold(cfg: Config, all: seq<Source>, user: nat, w: Watch, run: seq<Moment>)
    ensures var q := After(cfg, all, user, w, run);
      && q.raw == RawAfter(w.raw, all, run)
      && q.user == FusedRun(w.user, EvalsOf(cfg, all, user, w.raw, run), cfg.grace)
  {
    hide AwayWins, Noted, Fused;
    if run == [] {
    } else {
      var init, m := run[..|run| - 1], run[|run| - 1];
      RunIsFold(cfg, all, user, w, init);
      var evals := EvalsOf(cfg, all, user, w.raw, run);
      if Evaluates(all, user, m.what) {
        assert evals[..|evals| - 1] == EvalsOf(cfg, all, user, w.raw, init);
      } else {
        assert evals == EvalsOf(cfg, all, user, w.raw, init);
      }
    }
  }

  predicate Timed(run: seq<Moment>) {
    forall i, j :: 0 <= i < j < |run| ==> run[i].now <= run[j].now
  }

  lemma {:induction false} EvalsTimed(cfg: Config, all: seq<Source>, user: nat, raw: Readings, run: seq<Moment>)
    requires Timed(run)
    ensures var evals := EvalsOf(cfg, all, user, raw, run);
      InOrder(evals) && forall e :: e in evals ==> run != [] && e.now <= run[|run| - 1].now
  {
    hide AwayWins, RawAfter, Evaluates;
    if run == [] {
    } else {
      EvalsTimed(cfg, all, user, raw, run[..|run| - 1]);
    }
  }

  /** Over any run of signals and ticks, a user who is awake is away at its end if and only if away was
      strictly stronger at every evaluation for at least the grace period up to the last one, or at all
      of them for a user who was away before. */
  lemma PresenceIff(cfg: Config, all: seq<Source>, user: nat, w: Watch, run: seq<Moment>)
    requires w.user.pending == None && w.user.presence in {Some(Home), Some(Away)} && Timed(run)
    ensures var evals := EvalsOf(cfg, all, user, w.raw, run);
      After(cfg, all, user, w, run).user.presence ==
        Some(if AwayForGrace(evals, cfg.grace) || (w.user.presence == Some(Away) && forall e :: e in evals ==> e.away)
             then Away else Home)
  {
    RunIsFold(cfg, all, user, w, run);
    EvalsTimed(cfg, all, user, w.raw, run);
    AwayIff(w.user, EvalsOf(cfg, all, user, w.raw, run), cfg.grace);
  }

  /** No run writes the presence of a sleeping user, or of one who is not known. */
  lemma SleepersStay(cfg: Config, all: seq<Source>, user: nat, w: Watch, run: seq<Moment>)
    requires w.user.presence in {Some(Asleep), None}
    ensures After(cfg, all, user, w, run).user.presence == w.user.presence
  {
    RunIsFold(cfg, all, user, w, run);
    NeverWritten(w.user, EvalsOf(cfg, all, user, w.raw, run), cfg.grace);
  }

  // ----------------------------------------------------------------------
  // Users with BLE sources only

  /** A user's sources are BLE tags that can say away. */
  predicate BleUser(all: seq<Source>, user: nat) {
    && Of(all, user) != []
    && (forall s :: s in Of(all, user) ==> s.sourceType == BleTag && s.homeConfidence >= 0.0 && s.awayConfidence > 0.0)
    && forall x, y :: x in all && y in all && x.id == y.id ==> x == y
  }

  /** All of the sources were last seen at T. */
  predicate SeenAt(sources: seq<Source>, raw: Readings, T: real) {
    forall s :: s in sources ==> s.id in raw && raw[s.id] == Reading(true, T)
  }

  lemma {:induction false} OfMembers(all: seq<Source>, user: nat)
    ensures forall s :: s in Of(all, user) <==> s in all && s.user == user
  {
    if all == [] {
    } else {
      OfMembers(all[..|all| - 1], user);
      assert all == all[..|all| - 1] + [all[|all| - 1]];
    }
  }

  /** A sighting refreshes every BLE source of the user. */
  lemma {:induction false} SightingRefreshes(raw: Readings, all: seq<Source>, user: nat, T: real, s: Source)
    requires s in all && s.user == user && s.sourceType == BleTag
    requires forall x, y :: x in all && y in all && x.id == y.id ==> x == y
    ensures s.id in Noted(raw, all, Sighting(user), T) && Noted(raw, all, Sighting(user), T)[s.id] == Reading(true, T)
  {
    var init, last := all[..|all| - 1], all[|all| - 1];
    assert all == init + [last];
    if s in init {
      SightingRefreshes(raw, init, user, T, s);
    }
  }

  lemma SightingIsSeen(raw: Readings, all: seq<Source>, user: nat, T: real)
    requires BleUser(all, user)
    ensures SeenAt(Of(all, user), Noted(raw, all, Sighting(user), T), T)
  {
    OfMembers(all, user);
    forall s | s in Of(all, user)
      ensures s.id in Noted(raw, all, Sighting(user), T) && Noted(raw, all, Sighting(user), T)[s.id] == Reading(true, T)
    {
      SightingRefreshes(raw, all, user, T, s);
    }
  }

  /** Such a user is away exactly once the last sighting has gone stale. */
  lemma BleVerdict(cfg: Config, all: seq<Source>, user: nat, raw: Readings, T: real, now: real)
    requires BleUser(all, user) && SeenAt(Of(all, user), raw, T)
    ensures AwayWins(cfg, Of(all, user), raw, now) <==> now - T > cfg.staleness
  {
    hide AwayWins, Of;
    var sources := Of(all, user);
    AwayWinsMeaning(cfg, sources, raw, now);
    assert sources[0] in sources;
    if now - T > cfg.staleness {
      assert CountsAway(cfg, sources[0], raw, now);
    }
  }

  /** The user is not seen any more. */
  predicate NotSeen(user: nat, rest: seq<Moment>) {
    forall m :: m in rest ==> m.what != Signalled(Sighting(user))
  }

  /** The user is seen for the last time at T; then whatever happens. */
  function SeenThen(user: nat, T: real, rest: seq<Moment>): seq<Moment> {
    [Moment(Signalled(Sighting(user)), T)] + rest
  }

  function TicksOf(rest: seq<Moment>): seq<real> {
    if rest == [] then []
    else
      var m := rest[|rest| - 1];
      TicksOf(rest[..|rest| - 1]) + (if m.what.Ticked? then [m.now] else [])
  }

  /** No other signal comes from one of the sources. */
  lemma OthersDoNotReport(all: seq<Source>, user: nat, signal: Signal, s: Source)
    requires BleUser(all, user) && signal != Sighting(user) && s in Of(all, user)
    ensures s in all && s.user == user && !Reports(s, signal)
  {
    OfMembers(all, user);
  }

  lemma OthersDoNotConcern(all: seq<Source>, user: nat, signal: Signal)
    requires BleUser(all, user) && signal != Sighting(user)
    ensures !Concerns(all, signal, user)
  {
    OfMembers(all, user);
    forall s | s in all && Reports(s, signal)
      ensures s.user != user
    {
      assert s.user == user ==> s in Of(all, user);
    }
  }

  /** So none changes what they read. */
  lemma {:induction false} OthersKeepReading(all: seq<Source>, part: seq<Source>, user: nat, raw: Readings,
                                             signal: Signal,
                                             now: real, s: Source)
    requires BleUser(all, user) && signal != Sighting(user) && s in Of(all, user)
    requires forall x :: x in part ==> x in all
    requires s.id in raw
    ensures s.id in Noted(raw, part, signal, now) && Noted(raw, part, signal, now)[s.id] == raw[s.id]
    decreases |part|
  {
    OthersDoNotReport(all, user, signal, s);
    hide Of, Reports;
    if part == [] {
    } else {
      var last := part[|part| - 1];
      OthersKeepReading(all, part[..|part| - 1], user, raw, signal, now, s);
      assert last in all && (last.id == s.id ==> last == s);
    }
  }

  lemma RestKeepsSeen(all: seq<Source>, user: nat, raw: Readings, T: real, m: Moment)
    requires BleUser(all, user) && m.what != Signalled(Sighting(user)) && SeenAt(Of(all, user), raw, T)
    ensures SeenAt(Of(all, user), RawAt(raw, all, m), T)
  {
    hide Of, Noted, BleUser;
    if m.what.Signalled? {
      forall s | s in Of(all, user)
        ensures s.id in RawAt(raw, all, m) && RawAt(raw, all, m)[s.id] == Reading(true, T)
      {
        OthersKeepReading(all, all, user, raw, m.what.signal, m.now, s);
      }
    }
  }

  /** What the evaluations come to: home at the sighting, away once it is stale. */
  function StaleEvals(cfg: Config, T: real, ticks: seq<real>): seq<Eval> {
    [Eval(T, false)] + seq(|ticks|, i requires 0 <= i < |ticks| => Eval(ticks[i], ticks[i] - T > cfg.staleness))
  }

  /** After the last sighting the user is evaluated at the ticks alone, away exactly at those more than
      the staleness later, whatever is reported of others meanwhile. */
  lemma {:induction false} TicksAreStale(cfg: Config, all: seq<Source>, user: nat, raw: Readings, T: real,
                                         rest: seq<Moment>)
    requires BleUser(all, user) && cfg.staleness >= 0.0 && NotSeen(user, rest)
    ensures var run := SeenThen(user, T, rest);
      && EvalsOf(cfg, all, user, raw, run) == StaleEvals(cfg, T, TicksOf(rest))
      && SeenAt(Of(all, user), RawAfter(raw, all, run), T)
  {
    hide AwayWins, Noted, Of, BleUser, SeenAt, Concerns;
    var run := SeenThen(user, T, rest);
    var init, m := run[..|run| - 1], run[|run| - 1];
    HasSource(all, user);
    if rest == [] {
      assert init == [];
      SightingIsSeen(raw, all, user, T);
      SightingConcerns(all, user);
      assert RawAfter(raw, all, run) == RawAt(RawAfter(raw, all, init), all, m) == Noted(raw, all, Sighting(user), T);
      BleVerdict(cfg, all, user, RawAfter(raw, all, run), T, T);
    } else {
      var before := rest[..|rest| - 1];
      assert init == SeenThen(user, T, before);
      TicksAreStale(cfg, all, user, raw, T, before);
      RestKeepsSeen(all, user, RawAfter(raw, all, init), T, m);
      BleVerdict(cfg, all, user, RawAfter(raw, all, run), T, m.now);
      if m.what.Signalled? {
        OthersDoNotConcern(all, user, m.what.signal);
        assert TicksOf(before) + [] == TicksOf(before);
      } else {
        OneMoreStale(cfg, T, TicksOf(before), m.now);
      }
    }
  }

  lemma SightingConcerns(all: seq<Source>, user: nat)
    ensures Concerns(all, Sighting(user), user)
  {}

  lemma OneMoreStale(cfg: Config, T: real, ticks: seq<real>, now: real)
    ensures StaleEvals(cfg, T, ticks + [now]) == StaleEvals(cfg, T, ticks) + [Eval(now, now - T > cfg.staleness)]
  {}

  lemma HasSource(all: seq<Source>, user: nat)
    requires BleUser(all, user)
    ensures Of(all, user) != []
  {}

  /** The tick before the i-th, or the sighting. */
  function Previous(T: real, ticks: seq<real>, i: nat): real
    requires i < |ticks|
  {
    if i == 0 then T else ticks[i - 1]
  }

  /** Ticks follow the sighting at T at most P apart. */
  predicate Ticking(T: real, P: real, ticks: seq<real>) {
    forall i :: 0 <= i < |ticks| ==> Previous(T, ticks, i) < ticks[i] <= Previous(T, ticks, i) + P
  }

  lemma {:induction false} TicksInOrder(T: real, P: real, ticks: seq<real>, i: nat, j: nat)
    requires Ticking(T, P, ticks) && i <= j < |ticks|
    ensures T < ticks[i] <= ticks[j]
    decreases j
  {
    assert Previous(T, ticks, j) < ticks[j];
    if i < j {
      TicksInOrder(T, P, ticks, i, j - 1);
    } else if j > 0 {
      TicksInOrder(T, P, ticks, j - 1, j - 1);
    }
  }

  lemma StaleInOrder(cfg: Config, T: real, P: real, ticks: seq<real>)
    requires Ticking(T, P, ticks)
    ensures InOrder(StaleEvals(cfg, T, ticks))
  {
    forall i, j | 0 <= i <= j < |ticks|
      ensures T < ticks[i] <= ticks[j]
    {
      TicksInOrder(T, P, ticks, i, j);
    }
  }

  /** The first tick after a moment comes at most P later. */
  lemma FirstTickAfter(T: real, P: real, ticks: seq<real>, moment: real) returns (i: nat)
    requires Ticking(T, P, ticks) && ticks != [] && T <= moment && ticks[|ticks| - 1] > moment
    ensures i < |ticks| && moment < ticks[i] <= moment + P
    ensures forall j :: 0 <= j < i ==> ticks[j] <= moment
  {
    i := 0;
    while ticks[i] <= moment
      invariant i < |ticks|
      invariant forall j :: 0 <= j < i ==> ticks[j] <= moment
      decreases |ticks| - i
    {
      i := i + 1;
    }
    assert Previous(T, ticks, i) <= moment;
  }

  /** The presence of the user after the last sighting at T and what came then. */
  ghost function PresenceAfter(cfg: Config, all: seq<Source>, user: nat, w: Watch, T: real, rest: seq<Moment>)
    : Option<Presence>
  {
    After(cfg, all, user, w, SeenThen(user, T, rest)).user.presence
  }

  /** The user is awake and last seen at T, and ticks follow at most P apart among whatever else. */
  predicate LastSeen(cfg: Config, all: seq<Source>, user: nat, w: Watch, T: real, P: real, rest: seq<Moment>) {
    && BleUser(all, user) && cfg.staleness >= 0.0 && w.user.presence in {Some(Home), Some(Away)}
    && NotSeen(user, rest) && Ticking(T, P, TicksOf(rest))
  }

  /** Whatever was pending before, such a user is home from the sighting on until away has been stronger
      for the grace period. */
  lemma AwayAfterSightingIff(cfg: Config, all: seq<Source>, user: nat, w: Watch, T: real, P: real, rest: seq<Moment>)
    requires LastSeen(cfg, all, user, w, T, P, rest)
    ensures PresenceAfter(cfg, all, user, w, T, rest) ==
      Some(if AwayForGrace(StaleEvals(cfg, T, TicksOf(rest)), cfg.grace) then Away else Home)
  {
    hide AwayForGrace, NotSeen, BleUser;
    var evals := StaleEvals(cfg, T, TicksOf(rest));
    RunIsFold(cfg, all, user, w, SeenThen(user, T, rest));
    TicksAreStale(cfg, all, user, w.raw, T, rest);
    StaleInOrder(cfg, T, P, TicksOf(rest));
    HomeClears(w.user, evals, cfg.grace);
    var clear := w.user.(pending := None);
    AwayIff(clear, evals, cfg.grace);
    assert evals[0] in evals && !evals[0].away;
  }

  /** A run that begins with home does not depend on what was pending before. */
  lemma {:induction false} HomeClears(u: UserState, evals: seq<Eval>, grace: real)
    requires evals != [] && !evals[0].away
    ensures FusedRun(u, evals, grace) == FusedRun(u.(pending := None), evals, grace)
  {
    if |evals| == 1 {
      assert evals[..0] == [];
    } else {
      HomeClears(u, evals[..|evals| - 1], grace);
    }
  }

  /** The user is never away before the last sighting is stale and the grace period has passed. */
  lemma NotAwayTooEarly(cfg: Config, all: seq<Source>, user: nat, w: Watch, T: real, P: real, rest: seq<Moment>)
    requires LastSeen(cfg, all, user, w, T, P, rest)
    requires PresenceAfter(cfg, all, user, w, T, rest) == Some(Away)
    ensures exists m :: m in rest && m.what.Ticked? && m.now > T + cfg.staleness + cfg.grace
  {
    hide PresenceAfter, LastSeen;
    var ticks := TicksOf(rest);
    var evals := StaleEvals(cfg, T, ticks);
    AwayAfterSightingIff(cfg, all, user, w, T, P, rest);
    var i :| 0 <= i < |ticks| && AwayFrom(evals, i, |ticks|) && evals[|ticks|].now - evals[i].now >= cfg.grace;
    assert evals[i].away;
    var k := TickPosition(rest, |ticks| - 1);
    assert rest[k] in rest;
  }

  lemma StaleFrom(cfg: Config, T: real, P: real, ticks: seq<real>, i: nat)
    requires Ticking(T, P, ticks) && i < |ticks| && ticks[i] > T + cfg.staleness
    ensures AwayFrom(StaleEvals(cfg, T, ticks), i + 1, |ticks|)
  {
    var evals := StaleEvals(cfg, T, ticks);
    forall j | i + 1 <= j <= |ticks|
      ensures evals[j].away
    {
      TicksInOrder(T, P, ticks, i, j - 1);
    }
  }

  lemma StaleForGrace(cfg: Config, T: real, P: real, ticks: seq<real>)
    requires cfg.staleness >= 0.0 && cfg.grace >= 0.0 && Ticking(T, P, ticks)
    requires ticks != [] && ticks[|ticks| - 1] > T + cfg.staleness + cfg.grace + P
    ensures AwayForGrace(StaleEvals(cfg, T, ticks), cfg.grace)
  {
    hide AwayFrom;
    assert Previous(T, ticks, 0) < ticks[0] <= Previous(T, ticks, 0) + P;
    var i := FirstTickAfter(T, P, ticks, T + cfg.staleness);
    hide Ticking;
    StaleFrom(cfg, T, P, ticks, i);
    var evals := StaleEvals(cfg, T, ticks);
    assert evals[|ticks|].now - evals[i + 1].now >= cfg.grace;
    assert i + 1 < |ticks|;
  }

  /** And is away, whatever comes between, from the first tick on that is later than that by the time
      between two ticks. */
  lemma AwayByThen(cfg: Config, all: seq<Source>, user: nat, w: Watch, T: real, P: real, rest: seq<Moment>)
    requires LastSeen(cfg, all, user, w, T, P, rest) && cfg.grace >= 0.0
    requires exists m :: m in rest && m.what.Ticked? && m.now > T + cfg.staleness + cfg.grace + P
    ensures PresenceAfter(cfg, all, user, w, T, rest) == Some(Away)
  {
    hide PresenceAfter, BleUser, NotSeen, AwayForGrace, Ticking;
    var m :| m in rest && m.what.Ticked? && m.now > T + cfg.staleness + cfg.grace + P;
    var ticks := TicksOf(rest);
    AwayAfterSightingIff(cfg, all, user, w, T, P, rest);
    TickIsOne(rest, m);
    var j :| 0 <= j < |ticks| && ticks[j] == m.now;
    TicksInOrder(T, P, ticks, j, |ticks| - 1);
    StaleForGrace(cfg, T, P, ticks);
  }

  /** So within two ticks of the earliest moment, if the clock goes on that long. */
  lemma AwayInTime(cfg: Config, all: seq<Source>, user: nat, w: Watch, T: real, P: real, rest: seq<Moment>)
    returns (k: nat)
    requires LastSeen(cfg, all, user, w, T, P, rest) && cfg.grace >= 0.0
    requires exists m :: m in rest && m.what.Ticked? && m.now > T + cfg.staleness + cfg.grace + P
    ensures k < |rest| && rest[k].what.Ticked? && rest[k].now <= T + cfg.staleness + cfg.grace + 2.0 * P
    ensures forall n :: k < n <= |rest| ==> PresenceAfter(cfg, all, user, w, T, rest[..n]) == Some(Away)
  {
    hide PresenceAfter, BleUser, NotSeen;
    var m :| m in rest && m.what.Ticked? && m.now > T + cfg.staleness + cfg.grace + P;
    var ticks, moment := TicksOf(rest), T + cfg.staleness + cfg.grace + P;
    TickIsOne(rest, m);
    var i :| 0 <= i < |ticks| && ticks[i] == m.now;
    TicksInOrder(T, P, ticks, i, |ticks| - 1);
    assert Previous(T, ticks, 0) < ticks[0] <= Previous(T, ticks, 0) + P;
    var j := FirstTickAfter(T, P, ticks, moment);
    k := TickPosition(rest, j);
    forall n | k < n <= |rest|
      ensures PresenceAfter(cfg, all, user, w, T, rest[..n]) == Some(Away)
    {
      LastSeenPrefix(cfg, all, user, w, T, P, rest, n);
      assert rest[..n][k] == rest[k] && rest[k] in rest[..n];
      AwayByThen(cfg, all, user, w, T, P, rest[..n]);
    }
  }

  /** Where in the run the j-th tick is. */
  lemma {:induction false} TickPosition(rest: seq<Moment>, j: nat) returns (k: nat)
    requires j < |TicksOf(rest)|
    ensures k < |rest| && rest[k] == Moment(Ticked, TicksOf(rest)[j])
  {
    var before := TicksOf(rest[..|rest| - 1]);
    if j < |before| {
      k := TickPosition(rest[..|rest| - 1], j);
    } else {
      k := |rest| - 1;
    }
  }

  lemma {:induction false} TickIsOne(rest: seq<Moment>, m: Moment)
    requires m in rest && m.what.Ticked?
    ensures exists j :: 0 <= j < |TicksOf(rest)| && TicksOf(rest)[j] == m.now
  {
    var init, last := rest[..|rest| - 1], rest[|rest| - 1];
    assert rest == init + [last];
    if m in init {
      TickIsOne(init, m);
      var j :| 0 <= j < |TicksOf(init)| && TicksOf(init)[j] == m.now;
      assert TicksOf(rest)[j] == m.now;
    } else {
      assert TicksOf(rest)[|TicksOf(rest)| - 1] == m.now;
    }
  }

  lemma {:induction false} TicksPrefix(rest: seq<Moment>, n: nat)
    requires n <= |rest|
    ensures TicksOf(rest[..n]) <= TicksOf(rest)
  {
    if n == |rest| {
      assert rest[..n] == rest;
    } else {
      TicksPrefix(rest[..|rest| - 1], n);
      assert rest[..|rest| - 1][..n] == rest[..n];
    }
  }

  lemma LastSeenPrefix(cfg: Config, all: seq<Source>, user: nat, w: Watch, T: real, P: real, rest: seq<Moment>, n: nat)
    requires LastSeen(cfg, all, user, w, T, P, rest) && n <= |rest|
    ensures LastSeen(cfg, all, user, w, T, P, rest[..n])
  {
    hide BleUser, Ticking;
    TicksPrefix(rest, n);
    TickingPrefix(T, P, TicksOf(rest), |TicksOf(rest[..n])|);
    assert TicksOf(rest)[..|TicksOf(rest[..n])|] == TicksOf(rest[..n]);
  }

  lemma TickingPrefix(T: real, P: real, ticks: seq<real>, n: nat)
    requires Ticking(T, P, ticks) && n <= |ticks|
    ensures Ticking(T, P, ticks[..n])
  {
    forall i | 0 <= i < n
      ensures Previous(T, ticks[..n], i) < ticks[..n][i] <= Previous(T, ticks[..n], i) + P
    {
      assert Previous(T, ticks[..n], i) == Previous(T, ticks, i) && ticks[..n][i] == ticks[i];
    }
  }
}

/** Ringing alarms: the rounds of alternating loudness on each satellite, the
    announcement that replaces a broken sound, and the volume put back on stop. */
module AlarmRinging {
  import opened Options

  datatype Settings = Settings(asset: string, low: int, high: int, announces: bool)

  datatype Command =
    | SetVolume(satellite: string, level: int)
    | Announce(satellite: string)
    | ResetPlayback(satellite: string)
    | PlayAsset(satellite: string, asset: string)

  /** One satellite while it rings: whether the last round was the loud one, whether the sound was
      reported broken, and the volume it had before. */
  datatype Ring = Ring(high: bool, broken: bool, volume: int)

  function Level(cfg: Settings, high: bool): int {
    if high then cfg.high else cfg.low
  }

  /** The commands of one round. */
  function Round(cfg: Settings, satellite: string, high: bool, broken: bool): seq<Command> {
    [SetVolume(satellite, Level(cfg, high))] +
    if broken && cfg.announces then [Announce(satellite)]
    else [ResetPlayback(satellite), PlayAsset(satellite, cfg.asset)]
  }

  datatype Event =
    | Start(satellite: string, volume: int, captured: bool)
    | Cycle(satellite: string, captured: bool)
    | PlayResult(satellite: string, asset: string, ok: bool)
    | Stop(satellite: string)

  type Rings = map<string, Ring>

  function DoCycle(cfg: Settings, r: Rings, s: string, captured: bool): (Rings, seq<Command>) {
    if captured || s !in r then (r, [])
    else (r[s := r[s].(high := !r[s].high)], Round(cfg, s, !r[s].high, r[s].broken))
  }

  function Do(cfg: Settings, r: Rings, e: Event): (Rings, seq<Command>) {
    match e
    case Start(s, volume, captured) =>
      if s in r then (r, []) else DoCycle(cfg, r[s := Ring(false, false, volume)], s, captured)
    case Cycle(s, captured) => DoCycle(cfg, r, s, captured)
    case PlayResult(s, asset, ok) =>
      if asset == cfg.asset && !ok && s in r then (r[s := r[s].(broken := true)], []) else (r, [])
    case Stop(s) =>
      if s in r then (r - {s}, [SetVolume(s, r[s].volume)]) else (r, [])
  }

  class AlarmRinger {
    const cfg: Settings
    var ringing: set<string>
    var ringHigh: map<string, bool>
    var assetBroken: map<string, bool>
    var preRingVolume: map<string, int>
    var commands: seq<Command>

    /** The four collections always speak of the same satellites. */
    ghost predicate Valid()
      reads this
    {
      ringing == ringHigh.Keys == assetBroken.Keys == preRingVolume.Keys
    }

    ghost function State(): Rings
      requires Valid()
      reads this
    {
      map s | s in ringing :: Ring(ringHigh[s], assetBroken[s], preRingVolume[s])
    }

    constructor (cfg: Settings)
      ensures Valid() && State() == map[] && commands == [] && this.cfg == cfg
    {
      this.cfg := cfg;
      ringing, ringHigh, assetBroken, preRingVolume, commands := {}, map[], map[], map[], [];
    }

    method StartRinging(satellite: string, volume: int, captured: bool)
      requires Valid()
      modifies this
      ensures Valid()
      ensures State() == Do(cfg, old(State()), Start(satellite, volume, captured)).0
      ensures commands == old(commands) + Do(cfg, old(State()), Start(satellite, volume, captured)).1
    {
      if satellite in ringing {
        assert commands + [] == commands;
        return;
      }
      preRingVolume := preRingVolume[satellite := volume];
      ringHigh := ringHigh[satellite := false];
      assetBroken := assetBroken[satellite := false];
      ringing := ringing + {satellite};
      assert State() == old(State())[satellite := Ring(false, false, volume)];
      RingingCycle(satellite, captured);
    }

    method RingingCycle(satellite: string, captured: bool)
      requires Valid()
      modifies this
      ensures Valid()
      ensures State() == Do(cfg, old(State()), Cycle(satellite, captured)).0
      ensures commands == old(commands) + Do(cfg, old(State()), Cycle(satellite, captured)).1
    {
      if captured || satellite !in ringing {
        assert commands + [] == commands;
        return;
      }
      var high := !ringHigh[satellite];
      ringHigh := ringHigh[satellite := high];
      assert State() == old(State())[satellite := old(State())[satellite].(high := high)];
      commands := commands + [SetVolume(satellite, if high then cfg.high else cfg.low)];
      if assetBroken[satellite] && cfg.announces {
        commands := commands + [Announce(satellite)];
      } else {
        commands := commands + [ResetPlayback(satellite), PlayAsset(satellite, cfg.asset)];
      }
      assert commands == old(commands) + Round(cfg, satellite, high, assetBroken[satellite]);
    }

    method OnPlayResult(satellite: string, asset: string, ok: bool)
      requires Valid()
      modifies this
      ensures Valid()
      ensures State() == Do(cfg, old(State()), PlayResult(satellite, asset, ok)).0
      ensures commands == old(commands) + Do(cfg, old(State()), PlayResult(satellite, asset, ok)).1
    {
      assert commands + [] == commands;
      if asset != cfg.asset || ok {
        return;
      }
      if satellite !in ringing || assetBroken[satellite] {
        assert satellite in ringing ==> State()[satellite := State()[satellite].(broken := true)] == State();
        return;
      }
      assetBroken := assetBroken[satellite := true];
      assert State() == old(State())[satellite := old(State())[satellite].(broken := true)];
    }

    method StopRinging(satellite: string) returns (wasRinging: bool)
      requires Valid()
      modifies this
      ensures Valid() && wasRinging == (satellite in old(ringing))
      ensures State() == Do(cfg, old(State()), Stop(satellite)).0
      ensures commands == old(commands) + Do(cfg, old(State()), Stop(satellite)).1
    {
      wasRinging := satellite in ringing;
      var volume := if satellite in preRingVolume then Some(preRingVolume[satellite]) else None;
      ringing := ringing - {satellite};
      ringHigh := ringHigh - {satellite};
      assetBroken := assetBroken - {satellite};
      preRingVolume := preRingVolume - {satellite};
      assert State() == old(State()) - {satellite};
      if volume.Some? {
        commands := commands + [SetVolume(satellite, volume.value)];
      } else {
        assert commands + [] == commands;
      }
    }
  }

  // ----------------------------------------------------------------------
  // Whole runs

  function After(cfg: Settings, r: Rings, events: seq<Event>): Rings {
    if events == [] then r else Do(cfg, After(cfg, r, events[..|events| - 1]), events[|events| - 1]).0
  }

  /** The commands the k-th event of a run gives. */
  function CommandsOf(cfg: Settings, r: Rings, events: seq<Event>, k: nat): seq<Command>
    requires k < |events|
  {
    Do(cfg, After(cfg, r, events[..k]), events[k]).1
  }

  /** The event plays a round on the satellite, if it rings. */
  predicate PlaysRound(e: Event, s: string) {
    (e.Cycle? || e.Start?) && e.satellite == s && !e.captured
  }

  /** A session: the ringing begins, and nothing stops it. Further alarms may start meanwhile. */
  predicate Session(s: string, events: seq<Event>) {
    events != [] && events[0].Start? && events[0].satellite == s && Stop(s) !in events
  }

  /** Rounds played by the first n events: the beginning is one unless captured, then every cycle that
      is not; a further start plays none. */
  function Rounds(s: string, events: seq<Event>, n: nat): nat
    requires n <= |events|
  {
    if n == 0 then 0
    else Rounds(s, events, n - 1) + (if PlaysRound(events[n - 1], s) && (n == 1 || events[n - 1].Cycle?) then 1 else 0)
  }

  predicate OddRounds(s: string, events: seq<Event>) {
    Rounds(s, events, |events|) % 2 == 1
  }

  predicate ReportedBroken(cfg: Settings, s: string, events: seq<Event>) {
    PlayResult(s, cfg.asset, false) in events
  }

  /** What an event other than a stop makes of a ringing satellite. */
  lemma DoWhileRinging(cfg: Settings, q: Rings, s: string, e: Event)
    requires s in q && e != Stop(s)
    ensures var q' := Do(cfg, q, e).0;
      && s in q'
      && q'[s] == Ring(q[s].high != (e.Cycle? && PlaysRound(e, s)),
                       q[s].broken || e == PlayResult(s, cfg.asset, false),
                       q[s].volume)
  {}

  /** In a session, the satellite's loudness tells how many rounds were played, the sound counts as
      broken once it was reported, and the volume remembered is the one read at the beginning. */
  lemma {:induction false} SessionState(cfg: Settings, r: Rings, s: string, events: seq<Event>)
    requires s !in r && Session(s, events)
    ensures var q := After(cfg, r, events);
      && s in q
      && q[s].high == OddRounds(s, events)
      && q[s].broken == ReportedBroken(cfg, s, events)
      && q[s].volume == events[0].volume
  {
    hide Do, ReportedBroken, OddRounds, PlaysRound;
    var n := |events| - 1;
    var init := events[..n];
    OneMoreReported(cfg, s, events);
    OneMoreRound(s, events);
    if n == 0 {
      assert init == [];
      NoneYet(cfg, s);
      SessionBegins(cfg, r, s, events[0]);
    } else {
      SessionGoesOn(s, events);
      SessionState(cfg, r, s, init);
      DoWhileRinging(cfg, After(cfg, r, init), s, events[n]);
    }
  }

  lemma NoneYet(cfg: Settings, s: string)
    ensures !ReportedBroken(cfg, s, []) && !OddRounds(s, [])
  {}

  lemma SessionGoesOn(s: string, events: seq<Event>)
    requires Session(s, events) && |events| > 1
    ensures var n := |events| - 1; Session(s, events[..n]) && events[n] != Stop(s)
  {}

  lemma OneMoreRound(s: string, events: seq<Event>)
    requires events != []
    ensures var n := |events| - 1;
      OddRounds(s, events) ==
        (OddRounds(s, events[..n]) != (PlaysRound(events[n], s) && (n == 0 || events[n].Cycle?)))
  {
    RoundsPrefix(s, events[..|events| - 1], events, |events| - 1);
  }

  lemma SessionBegins(cfg: Settings, r: Rings, s: string, e: Event)
    requires s !in r && e.Start? && e.satellite == s
    ensures var q := Do(cfg, r, e).0; s in q && q[s] == Ring(PlaysRound(e, s), false, e.volume)
  {}

  lemma OneMoreReported(cfg: Settings, s: string, events: seq<Event>)
    requires events != []
    ensures var n := |events| - 1;
      ReportedBroken(cfg, s, events) <==>
        ReportedBroken(cfg, s, events[..n]) || events[n] == PlayResult(s, cfg.asset, false)
  {
    assert events == events[..|events| - 1] + [events[|events| - 1]];
  }

  lemma {:induction false} RoundsPrefix(s: string, init: seq<Event>, events: seq<Event>, n: nat)
    requires n <= |init| && init <= events
    ensures Rounds(s, init, n) == Rounds(s, events, n)
  {
    if n == 0 {
    } else {
      RoundsPrefix(s, init, events, n - 1);
    }
  }

  /** The rounds of a ringing alternate, beginning with the loud one; captured rounds play nothing;
      after the sound was reported broken each round announces, when that is set up. */
  lemma RoundsAlternate(cfg: Settings, r: Rings, s: string, events: seq<Event>, k: nat)
    requires s !in r && Session(s, events) && k < |events|
    requires events[k].Start? || events[k].Cycle?
    requires events[k].satellite == s
    ensures CommandsOf(cfg, r, events, k) ==
      if PlaysRound(events[k], s) && (k == 0 || events[k].Cycle?)
      then
        [SetVolume(s, if Rounds(s, events, k) % 2 == 0 then cfg.high else cfg.low)] +
        (if cfg.announces && PlayResult(s, cfg.asset, false) in events[..k] then [Announce(s)]
         else [ResetPlayback(s), PlayAsset(s, cfg.asset)])
      else []
  {
    if k == 0 {
      assert events[..0] == [];
    } else {
      SessionState(cfg, r, s, events[..k]);
      RoundsPrefix(s, events[..k], events, k);
    }
  }

  /** Stopping puts back exactly the volume read when this ringing began, however many alarms went
      off meanwhile, and forgets the satellite. */
  lemma StopPutsBackVolume(cfg: Settings, r: Rings, s: string, events: seq<Event>)
    requires s !in r && Session(s, events)
    ensures CommandsOf(cfg, r, events + [Stop(s)], |events|) == [SetVolume(s, events[0].volume)]
    ensures s !in After(cfg, r, events + [Stop(s)])
  {
    SessionState(cfg, r, s, events);
    assert (events + [Stop(s)])[..|events|] == events;
  }
}

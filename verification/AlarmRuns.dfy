/** What holds of alarms and timers over whole runs, restarts included. */
module AlarmRuns {
  import opened Options
  import opened AlarmCalendar
  import opened AlarmManagers

  datatype Op =
    | Creating(a: Alarm)
    | Updating(id: nat, a: Alarm)
    | Deleting(id: nat)
    | Skipping(id: nat, date: int)
    | Timer(id: nat)
    | Restart

  datatype Call = Call(op: Op, now: int)

  function Step(p: Plan, c: Call): Plan {
    match c.op
    case Creating(a) => Create(p, a, c.now)
    case Updating(id, a) => Update(p, id, a, c.now)
    case Deleting(id) => Delete(p, id)
    case Skipping(id, date) => Skip(p, id, date, c.now)
    case Timer(id) => Fire(p, id, c.now)
    case Restart => Reload(p, c.now)
  }

  /** When each alarm was last set, if it ever was. */
  function SetTimes(p: Plan, since: map<nat, int>, c: Call): map<nat, int> {
    match c.op
    case Creating(_) => since[p.nextId := c.now]
    case Updating(id, a) => if id in p.rows && a.enabled then since[id := c.now] else since
    case Deleting(_) => since
    case Skipping(id, _) => if id in p.rows && p.rows[id].Recurring() then since[id := c.now] else since
    case Timer(id) => if Rings(p, id) && p.rows[id].Recurring() then since[id := c.now] else since
    case Restart => since + LoadTimes(p, c.now)
  }

  function LoadTimes(p: Plan, now: int): map<nat, int> {
    map id | id in p.rows && p.rows[id].enabled :: now
  }

  function TimerOf(p: Plan, id: nat): Option<int> {
    if id in p.timers then Some(p.timers[id]) else None
  }

  /** Every timer belongs to an alarm, and every enabled alarm's timer is what the scan gave when it
      was last set. */
  ghost predicate Armed(p: Plan, since: map<nat, int>, now: int) {
    && (forall id :: id in p.rows ==> id < p.nextId)
    && (forall id :: id in p.timers ==> id in p.rows)
    && (forall id :: id in p.rows && (p.rows[id].enabled || id in p.timers) ==>
          id in since && since[id] <= now && TimerOf(p, id) == NextFire(p.rows[id], since[id]))
  }

  /** Setting one alarm leaves the others as they were. */
  lemma ScheduleArms(p: Plan, since: map<nat, int>, before: int, id: nat, a: Alarm, nextId: nat, now: int)
    requires Armed(p, since, before) && before <= now && id < nextId && p.nextId <= nextId
    ensures Armed(Schedule(Plan(p.rows[id := a], p.timers - {id}, nextId), id, a, now), since[id := now], now)
  {
    hide NextFire;
  }

  lemma DropKeepsArmed(p: Plan, since: map<nat, int>, before: int, id: nat, now: int)
    requires Armed(p, since, before) && before <= now
    ensures Armed(Plan(p.rows - {id}, p.timers - {id}, p.nextId), since, now)
  {
    hide NextFire;
  }

  lemma TimerOffKeepsArmed(p: Plan, since: map<nat, int>, before: int, id: nat, a: Alarm, now: int)
    requires Armed(p, since, before) && before <= now && id in p.rows && !a.enabled
    ensures Armed(Plan(p.rows[id := a], p.timers - {id}, p.nextId), since, now)
  {
    hide NextFire;
  }

  /** Loading the rows sets every enabled alarm, whatever timers there were. */
  lemma ReloadArms(p: Plan, since: map<nat, int>, now: int)
    requires forall id :: id in p.rows ==> id < p.nextId
    ensures Armed(Reload(p, now), since + LoadTimes(p, now), now)
  {
    hide NextFire;
  }

  /** The manager starts armed. */
  lemma StartsArmed(rows: map<nat, Alarm>, nextId: nat, now: int)
    requires forall id :: id in rows ==> id < nextId
    ensures var p := Plan(rows, map[], nextId); Armed(Reload(p, now), LoadTimes(p, now), now)
  {
    hide NextFire, Reload, Armed;
    var p := Plan(rows, map[], nextId);
    ReloadArms(p, map[], now);
    assert map[] + LoadTimes(p, now) == LoadTimes(p, now);
  }

  lemma StepKeepsArmed(p: Plan, since: map<nat, int>, before: int, c: Call)
    requires Armed(p, since, before) && before <= c.now
    ensures Armed(Step(p, c), SetTimes(p, since, c), c.now)
  {
    hide NextFire, Armed;
    match c.op
    case Creating(a) =>
      var row := a.(skipDates := {}, enabled := true);
      ScheduleArms(p, since, before, p.nextId, row, p.nextId + 1, c.now);
      SameSchedule(p.rows[p.nextId := row], p.timers, p.nextId + 1, p.nextId, row, c.now);
    case Updating(id, a) =>
      UpdateKeepsArmed(p, since, before, id, a, c.now);
    case Deleting(id) =>
      DeleteKeepsArmed(p, since, before, id, c.now);
    case Skipping(id, date) =>
      SkipKeepsArmed(p, since, before, id, date, c.now);
    case Timer(id) =>
      FireKeepsArmed(p, since, before, id, c.now);
    case Restart =>
      ReloadKeepsArmed(p, since, before, c.now);
  }

  /** Setting an alarm makes no difference between a timer still running and one cancelled before. */
  lemma SameSchedule(rows: map<nat, Alarm>, timers: map<nat, int>, nextId: nat, id: nat, a: Alarm, now: int)
    ensures Schedule(Plan(rows, timers, nextId), id, a, now) == Schedule(Plan(rows, timers - {id}, nextId), id, a, now)
  {
    hide NextFire;
    match NextFire(a, now)
    case Some(t) => assert (timers - {id})[id := t] == timers[id := t];
    case None => assert timers - {id} - {id} == timers - {id};
  }

  lemma ReloadKeepsArmed(p: Plan, since: map<nat, int>, before: int, now: int)
    requires Armed(p, since, before)
    ensures Armed(Reload(p, now), since + LoadTimes(p, now), now)
  {
    hide NextFire, Reload;
    ReloadArms(p, since, now);
  }

  lemma UpdateKeepsArmed(p: Plan, since: map<nat, int>, before: int, id: nat, a: Alarm, now: int)
    requires Armed(p, since, before) && before <= now
    ensures Armed(Update(p, id, a, now), SetTimes(p, since, Call(Updating(id, a), now)), now)
  {
    hide NextFire;
    if id in p.rows {
      if a.enabled {
        ScheduleArms(p, since, before, id, a, p.nextId, now);
      } else {
        TimerOffKeepsArmed(p, since, before, id, a, now);
      }
    }
  }

  lemma DeleteKeepsArmed(p: Plan, since: map<nat, int>, before: int, id: nat, now: int)
    requires Armed(p, since, before) && before <= now
    ensures Armed(Delete(p, id), since, now)
  {
    hide NextFire;
    DropKeepsArmed(p, since, before, id, now);
  }

  lemma SkipKeepsArmed(p: Plan, since: map<nat, int>, before: int, id: nat, date: int, now: int)
    requires Armed(p, since, before) && before <= now
    ensures Armed(Skip(p, id, date, now), SetTimes(p, since, Call(Skipping(id, date), now)), now)
  {
    hide NextFire;
    if id in p.rows && p.rows[id].Recurring() {
      var row := p.rows[id].(skipDates := p.rows[id].skipDates + {date});
      ScheduleArms(p, since, before, id, row, p.nextId, now);
      SameSchedule(p.rows[id := row], p.timers, p.nextId, id, row, now);
    }
  }

  lemma FireKeepsArmed(p: Plan, since: map<nat, int>, before: int, id: nat, now: int)
    requires Armed(p, since, before) && before <= now
    ensures Armed(Fire(p, id, now), SetTimes(p, since, Call(Timer(id), now)), now)
  {
    hide NextFire;
    if id !in p.rows {
      DropKeepsArmed(p, since, before, id, now);
      assert p.rows - {id} == p.rows;
    } else if !p.rows[id].enabled {
      TimerOffKeepsArmed(p, since, before, id, p.rows[id], now);
      assert p.rows[id := p.rows[id]] == p.rows;
    } else if p.rows[id].Recurring() {
      ScheduleArms(p, since, before, id, p.rows[id], p.nextId, now);
      assert p.rows[id := p.rows[id]] == p.rows;
    } else {
      DropKeepsArmed(p, since, before, id, now);
    }
  }

  function After(p: Plan, calls: seq<Call>): Plan {
    if calls == [] then p else Step(After(p, calls[..|calls| - 1]), calls[|calls| - 1])
  }

  predicate InOrder(start: int, calls: seq<Call>) {
    && (forall i :: 0 <= i < |calls| ==> start <= calls[i].now)
    && (forall i, j :: 0 <= i < j < |calls| ==> calls[i].now <= calls[j].now)
  }

  /** When each alarm was last set, after the calls. */
  function Times(p: Plan, since: map<nat, int>, calls: seq<Call>): map<nat, int> {
    if calls == [] then since
    else
      var before, last := calls[..|calls| - 1], calls[|calls| - 1];
      SetTimes(After(p, before), Times(p, since, before), last)
  }

  function EndOf(start: int, calls: seq<Call>): int {
    if calls == [] then start else calls[|calls| - 1].now
  }

  lemma {:induction false} RunKeepsArmed(p: Plan, since: map<nat, int>, start: int, calls: seq<Call>)
    requires Armed(p, since, start) && InOrder(start, calls)
    ensures Armed(After(p, calls), Times(p, since, calls), EndOf(start, calls))
  {
    hide Armed, Step, SetTimes;
    if calls == [] {
    } else {
      var before, last := calls[..|calls| - 1], calls[|calls| - 1];
      RunKeepsArmed(p, since, start, before);
      StepKeepsArmed(After(p, before), Times(p, since, before), EndOf(start, before), last);
    }
  }

  /** The timer of every enabled alarm is the first of its occurrences after the moment it was last
      set; without one, nothing was due on the dates scanned at that moment. */
  lemma TimersAreFirstOccurrences(p: Plan, since: map<nat, int>, start: int, calls: seq<Call>, id: nat)
    requires Armed(p, since, start) && InOrder(start, calls)
    requires var q := After(p, calls); id in q.rows && q.rows[id].enabled
    ensures var q, times := After(p, calls), Times(p, since, calls);
      && id in times && times[id] <= EndOf(start, calls)
      && match TimerOf(q, id)
         case Some(t) => FirstAfter(q.rows[id], times[id], t)
         case None => forall u :: q.rows[id].Occurs(u) && times[id] < u ==>
                        q.rows[id].Recurring() && DateOf(u) > DateOf(times[id]) + 7
  {
    RunKeepsArmed(p, since, start, calls);
    hide NextFire, FirstAfter, DateOf;
    var q, times := After(p, calls), Times(p, since, calls);
    match TimerOf(q, id)
    case Some(t) => NextFireIsFirst(q.rows[id], times[id], t);
    case None => NoneIffNothingDue(q.rows[id], times[id]);
  }

  // ----------------------------------------------------------------------
  // Restarts

  /** A restart before the timer of an enabled alarm has run out sets it as it was, if and only if it was
      set or nothing is due on the dates scanned at the restart. A one-off without a timer goes. */
  lemma RestartSetsTheSameIff(p: Plan, since: map<nat, int>, before: int, now: int, id: nat)
    requires Armed(p, since, before) && before <= now
    requires id in p.rows && p.rows[id].enabled && (id in p.timers ==> now < p.timers[id])
    ensures TimerOf(Reload(p, now), id) == TimerOf(p, id) <==>
      id in p.timers || forall u :: p.rows[id].Occurs(u) && now < u ==> DateOf(u) > DateOf(now) + 7
    ensures id in Reload(p, now).rows <==>
      id in p.timers || p.rows[id].Recurring() || p.rows[id].oneShotDate == None
  {
    var a := p.rows[id];
    if id in p.timers {
      StillNext(a, since[id], now, p.timers[id]);
    } else {
      NoneIffNothingDue(a, now);
      if !a.Recurring() {
        NoneIffNothingDue(a, since[id]);
      }
    }
  }

  /** The restart that helps: a weekly series whose one date this week is skipped has no timer when it is
      set on the day before, and one for the week after when the program starts on that date. */
  lemma RestartSetsSkipped(p: Plan, id: nat, now: int)
    requires var d := DateOf(now) + 1;
      id in p.rows && p.rows[id].enabled && p.rows[id].weekdays == {Weekday(d)} && p.rows[id].skipDates == {d}
    ensures var d := DateOf(now) + 1;
      && TimerOf(Reload(p, now), id) == None
      && TimerOf(Reload(p, Instant(d, 0)), id) == Some(Instant(d + 7, p.rows[id].time))
  {
    var a, d := p.rows[id], DateOf(now) + 1;
    OnlyWeekAfter(a, d);
    NothingThisWeek(a, now);
    hide NextFire, FirstAfter, Instant, DateOf;
    DateOfInstant(d, 0);
    DateOfInstant(d + 7, a.time);
    SetToFirstIffScanned(a, Instant(d, 0), Instant(d + 7, a.time));
  }

  lemma NothingThisWeek(a: Alarm, now: int)
    requires var d := DateOf(now) + 1; a.weekdays == {Weekday(d)} && a.skipDates == {d}
    ensures NextFire(a, now) == None
  {
    hide NextFire, Instant;
    forall u | a.Occurs(u) && now < u
      ensures DateOf(u) > DateOf(now) + 7
    {
      DatesInOrder(now, u);
      DifferentWeeks(DateOf(u), DateOf(now) + 1);
    }
    NoneIffNothingDue(a, now);
  }

  lemma DifferentWeeks(d: int, e: int)
    requires Weekday(d) == Weekday(e) && d != e
    ensures d >= e + 7 || d <= e - 7
  {}

  lemma OnlyWeekAfter(a: Alarm, d: int)
    requires a.weekdays == {Weekday(d)} && a.skipDates == {d}
    ensures FirstAfter(a, Instant(d, 0), Instant(d + 7, a.time))
  {
    DateOfInstant(d + 7, a.time);
    DateOfInstant(d, 0);
    LaterDate(Instant(d, 0), d + 7, a.time);
    hide Instant, DateOf;
    forall u | a.Occurs(u) && Instant(d, 0) < u
      ensures Instant(d + 7, a.time) <= u
    {
      DatesInOrder(Instant(d, 0), u);
      DifferentWeeks(DateOf(u), d);
      InstantsInOrder(d + 7, DateOf(u), a.time);
    }
    WeekAfter(d);
  }

  lemma WeekAfter(d: int)
    ensures Weekday(d + 7) == Weekday(d)
  {}

  // ----------------------------------------------------------------------
  // The fires of a series

  predicate LeavesAlone(op: Op, id: nat) {
    match op
    case Updating(i, _) => i != id
    case Deleting(i) => i != id
    case Skipping(i, _) => i != id
    case _ => true
  }

  /** The timer is set, and its time has come. */
  predicate RunsOut(p: Plan, id: nat, now: int) {
    id in p.timers && p.timers[id] <= now
  }

  /** Nobody edits the alarm, and its timer runs out only when it is set and due. */
  ghost predicate Undisturbed(p: Plan, calls: seq<Call>, id: nat) {
    forall k :: 0 <= k < |calls| ==>
      LeavesAlone(calls[k].op, id) && (calls[k].op == Timer(id) ==> RunsOut(After(p, calls[..k]), id, calls[k].now))
  }

  /** The fires of the alarm: what its timer was set to each time it ran out, and since when. */
  function FiresOf(p: Plan, since: map<nat, int>, calls: seq<Call>, id: nat): seq<Ring> {
    if calls == [] then []
    else
      var before, last := calls[..|calls| - 1], calls[|calls| - 1];
      var q, times := After(p, before), Times(p, since, before);
      FiresOf(p, since, before, id) +
      (if last.op == Timer(id) && id in q.timers && id in times then [Ring(times[id], q.timers[id], last.now)] else [])
  }

  /** The moments at which its timer ran out. */
  function TimerCalls(calls: seq<Call>, id: nat): seq<int> {
    if calls == [] then []
    else
      var last := calls[|calls| - 1];
      TimerCalls(calls[..|calls| - 1], id) + (if last.op == Timer(id) then [last.now] else [])
  }

  lemma UndisturbedInit(p: Plan, calls: seq<Call>, id: nat)
    requires Undisturbed(p, calls, id) && calls != []
    ensures Undisturbed(p, calls[..|calls| - 1], id)
  {
    hide After, RunsOut;
    var before := calls[..|calls| - 1];
    forall k | 0 <= k < |before|
      ensures LeavesAlone(before[k].op, id) &&
              (before[k].op == Timer(id) ==> RunsOut(After(p, before[..k]), id, before[k].now))
    {
      assert before[k] == calls[k] && before[..k] == calls[..k];
    }
  }

  lemma StepKeepsRow(p: Plan, since: map<nat, int>, c: Call, id: nat)
    requires id in p.rows && p.rows[id].enabled && p.rows[id].Recurring() && id < p.nextId && id in since
    requires LeavesAlone(c.op, id)
    ensures id in Step(p, c).rows && Step(p, c).rows[id] == p.rows[id]
    ensures id in SetTimes(p, since, c)
    ensures SetTimes(p, since, c)[id] == if c.op == Timer(id) || c.op == Restart then c.now else since[id]
  {
    hide NextFire;
  }

  lemma SeriesAppend(a: Alarm, start: int, fires: seq<Ring>, r: Ring)
    requires Series(a, start, fires) && FreeAt(start, fires, |fires|) <= r.setAt
    requires NextFire(a, r.setAt) == Some(r.due) && r.due <= r.handled
    ensures Series(a, start, fires + [r]) && FreeAt(start, fires + [r], |fires| + 1) == r.handled
  {
    hide NextFire;
    forall i | 0 <= i < |fires + [r]|
      ensures SetRight(a, start, fires + [r], i)
    {
      assert i < |fires| ==> SetRight(a, start, fires, i);
    }
  }

  /** What holds of an alarm after a run that does not disturb it. */
  ghost predicate KeptUp(a: Alarm, start: int, q: Plan, times: map<nat, int>, fires: seq<Ring>, id: nat) {
    && id in q.rows && q.rows[id] == a && id in times
    && Series(a, start, fires) && FreeAt(start, fires, |fires|) <= times[id]
  }

  /** The calls of the timer of an enabled series form a series of fires, whatever happens to other
      alarms and however often the program restarts. */
  lemma {:induction false} RunIsSeries(p: Plan, since: map<nat, int>, start: int, calls: seq<Call>, id: nat)
    requires Armed(p, since, start) && InOrder(start, calls) && Undisturbed(p, calls, id)
    requires id in p.rows && p.rows[id].enabled && p.rows[id].Recurring()
    ensures id in since
    ensures KeptUp(p.rows[id], since[id], After(p, calls), Times(p, since, calls), FiresOf(p, since, calls, id), id)
  {
    hide Step, SetTimes, NextFire;
    if calls == [] {
    } else {
      var before, last := calls[..|calls| - 1], calls[|calls| - 1];
      UndisturbedInit(p, calls, id);
      RunIsSeries(p, since, start, before, id);
      RunKeepsArmed(p, since, start, before);
      assert LeavesAlone(last.op, id) && calls[..|calls| - 1] == before;
      LastFire(p.rows[id], since[id], After(p, before), Times(p, since, before), EndOf(start, before),
               FiresOf(p, since, before, id), last, id);
      assert FiresOf(p, since, before, id) + [] == FiresOf(p, since, before, id);
    }
  }

  lemma LastFire(a: Alarm, start: int, q: Plan, times: map<nat, int>, before: int, fires: seq<Ring>, c: Call, id: nat)
    requires a.enabled && a.Recurring() && KeptUp(a, start, q, times, fires, id)
    requires Armed(q, times, before) && before <= c.now && LeavesAlone(c.op, id)
    requires c.op == Timer(id) ==> RunsOut(q, id, c.now)
    ensures var more := if c.op == Timer(id) then fires + [Ring(times[id], q.timers[id], c.now)] else fires;
      KeptUp(a, start, Step(q, c), SetTimes(q, times, c), more, id)
  {
    hide Step, SetTimes, NextFire;
    StepKeepsRow(q, times, c, id);
    if c.op == Timer(id) {
      SeriesAppend(a, start, fires, Ring(times[id], q.timers[id], c.now));
    }
  }

  /** Each time the timer runs out is one of the fires, in order. */
  lemma {:induction false} FiresAreTimerCalls(p: Plan, since: map<nat, int>, start: int, calls: seq<Call>, id: nat)
    requires Armed(p, since, start) && InOrder(start, calls) && Undisturbed(p, calls, id)
    requires id in p.rows && p.rows[id].enabled && p.rows[id].Recurring()
    ensures var fires, ran := FiresOf(p, since, calls, id), TimerCalls(calls, id);
      |fires| == |ran| && forall i :: 0 <= i < |ran| ==> fires[i].handled == ran[i]
  {
    hide Step, SetTimes, NextFire, Series;
    if calls == [] {
    } else {
      var before, last := calls[..|calls| - 1], calls[|calls| - 1];
      UndisturbedInit(p, calls, id);
      FiresAreTimerCalls(p, since, start, before, id);
      RunIsSeries(p, since, start, before, id);
      assert LeavesAlone(last.op, id);
    }
  }

  /** In any run that does not disturb it, an enabled series goes off at exactly its occurrences, up to
      the one its timer is set to then (or, without a timer, on the dates scanned last), apart from those
      that came due after it went off, or after the start, and before it was set again. */
  lemma RunFiresAllButMissed(p: Plan, since: map<nat, int>, start: int, calls: seq<Call>, id: nat, t: int)
    requires Armed(p, since, start) && InOrder(start, calls) && Undisturbed(p, calls, id)
    requires id in p.rows && p.rows[id].enabled && p.rows[id].Recurring()
    ensures id in since && id in Times(p, since, calls)
    ensures var a, fires, setTime := p.rows[id], FiresOf(p, since, calls, id), Times(p, since, calls)[id];
      since[id] < t && Awaits(a, setTime, t) ==>
        (Fired(fires, t) <==> a.Occurs(t) && !Missed(since[id], fires, t) && !UnsetSince(since[id], fires, setTime, t))
    ensures TimerOf(After(p, calls), id) == NextFire(p.rows[id], Times(p, since, calls)[id])
  {
    hide Step, SetTimes, NextFire, Undisturbed, Awaits;
    RunIsSeries(p, since, start, calls, id);
    RunKeepsArmed(p, since, start, calls);
    hide Armed;
    var a, fires, setTime := p.rows[id], FiresOf(p, since, calls, id), Times(p, since, calls)[id];
    if since[id] < t && Awaits(a, setTime, t) {
      FiresAllSoFar(a, since[id], fires, setTime, t);
    }
  }

  /** The shortest such run: the timer runs out once, when it is due or later. */
  lemma FirstFire(p: Plan, since: map<nat, int>, start: int, id: nat, now: int)
    requires Armed(p, since, start) && id in p.timers && start <= now && p.timers[id] <= now
    ensures var calls := [Call(Timer(id), now)];
      && InOrder(start, calls) && Undisturbed(p, calls, id)
      && id in since && FiresOf(p, since, calls, id) == [Ring(since[id], p.timers[id], now)]
  {
    hide NextFire;
    var calls := [Call(Timer(id), now)];
    assert calls[..0] == [];
  }

  /** Its fires follow one another: each is due after the one before was handled. */
  lemma RunFiresInOrder(p: Plan, since: map<nat, int>, start: int, calls: seq<Call>, id: nat, i: nat, j: nat)
    requires Armed(p, since, start) && InOrder(start, calls) && Undisturbed(p, calls, id)
    requires id in p.rows && p.rows[id].enabled && p.rows[id].Recurring()
    ensures var fires := FiresOf(p, since, calls, id);
      i < j < |fires| ==> fires[i].due <= fires[i].handled < fires[j].due
  {
    hide Step, SetTimes, NextFire, Armed, Undisturbed, FirstAfter;
    RunIsSeries(p, since, start, calls, id);
    var fires := FiresOf(p, since, calls, id);
    if i < j < |fires| {
      SetAfter(p.rows[id], since[id], fires, i);
      FiresInOrder(p.rows[id], since[id], fires, i, j);
    }
  }

  /** Without a restart an occurrence is missed only while an earlier one is being handled: each fire but
      the first is set the moment the one before has been handled. */
  lemma {:induction false} SetWhenHandled(p: Plan, since: map<nat, int>, start: int, calls: seq<Call>, id: nat)
    requires Armed(p, since, start) && InOrder(start, calls) && Undisturbed(p, calls, id)
    requires id in p.rows && p.rows[id].enabled && p.rows[id].Recurring() && id in since
    requires forall k :: 0 <= k < |calls| ==> calls[k].op != Restart
    ensures var fires := FiresOf(p, since, calls, id);
      && (forall i :: 0 <= i < |fires| ==> fires[i].setAt == FreeAt(since[id], fires, i))
      && id in Times(p, since, calls) && Times(p, since, calls)[id] == FreeAt(since[id], fires, |fires|)
  {
    hide Step, SetTimes, NextFire, Series;
    if calls == [] {
    } else {
      var before, last := calls[..|calls| - 1], calls[|calls| - 1];
      UndisturbedInit(p, calls, id);
      SetWhenHandled(p, since, start, before, id);
      RunIsSeries(p, since, start, before, id);
      RunKeepsArmed(p, since, start, before);
      assert LeavesAlone(last.op, id) && last.op != Restart;
      StepKeepsRow(After(p, before), Times(p, since, before), last, id);
    }
  }

  // ----------------------------------------------------------------------
  // Timers of disabled alarms

  /** Every timer belongs to an enabled alarm. */
  ghost predicate Tidy(p: Plan) {
    && (forall id :: id in p.rows ==> id < p.nextId)
    && (forall id :: id in p.timers ==> id in p.rows && p.rows[id].enabled)
  }

  /** A skip of a disabled series that goes off again on the dates scanned without the skipped one. */
  predicate ArmsDisabled(p: Plan, c: Call) {
    c.op.Skipping? && c.op.id in p.rows && p.rows[c.op.id].Recurring() && !p.rows[c.op.id].enabled &&
    var row := p.rows[c.op.id];
    NextFire(row.(skipDates := row.skipDates + {c.op.date}), c.now).Some?
  }

  /** Such a skip is the one call that sets the timer of a disabled alarm. */
  lemma StepTidyIff(p: Plan, c: Call)
    requires Tidy(p)
    ensures Tidy(Step(p, c)) <==> !ArmsDisabled(p, c)
  {
    hide NextFire;
    if ArmsDisabled(p, c) {
      assert c.op.id in Step(p, c).timers;
    }
  }

  lemma LoadsTidy(p: Plan, now: int)
    requires forall id :: id in p.rows ==> id < p.nextId
    ensures Tidy(Reload(p, now))
  {
    hide NextFire;
    forall id | id in Reload(p, now).timers
      ensures id in Reload(p, now).rows
    {
      assert !Overdue(p.rows[id], now);
    }
  }

  /** No disabled alarm has a timer after any call up to the n-th if and only if none of these calls was
      such a skip. */
  lemma {:induction false} RunTidyIff(p: Plan, calls: seq<Call>, n: nat)
    requires Tidy(p) && n <= |calls|
    ensures (forall k :: 0 <= k <= n ==> Tidy(After(p, calls[..k]))) <==>
            (forall k :: 0 <= k < n ==> !ArmsDisabled(After(p, calls[..k]), calls[k]))
  {
    hide Step, Tidy, ArmsDisabled;
    if n == 0 {
      assert calls[..0] == [];
    } else {
      RunTidyIff(p, calls, n - 1);
      assert calls[..n][..n - 1] == calls[..n - 1];
      if Tidy(After(p, calls[..n - 1])) {
        StepTidyIff(After(p, calls[..n - 1]), calls[n - 1]);
      }
    }
  }

  /** The timer of a disabled alarm runs out without ringing, and is gone. */
  lemma DisabledDoesNotRing(p: Plan, id: nat, now: int)
    requires id in p.rows && !p.rows[id].enabled
    ensures !Rings(p, id) && Fire(p, id, now) == p.(timers := p.timers - {id})
  {}

  /** A row that is gone never comes back: ids are not used twice. */
  lemma {:induction false} GoneStaysGone(p: Plan, calls: seq<Call>, id: nat)
    requires id < p.nextId && id !in p.rows
    ensures id !in After(p, calls).rows && p.nextId <= After(p, calls).nextId
  {
    if calls == [] {
    } else {
      GoneStaysGone(p, calls[..|calls| - 1], id);
    }
  }

  lemma {:induction false} AfterAppend(p: Plan, a: seq<Call>, b: seq<Call>)
    ensures After(p, a + b) == After(After(p, a), b)
  {
    if b == [] {
      assert a + b == a;
    } else {
      AfterAppend(p, a, b[..|b| - 1]);
      assert (a + b)[..|a + b| - 1] == a + b[..|b| - 1];
    }
  }

  predicate RingsAt(p: Plan, calls: seq<Call>, i: nat, id: nat)
    requires i < |calls|
  {
    calls[i].op == Timer(id) && Rings(After(p, calls[..i]), id)
  }

  // ----------------------------------------------------------------------
  // What each call is for

  /** Nothing else than the alarm is touched. */
  ghost predicate OthersStay(p: Plan, q: Plan, id: nat) {
    && (forall i :: i != id ==> (i in q.rows <==> i in p.rows) && (i in q.timers <==> i in p.timers))
    && (forall i :: i != id && i in p.rows ==> q.rows[i] == p.rows[i])
    && (forall i :: i != id && i in p.timers ==> q.timers[i] == p.timers[i])
  }

  /** A deleted alarm has neither row nor timer and never rings again. */
  lemma DeletedIsGone(p: Plan, id: nat, now: int, calls: seq<Call>)
    requires id < p.nextId
    ensures var q := Step(p, Call(Deleting(id), now));
      && id !in q.rows && (id in p.rows ==> id !in q.timers) && OthersStay(p, q, id) && q.nextId == p.nextId
      && (forall k :: 0 <= k < |calls| ==> !RingsAt(q, calls, k, id))
      && id !in After(q, calls).rows
  {
    var q := Step(p, Call(Deleting(id), now));
    GoneStaysGone(q, calls, id);
    forall k | 0 <= k < |calls|
      ensures !RingsAt(q, calls, k, id)
    {
      hide Step;
      GoneStaysGone(q, calls[..k], id);
    }
  }

  /** The alarm waits for the first instant after now at which it goes off, if the scan reaches one. */
  ghost predicate Waits(q: Plan, id: nat, now: int)
    requires id in q.rows
  {
    match TimerOf(q, id)
    case Some(t) => FirstAfter(q.rows[id], now, t)
    case None => forall u :: q.rows[id].Occurs(u) && now < u ==>
                   q.rows[id].Recurring() && DateOf(u) > DateOf(now) + 7
  }

  lemma ScheduledWaits(q: Plan, id: nat, now: int)
    requires id in q.rows && TimerOf(q, id) == NextFire(q.rows[id], now)
    ensures Waits(q, id, now)
  {
    hide NextFire, FirstAfter, DateOf;
    match TimerOf(q, id)
    case Some(t) => NextFireIsFirst(q.rows[id], now, t);
    case None => NoneIffNothingDue(q.rows[id], now);
  }

  /** A changed alarm is what it was changed to, and waits for that if it is enabled. */
  lemma UpdatedIs(p: Plan, id: nat, a: Alarm, now: int)
    ensures var q := Step(p, Call(Updating(id, a), now));
      if id in p.rows then
        && id in q.rows && q.rows[id] == a && OthersStay(p, q, id) && q.nextId == p.nextId
        && (if a.enabled then Waits(q, id, now) else id !in q.timers)
      else q == p
  {
    hide NextFire, Waits;
    if id in p.rows && a.enabled {
      ScheduledWaits(Step(p, Call(Updating(id, a), now)), id, now);
    }
  }

  /** A new alarm has an id of its own, is enabled, goes off on the dates it was created for, whatever it
      came with to skip, and waits for the first. */
  lemma CreatedIs(p: Plan, a: Alarm, now: int)
    requires forall i :: i in p.rows || i in p.timers ==> i < p.nextId
    ensures var q, id := Step(p, Call(Creating(a), now)), p.nextId;
      && id !in p.rows && id in q.rows && q.nextId == id + 1 && OthersStay(p, q, id)
      && q.rows[id].satellite == a.satellite && q.rows[id].time == a.time && q.rows[id].enabled
      && (forall d :: q.rows[id].OnDate(d) <==>
            if a.weekdays != {} then Weekday(d) in a.weekdays else a.oneShotDate == Some(d))
      && Waits(q, id, now)
  {
    hide NextFire, Waits, Weekday;
    var q := Step(p, Call(Creating(a), now));
    ScheduledWaits(q, p.nextId, now);
  }

  /** A series that skips a date goes off on all its other dates as before, and waits accordingly; nothing
      but a series can skip one. */
  lemma SkippedIs(p: Plan, id: nat, date: int, now: int)
    ensures var q := Step(p, Call(Skipping(id, date), now));
      if id in p.rows && p.rows[id].weekdays != {} then
        && id in q.rows && OthersStay(p, q, id) && q.nextId == p.nextId
        && !q.rows[id].OnDate(date) && (forall d :: d != date ==> q.rows[id].OnDate(d) == p.rows[id].OnDate(d))
        && q.rows[id].(skipDates := {}) == p.rows[id].(skipDates := {})
        && Waits(q, id, now)
      else q == p
  {
    hide NextFire, Waits, Weekday;
    if id in p.rows && p.rows[id].weekdays != {} {
      ScheduledWaits(Step(p, Call(Skipping(id, date), now)), id, now);
    }
  }

  /** A timer that runs out: the alarm rings if it is there and enabled. A one-off is gone then, a series
      stays as it is and waits for its next date; nothing else is touched. */
  lemma RangIs(p: Plan, id: nat, now: int)
    ensures var q := Step(p, Call(Timer(id), now));
      && OthersStay(p, q, id) && q.nextId == p.nextId
      && (Rings(p, id) <==> id in p.rows && p.rows[id].enabled)
      && (if !Rings(p, id) then q.rows == p.rows && id !in q.timers
          else if p.rows[id].weekdays == {} then id !in q.rows && id !in q.timers
          else id in q.rows && q.rows[id] == p.rows[id] && Waits(q, id, now))
  {
    hide NextFire, Waits;
    if Rings(p, id) && p.rows[id].weekdays != {} {
      ScheduledWaits(Step(p, Call(Timer(id), now)), id, now);
    }
  }

  lemma RingingDeletes(p: Plan, since: map<nat, int>, now: int, c: Call, id: nat)
    requires Armed(p, since, now) && c.op == Timer(id) && Rings(p, id) && !p.rows[id].Recurring()
    ensures id !in Step(p, c).rows && id < Step(p, c).nextId
  {}

  /** A one-off rings at most once in any run, and its row is gone from then on. */
  lemma OneOffRingsOnce(p: Plan, since: map<nat, int>, start: int, calls: seq<Call>, i: nat, j: nat, id: nat)
    requires Armed(p, since, start) && InOrder(start, calls)
    requires i < j <= |calls|
    requires RingsAt(p, calls, i, id) && !After(p, calls[..i]).rows[id].Recurring()
    ensures id !in After(p, calls[..j]).rows
    ensures j < |calls| ==> !RingsAt(p, calls, j, id)
  {
    hide Step, Armed;
    RunKeepsArmed(p, since, start, calls[..i]);
    var q := After(p, calls[..i + 1]);
    assert calls[..i + 1][..i] == calls[..i];
    RingingDeletes(After(p, calls[..i]), Times(p, since, calls[..i]), EndOf(start, calls[..i]), calls[i], id);
    assert calls[..j] == calls[..i + 1] + calls[i + 1..j];
    AfterAppend(p, calls[..i + 1], calls[i + 1..j]);
    GoneStaysGone(q, calls[i + 1..j], id);
  }

  /** The date an alarm is set to is one on which it is found, and no earlier date to come is. */
  lemma FoundOnItsDate(a: Alarm, now: int, d: int)
    requires NextFire(a, now).Some? && Instant(d, a.time) > now
    ensures a.OnDate(DateOf(NextFire(a, now).value))
    ensures a.OnDate(d) ==> DateOf(NextFire(a, now).value) <= d
  {
    hide NextFire, Instant, DateOf;
    NextFireIsFirst(a, now, NextFire(a, now).value);
    DateOfInstant(d, a.time);
    if a.OnDate(d) {
      assert a.Occurs(Instant(d, a.time));
      DatesInOrder(NextFire(a, now).value, Instant(d, a.time));
    }
  }
}

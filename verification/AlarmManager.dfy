/** The alarm manager's table of alarms and its timers, at most one per alarm. */
module AlarmManagers {
  import opened Options
  import opened AlarmCalendar

  /** The rows by id, the instants the timers are set to, and the next id. */
  datatype Plan = Plan(rows: map<nat, Alarm>, timers: map<nat, int>, nextId: nat)

  /** The timer of the alarm is cancelled and set anew if the alarm is due again. */
  function Schedule(p: Plan, id: nat, a: Alarm, now: int): Plan {
    match NextFire(a, now)
    case None => p.(timers := p.timers - {id})
    case Some(t) => p.(timers := p.timers[id := t])
  }

  function Create(p: Plan, a: Alarm, now: int): Plan {
    var row := a.(skipDates := {}, enabled := true);
    Schedule(Plan(p.rows[p.nextId := row], p.timers, p.nextId + 1), p.nextId, row, now)
  }

  function Update(p: Plan, id: nat, a: Alarm, now: int): Plan {
    if id !in p.rows then p
    else
      var q := Plan(p.rows[id := a], p.timers - {id}, p.nextId);
      if a.enabled then Schedule(q, id, a, now) else q
  }

  function Delete(p: Plan, id: nat): Plan {
    if id !in p.rows then p else Plan(p.rows - {id}, p.timers - {id}, p.nextId)
  }

  /** Only a series can skip a date; a disabled one is scheduled too. */
  function Skip(p: Plan, id: nat, date: int, now: int): Plan {
    if id !in p.rows || !p.rows[id].Recurring() then p
    else
      var row := p.rows[id].(skipDates := p.rows[id].skipDates + {date});
      Schedule(p.(rows := p.rows[id := row]), id, row, now)
  }

  /** The alarm whose timer has run out rings, unless it is gone or disabled. */
  predicate Rings(p: Plan, id: nat) {
    id in p.rows && p.rows[id].enabled
  }

  function Fire(p: Plan, id: nat, now: int): Plan {
    var q := p.(timers := p.timers - {id});
    if !Rings(p, id) then q
    else if p.rows[id].Recurring() then Schedule(q, id, p.rows[id], now)
    else q.(rows := q.rows - {id})
  }

  /** A one-off whose date passed while nothing was running. */
  predicate Overdue(a: Alarm, now: int) {
    a.enabled && !a.Recurring() && a.oneShotDate.Some? && NextFire(a, now) == None
  }

  /** After a restart: no timers but those of the enabled alarms, and no overdue one-offs. */
  function Reload(p: Plan, now: int): Plan {
    Plan(map id | id in p.rows && !Overdue(p.rows[id], now) :: p.rows[id],
         map id | id in p.rows && p.rows[id].enabled && NextFire(p.rows[id], now).Some? ::
           NextFire(p.rows[id], now).value,
         p.nextId)
  }

  class AlarmManager {
    var rows: map<nat, Alarm>
    var timers: map<nat, int>
    var nextId: nat

    function State(): Plan
      reads this
    {
      Plan(rows, timers, nextId)
    }

    /** Starts on the rows of the database, without any timer. */
    constructor (rows: map<nat, Alarm>, nextId: nat, now: int)
      ensures State() == Reload(Plan(rows, map[], nextId), now)
    {
      this.rows, this.timers, this.nextId := rows, map[], nextId;
      new;
      LoadAndRescheduleAll(now);
    }

    method CreateAlarm(a: Alarm, now: int) returns (id: nat)
      modifies this
      ensures id == old(nextId) && State() == Create(old(State()), a, now)
    {
      id := nextId;
      var row := a.(skipDates := {}, enabled := true);
      rows, nextId := rows[id := row], nextId + 1;
      ScheduleTimer(id, row, now);
    }

    method UpdateAlarm(id: nat, a: Alarm, now: int) returns (found: bool)
      modifies this
      ensures found == (id in old(rows)) && State() == Update(old(State()), id, a, now)
    {
      if id !in rows {
        return false;
      }
      rows := rows[id := a];
      timers := timers - {id};
      if a.enabled {
        ScheduleTimer(id, a, now);
      }
      found := true;
    }

    method DeleteAlarm(id: nat) returns (found: bool)
      modifies this
      ensures found == (id in old(rows)) && State() == Delete(old(State()), id)
    {
      if id !in rows {
        return false;
      }
      timers := timers - {id};
      rows := rows - {id};
      found := true;
    }

    method SkipOccurrence(id: nat, date: int, now: int) returns (found: bool)
      modifies this
      ensures found == (id in old(rows) && old(rows)[id].Recurring())
      ensures State() == Skip(old(State()), id, date, now)
    {
      if id !in rows || !rows[id].Recurring() {
        return false;
      }
      var row := rows[id].(skipDates := rows[id].skipDates + {date});
      rows := rows[id := row];
      ScheduleTimer(id, row, now);
      found := true;
    }

    /** The alarms that go off on a date, of one satellite or of all. */
    method FindOccurrences(satellite: Option<string>, date: int) returns (ids: set<nat>)
      ensures forall id :: id in ids <==>
        && id in rows && rows[id].enabled && rows[id].OnDate(date)
        && (satellite == None || satellite.value == rows[id].satellite)
    {
      ids := {};
      var rest := rows.Keys;
      while rest != {}
        invariant rest <= rows.Keys
        invariant forall id :: id in ids <==>
          id in rows && id !in rest && rows[id].enabled &&
          (satellite == None || satellite.value == rows[id].satellite) && rows[id].OnDate(date)
      {
        var id :| id in rest;
        rest := rest - {id};
        if !rows[id].enabled || (satellite.Some? && satellite.value != rows[id].satellite) {
          continue;
        }
        if rows[id].OnDate(date) {
          ids := ids + {id};
        }
      }
    }

    method ScheduleTimer(id: nat, a: Alarm, now: int)
      modifies this`timers
      ensures State() == Schedule(old(State()), id, a, now)
    {
      var next := ComputeNextFire(a, now);
      timers := timers - {id};
      if next == None {
        return;
      }
      timers := timers[id := next.value];
    }

    /** A timer has run out. Gives the alarm that rings, if one does. */
    method OnTimer(id: nat, now: int) returns (rang: Option<Alarm>)
      modifies this
      ensures rang == if Rings(old(State()), id) then Some(old(rows)[id]) else None
      ensures State() == Fire(old(State()), id, now)
    {
      timers := timers - {id};
      if id !in rows || !rows[id].enabled {
        return None;
      }
      rang := Some(rows[id]);
      if !rows[id].Recurring() {
        rows := rows - {id};
      } else {
        ScheduleTimer(id, rows[id], now);
      }
    }

    method LoadAndRescheduleAll(now: int)
      requires timers == map[]
      modifies this
      ensures State() == Reload(old(State()), now)
    {
      hide NextFire, Overdue;
      ghost var p := Reload(State(), now);
      var rest := rows.Keys;
      ghost var before := rows;
      while rest != {}
        invariant rest <= before.Keys && nextId == old(nextId)
        invariant forall id :: id in rows <==> id in before && (id in rest || !Overdue(before[id], now))
        invariant forall id :: id in rows ==> rows[id] == before[id]
        invariant forall id :: id in timers <==> id in p.timers && id !in rest
        invariant forall id :: id in timers ==> timers[id] == p.timers[id]
      {
        var id :| id in rest;
        rest := rest - {id};
        assert id in rows && id !in timers;
        LoadOne(id, now);
      }
      assert rows == p.rows;
      assert timers == p.timers;
    }

    /** One row: deleted when overdue, scheduled when enabled. */
    method LoadOne(id: nat, now: int)
      requires id in rows && id !in timers
      modifies this`rows, this`timers
      ensures rows == if Overdue(old(rows)[id], now) then old(rows) - {id} else old(rows)
      ensures var a := old(rows)[id];
        timers == if a.enabled && NextFire(a, now).Some? then old(timers)[id := NextFire(a, now).value] else old(timers)
    {
      hide NextFire;
      var a := rows[id];
      if !a.enabled {
        return;
      }
      if !a.Recurring() && a.oneShotDate.Some? {
        var next := ComputeNextFire(a, now);
        if next == None {
          rows := rows - {id};
          return;
        }
      }
      ScheduleTimer(id, a, now);
      assert old(timers) - {id} == old(timers);
    }
  }
}

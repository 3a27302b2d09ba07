/** When an alarm goes off: dates, weekdays, skipped dates and the scan of the
    next eight days. Dates are day numbers, instants microseconds. */
module AlarmCalendar {
  import opened Options

  const MINUTE := 60_000_000
  const DAY := 1440 * MINUTE

  type MinuteOfDay = m: nat | m < 1440

  datatype Alarm = Alarm(
    satellite: string,
    time: MinuteOfDay,
    weekdays: set<int>,        // empty: one-off
    skipDates: set<int>,
    oneShotDate: Option<int>,
    enabled: bool)
  {
    predicate Recurring() {
      weekdays != {}
    }

    /** The alarm goes off on this date. */
    predicate OnDate(d: int) {
      if Recurring() then Weekday(d) in weekdays && d !in skipDates else oneShotDate == Some(d)
    }

    /** The alarm goes off at this instant. */
    predicate Occurs(t: int) {
      t == Instant(DateOf(t), time) && OnDate(DateOf(t))
    }
  }

  /** Monday is 0; day 1 is 0001-01-01, a Monday. */
  function Weekday(d: int): int {
    (d + 6) % 7
  }

  function Instant(d: int, time: MinuteOfDay): int {
    d * DAY + time * MINUTE
  }

  function DateOf(t: int): int {
    t / DAY
  }

  lemma DateOfInstant(d: int, time: MinuteOfDay)
    ensures DateOf(Instant(d, time)) == d
  {}

  lemma DatesInOrder(t: int, u: int)
    requires t <= u
    ensures DateOf(t) <= DateOf(u)
  {}

  lemma LaterDate(t: int, d: int, time: MinuteOfDay)
    requires DateOf(t) < d
    ensures t < Instant(d, time)
  {}

  lemma InstantsInOrder(d: int, e: int, time: MinuteOfDay)
    requires d <= e
    ensures Instant(d, time) <= Instant(e, time)
  {}

  // ----------------------------------------------------------------------
  // The scan

  /** Today and seven more days: the same weekday again when today's time has passed. */
  const SCANNED_DAYS := 8

  /** The earliest occurrence after now on the scanned dates from this offset on. */
  function Scan(a: Alarm, now: int, offset: nat): Option<int>
    requires offset <= SCANNED_DAYS
    decreases SCANNED_DAYS - offset
  {
    if offset == SCANNED_DAYS then None
    else
      var d := DateOf(now) + offset;
      if a.OnDate(d) && Instant(d, a.time) > now then Some(Instant(d, a.time)) else Scan(a, now, offset + 1)
  }

  function NextFire(a: Alarm, now: int): Option<int> {
    if a.Recurring() then Scan(a, now, 0)
    else if a.oneShotDate.Some? && Instant(a.oneShotDate.value, a.time) > now
    then Some(Instant(a.oneShotDate.value, a.time))
    else None
  }

  method ComputeNextFire(a: Alarm, now: int) returns (next: Option<int>)
    ensures next == NextFire(a, now)
  {
    if !a.Recurring() {
      if a.oneShotDate == None {
        return None;
      }
      var t := Instant(a.oneShotDate.value, a.time);
      return if t > now then Some(t) else None;
    }
    for offset := 0 to SCANNED_DAYS
      invariant Scan(a, now, 0) == Scan(a, now, offset)
    {
      var d := DateOf(now) + offset;
      if Weekday(d) !in a.weekdays || d in a.skipDates {
        continue;
      }
      var t := Instant(d, a.time);
      if t > now {
        return Some(t);
      }
    }
    next := None;
  }

  // ----------------------------------------------------------------------
  // What the scan finds

  /** No occurrence after `now` and before `t`. */
  ghost predicate FirstAfter(a: Alarm, now: int, t: int) {
    a.Occurs(t) && now < t && forall u :: a.Occurs(u) && now < u ==> t <= u
  }

  lemma {:induction false} ScanFindsFirst(a: Alarm, now: int, offset: nat)
    requires offset <= SCANNED_DAYS
    ensures match Scan(a, now, offset)
      case Some(t) =>
        && a.Occurs(t) && now < t && DateOf(t) <= DateOf(now) + 7
        && forall u :: a.Occurs(u) && now < u && DateOf(u) >= DateOf(now) + offset ==> t <= u
      case None =>
        forall u :: a.Occurs(u) && now < u && DateOf(u) >= DateOf(now) + offset ==> DateOf(u) > DateOf(now) + 7
    decreases SCANNED_DAYS - offset
  {
    hide Instant, DateOf;
    if offset == SCANNED_DAYS {
    } else {
      ScanFindsFirst(a, now, offset + 1);
      var d := DateOf(now) + offset;
      DateOfInstant(d, a.time);
      forall u | a.Occurs(u) && DateOf(u) >= d
        ensures Instant(d, a.time) <= u
      {
        InstantsInOrder(d, DateOf(u), a.time);
      }
    }
  }

  /** What the alarm is set to is its first occurrence of all that are still to come. */
  lemma NextFireIsFirst(a: Alarm, now: int, t: int)
    requires NextFire(a, now) == Some(t)
    ensures FirstAfter(a, now, t)
    ensures a.Recurring() ==> DateOf(t) <= DateOf(now) + 7
  {
    if a.Recurring() {
      ScanFindsFirst(a, now, 0);
      forall u | a.Occurs(u) && now < u
        ensures t <= u
      {
        DatesInOrder(now, u);
      }
    } else {
      DateOfInstant(a.oneShotDate.value, a.time);
    }
  }

  /** Nothing is set exactly when nothing is due: for a series, within the scanned dates. */
  lemma NoneIffNothingDue(a: Alarm, now: int)
    ensures NextFire(a, now) == None <==>
      forall u :: a.Occurs(u) && now < u ==> a.Recurring() && DateOf(u) > DateOf(now) + 7
  {
    if NextFire(a, now) == None {
      forall u | a.Occurs(u) && now < u
        ensures a.Recurring() && DateOf(u) > DateOf(now) + 7
      {
        DatesInOrder(now, u);
        if a.Recurring() {
          ScanFindsFirst(a, now, 0);
        }
      }
    } else {
      NextFireIsFirst(a, now, NextFire(a, now).value);
    }
  }

  /** The alarm is set to its true next occurrence if and only if that lies on a scanned date. */
  lemma SetToFirstIffScanned(a: Alarm, now: int, t: int)
    requires FirstAfter(a, now, t) && a.Recurring()
    ensures NextFire(a, now) == Some(t) <==> DateOf(t) <= DateOf(now) + 7
  {
    NoneIffNothingDue(a, now);
    if NextFire(a, now).Some? {
      NextFireIsFirst(a, now, NextFire(a, now).value);
    }
  }

  lemma OnSomeScannedDate(a: Alarm, now: int, w: int) returns (d: int)
    requires 0 <= w < 7
    ensures DateOf(now) < d <= DateOf(now) + 7 && Weekday(d) == w
  {
    var tomorrow := DateOf(now) + 1;
    d := tomorrow + (w - Weekday(tomorrow)) % 7;
    assert d + 6 == 7 * ((tomorrow + 6) / 7 - (w - Weekday(tomorrow)) / 7) + w;
  }

  /** Eight days suffice for a series with a real weekday and no skipped date among the scanned ones. */
  lemma EightDaysSuffice(a: Alarm, now: int, w: int)
    requires w in a.weekdays && 0 <= w < 7
    requires forall d :: DateOf(now) <= d <= DateOf(now) + 7 ==> d !in a.skipDates
    ensures NextFire(a, now).Some?
  {
    var d := OnSomeScannedDate(a, now, w);
    DateOfInstant(d, a.time);
    assert a.Occurs(Instant(d, a.time));
    NoneIffNothingDue(a, now);
  }

  lemma Bounded(s: set<int>) returns (b: int)
    ensures forall x :: x in s ==> x <= b
  {
    if x :| x in s {
      var rest := Bounded(s - {x});
      b := if rest < x then x else rest;
      forall y | y in s
        ensures y <= b
      {
        assert y == x || y in s - {x};
      }
    } else {
      b := 0;
    }
  }

  /** A series with a real weekday always has another occurrence: when it is not set, it is because
      the scan looks too short, not because it is over. */
  lemma SeriesGoesOn(a: Alarm, now: int, w: int) returns (t: int)
    requires w in a.weekdays && 0 <= w < 7
    ensures a.Occurs(t) && now < t
  {
    var b := Bounded(a.skipDates);
    var from := (if b < DateOf(now) then DateOf(now) else b) * DAY;
    var d := OnSomeScannedDate(a, from, w);
    t := Instant(d, a.time);
    DateOfInstant(d, a.time);
  }

  /** The single date of a weekly series this week is skipped: it is not set any more. */
  lemma WeeklySkippedIsNotSet(satellite: string, time: MinuteOfDay, now: int)
    ensures var d := DateOf(now) + 1;
      var a := Alarm(satellite, time, {Weekday(d)}, {d}, None, true);
      NextFire(a, now) == None && a.Occurs(Instant(d + 7, time)) && now < Instant(d + 7, time)
  {
    hide Instant, NextFire, DateOf;
    var d := DateOf(now) + 1;
    var a := Alarm(satellite, time, {Weekday(d)}, {d}, None, true);
    DateOfInstant(d + 7, time);
    LaterDate(now, d + 7, time);
    forall u | a.Occurs(u) && now < u
      ensures DateOf(u) > DateOf(now) + 7
    {
      DatesInOrder(now, u);
    }
    NoneIffNothingDue(a, now);
  }

  /** Computing again at any later moment before it goes off gives the same instant. */
  lemma StillNext(a: Alarm, now: int, later: int, t: int)
    requires NextFire(a, now) == Some(t) && now <= later < t
    ensures NextFire(a, later) == Some(t)
  {
    NextFireIsFirst(a, now, t);
    DatesInOrder(now, later);
    NoneIffNothingDue(a, later);
    NextFireIsFirst(a, later, NextFire(a, later).value);
  }

  // ----------------------------------------------------------------------
  // The series of fires

  /** One time the alarm went off: when its timer had last been set, for when, and when that was handled. */
  datatype Ring = Ring(setAt: int, due: int, handled: int)

  /** From when on the timer of the i-th fire could be set: from the start, or once the one before had
      been handled. */
  function FreeAt(start: int, fires: seq<Ring>, i: nat): int
    requires i <= |fires|
  {
    if i == 0 then start else fires[i - 1].handled
  }

  /** The i-th fire was the next one when it was set, and was handled when it was due or later. */
  predicate SetRight(a: Alarm, start: int, fires: seq<Ring>, i: nat)
    requires i < |fires|
  {
    && FreeAt(start, fires, i) <= fires[i].setAt
    && NextFire(a, fires[i].setAt) == Some(fires[i].due) && fires[i].due <= fires[i].handled
  }

  /** A series that is set anew after each time it has gone off. */
  ghost predicate Series(a: Alarm, start: int, fires: seq<Ring>) {
    forall i :: 0 <= i < |fires| ==> SetRight(a, start, fires, i)
  }

  /** The time between a fire, or the start, and the moment the next was set. */
  predicate UnsetAt(start: int, fires: seq<Ring>, i: nat, t: int)
    requires i < |fires|
  {
    (if i == 0 then start else fires[i - 1].due) < t <= fires[i].setAt
  }

  ghost predicate Missed(start: int, fires: seq<Ring>, t: int) {
    exists i :: 0 <= i < |fires| && UnsetAt(start, fires, i, t)
  }

  ghost predicate Fired(fires: seq<Ring>, t: int) {
    exists i :: 0 <= i < |fires| && fires[i].due == t
  }

  lemma SetAfter(a: Alarm, start: int, fires: seq<Ring>, i: nat)
    requires Series(a, start, fires) && i < |fires|
    ensures FirstAfter(a, fires[i].setAt, fires[i].due)
    ensures FreeAt(start, fires, i) <= fires[i].setAt < fires[i].due <= fires[i].handled
  {
    assert SetRight(a, start, fires, i);
    NextFireIsFirst(a, fires[i].setAt, fires[i].due);
  }

  lemma {:induction false} FiresInOrder(a: Alarm, start: int, fires: seq<Ring>, i: nat, j: nat)
    requires Series(a, start, fires) && i < j < |fires|
    ensures fires[i].handled <= fires[j].setAt < fires[j].due
  {
    hide NextFire, FirstAfter;
    SetAfter(a, start, fires, j);
    SetAfter(a, start, fires, j - 1);
    if i < j - 1 {
      FiresInOrder(a, start, fires, i, j - 1);
    }
  }

  lemma {:induction false} SetAfterStart(a: Alarm, start: int, fires: seq<Ring>, i: nat)
    requires Series(a, start, fires) && i < |fires|
    ensures start <= fires[i].setAt
  {
    hide NextFire, FirstAfter;
    SetAfter(a, start, fires, i);
    if i > 0 {
      SetAfterStart(a, start, fires, i - 1);
      SetAfter(a, start, fires, i - 1);
    }
  }

  /** Every fire is an occurrence that did not come due while no timer was set. */
  lemma FiredNotMissed(a: Alarm, start: int, fires: seq<Ring>, i: nat)
    requires Series(a, start, fires) && i < |fires|
    ensures a.Occurs(fires[i].due) && !Missed(start, fires, fires[i].due)
  {
    SetAfter(a, start, fires, i);
    hide NextFire, FirstAfter;
    forall j | 0 <= j < |fires|
      ensures !UnsetAt(start, fires, j, fires[i].due)
    {
      if j < i {
        FiresInOrder(a, start, fires, j, i);
        SetAfter(a, start, fires, j);
      } else if i < j - 1 {
        FiresInOrder(a, start, fires, i, j - 1);
        SetAfter(a, start, fires, j - 1);
      }
    }
  }

  /** The first fire due at or after an occurrence is that occurrence, unless it was missed. */
  lemma {:induction false} NotMissedFires(a: Alarm, start: int, fires: seq<Ring>, t: int, n: nat)
    requires Series(a, start, fires) && n < |fires|
    requires start < t <= fires[n].due && a.Occurs(t)
    ensures Fired(fires, t) || Missed(start, fires, t)
  {
    hide NextFire;
    SetAfter(a, start, fires, n);
    if n > 0 && t <= fires[n - 1].due {
      NotMissedFires(a, start, fires, t, n - 1);
    } else if t <= fires[n].setAt {
      assert UnsetAt(start, fires, n, t);
    } else {
      assert fires[n].due == t;
    }
  }

  /** The alarm goes off at every occurrence, in order, apart from exactly those that came due after
      one fire and before the next was set. */
  lemma FiresAllButMissed(a: Alarm, start: int, fires: seq<Ring>, t: int)
    requires Series(a, start, fires) && fires != []
    requires start < t <= fires[|fires| - 1].due
    ensures Fired(fires, t) <==> a.Occurs(t) && !Missed(start, fires, t)
  {
    if a.Occurs(t) {
      NotMissedFires(a, start, fires, t, |fires| - 1);
    }
    if Fired(fires, t) {
      var i :| 0 <= i < |fires| && fires[i].due == t;
      FiredNotMissed(a, start, fires, i);
    }
  }

  /** The time since the last fire, or the start, until the timer that is set now was set. */
  predicate UnsetSince(start: int, fires: seq<Ring>, setAt: int, t: int) {
    (if fires == [] then start else fires[|fires| - 1].due) < t <= setAt
  }

  /** The timer that is set now, or the scan that found nothing, accounts for the time up to t. */
  predicate Awaits(a: Alarm, setAt: int, t: int) {
    match NextFire(a, setAt)
    case Some(next) => t < next
    case None => DateOf(t) <= DateOf(setAt) + 7
  }

  /** Up to the timer that is set now, every occurrence has fired or come due while none was set. */
  lemma FiresAllSoFar(a: Alarm, start: int, fires: seq<Ring>, setAt: int, t: int)
    requires Series(a, start, fires) && FreeAt(start, fires, |fires|) <= setAt && a.Recurring()
    requires start < t && Awaits(a, setAt, t)
    ensures Fired(fires, t) <==> a.Occurs(t) && !Missed(start, fires, t) && !UnsetSince(start, fires, setAt, t)
  {
    var n := |fires| - 1;
    if fires != [] && t <= fires[n].due {
      FiresAllButMissed(a, start, fires, t);
    } else {
      NoneFiredLater(a, start, fires, t);
      if t > setAt {
        NothingAwaited(a, setAt, t);
      }
    }
  }

  lemma NoneFiredLater(a: Alarm, start: int, fires: seq<Ring>, t: int)
    requires Series(a, start, fires) && (fires != [] ==> fires[|fires| - 1].due < t)
    ensures !Fired(fires, t)
  {
    hide NextFire;
    forall i | 0 <= i < |fires|
      ensures fires[i].due < t
    {
      if i < |fires| - 1 {
        SetAfter(a, start, fires, i);
        FiresInOrder(a, start, fires, i, |fires| - 1);
      }
    }
  }

  lemma NothingAwaited(a: Alarm, setAt: int, t: int)
    requires a.Recurring() && Awaits(a, setAt, t) && setAt < t
    ensures !a.Occurs(t)
  {
    hide DateOf;
    match NextFire(a, setAt)
    case Some(next) => NextFireIsFirst(a, setAt, next);
    case None => NoneIffNothingDue(a, setAt);
  }

  /** The instant in microseconds: at the alarm's minute, on its date or on one of its weekdays, counted
      from 2024-01-01, day 738886, which was a Monday. */
  lemma FiresAtItsTime(a: Alarm, now: int)
    requires NextFire(a, now).Some?
    ensures var t := NextFire(a, now).value;
      var date := t / 86_400_000_000;
      && t > now && t % 86_400_000_000 == a.time * 60_000_000
      && if a.weekdays == {} then a.oneShotDate == Some(date)
         else (date - 738886) % 7 in a.weekdays && date !in a.skipDates
  {
    NextFireIsFirst(a, now, NextFire(a, now).value);
  }
}

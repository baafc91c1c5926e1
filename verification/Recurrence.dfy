/** `expandRecurrence`: which occurrences of a recurring event are shown in a window.
    Instants are integer seconds, civil days are day numbers. */
module Recurrence {
  import opened Wrappers
  import opened CivilCalendar

  const DAY: int := 86400
  const HALF_DAY: int := 43200
  const MAX_ITERATIONS: nat := 4000

  datatype CalendarEvent = CalendarEvent(id: string, title: string, location: string,
                                         start: int, end: int, allDay: bool)

  datatype Freq = NoFreq | Daily | Weekly | Monthly | Yearly

  /** `count` 0 is unbounded; `byDay` holds ISO weekdays. */
  datatype RRule = RRule(freq: Freq, interval: int, count: int, until: Option<int>, byDay: seq<int>)

  /** A time zone; `None` is the exception of a local time or instant the zone cannot convert. */
  datatype Zone = Zone(toSys: int -> Option<int>, localDay: int -> Option<int>)

  datatype RecurrenceZone = RecurrenceZone(zone: Zone, startDay: int, timeOfDay: int)

  /** `occInstant` with the start day and the all-day span it is used with. */
  datatype Clock = Clock(instant: int -> int, startDay: int, allDaySpan: int)

  /** The arguments of `expandRecurrence`, with its iteration backstop. */
  datatype Query = Query(base: CalendarEvent, rule: RRule, exdates: seq<int>, clock: Clock,
                         windowStart: int, windowEnd: int, maxIterations: nat)

  // ----- the clock -----

  function LocalDay(zone: Zone, t: int): int {
    match zone.localDay(t)
    case Some(d) => d
    case None => t / DAY
  }

  function WallInstant(zone: Zone, timeOfDay: int): int -> int {
    day => match zone.toSys(day * DAY + timeOfDay)
           case Some(t) => t
           case None => day * DAY + timeOfDay
  }

  function UtcClock(start: int): Clock {
    Clock(day => day * DAY + start % DAY, start / DAY, 0)
  }

  function ClockFor(base: CalendarEvent, zone: Option<RecurrenceZone>, currentZone: Zone): Clock {
    if base.allDay then
      var first := LocalDay(currentZone, base.start);
      var span := LocalDay(currentZone, base.end) - first;
      Clock(WallInstant(currentZone, 0), first, if span < 0 then 0 else span)
    else match zone
      case Some(z) => Clock(WallInstant(z.zone, z.timeOfDay), z.startDay, 0)
      case None => UtcClock(base.start)
  }

  /** Later days have later instants, and an instant is less than a day away from whole days after DTSTART. */
  ghost predicate Steady(c: Clock, start: int) {
    && (forall a, b :: a < b ==> c.instant(a) < c.instant(b))
    && (forall d :: -DAY < c.instant(d) - (start + (d - c.startDay) * DAY) < DAY)
  }

  lemma UtcClockIsSteady(start: int)
    ensures Steady(UtcClock(start), start)
  {
    var c := UtcClock(start);
    forall d
      ensures c.instant(d) == start + (d - c.startDay) * DAY
    {
      assert c.instant(d) == d * DAY + start % DAY;
    }
  }

  // ----- one occurrence -----

  predicate Excluded(exdates: seq<int>, t: int) {
    exists i :: 0 <= i < |exdates| && -HALF_DAY < t - exdates[i] < HALF_DAY
  }

  function EventAt(q: Query, day: int): CalendarEvent {
    var occ := q.clock.instant(day);
    q.base.(start := occ,
            end := if q.base.allDay then q.clock.instant(day + q.clock.allDaySpan)
                   else occ + (q.base.end - q.base.start))
  }

  /** Past UNTIL or past the window. */
  predicate Past(q: Query, day: int) {
    var occ := q.clock.instant(day);
    (q.rule.until.Some? && occ > q.rule.until.value) || occ > q.windowEnd
  }

  predicate Shown(q: Query, day: int) {
    var occ := q.clock.instant(day);
    occ >= q.windowStart && !Excluded(q.exdates, occ)
  }

  predicate Counted(q: Query, ordinal: int) {
    q.rule.count == 0 || ordinal <= q.rule.count
  }

  /** What `step` emits over a list of candidate days, `n` of them counted before. */
  function Emit(q: Query, days: seq<int>, n: int): seq<CalendarEvent> {
    if days == [] || Past(q, days[0]) || !Counted(q, n + 1) then []
    else (if Shown(q, days[0]) then [EventAt(q, days[0])] else []) + Emit(q, days[1..], n + 1)
  }

  /** `out` after the loops have stepped through the days. */
  function Run(q: Query, days: seq<int>, n: int, out: seq<CalendarEvent>): seq<CalendarEvent> {
    if days == [] || Past(q, days[0]) || !Counted(q, n + 1) then out
    else Run(q, days[1..], n + 1, if Shown(q, days[0]) then out + [EventAt(q, days[0])] else out)
  }

  lemma {:induction false} RunEmits(q: Query, days: seq<int>, n: int, out: seq<CalendarEvent>)
    ensures Run(q, days, n, out) == out + Emit(q, days, n)
  {
    if days == [] || Past(q, days[0]) || !Counted(q, n + 1) {
    } else {
      RunEmits(q, days[1..], n + 1, if Shown(q, days[0]) then out + [EventAt(q, days[0])] else out);
    }
  }

  // ----- candidate days, in the order the loops visit them -----

  /** The first DAILY index the loop visits. */
  function SkipAhead(q: Query): int
    requires q.rule.interval >= 1
  {
    if q.base.start < q.windowStart then ((q.windowStart - q.base.start) / DAY) / q.rule.interval else 0
  }

  /** `n` consecutive DAILY candidates, from the `i`th on. */
  function DailyDays(day: int -> int, i: int, n: nat): seq<int>
    decreases n
  {
    if n == 0 then [] else [day(i)] + DailyDays(day, i + 1, n - 1)
  }

  function DailyDay(q: Query): int -> int {
    i => q.clock.startDay + i * q.rule.interval
  }

  function Insert(x: int, sorted: seq<int>): seq<int> {
    if sorted == [] || x <= sorted[0] then [x] + sorted else [sorted[0]] + Insert(x, sorted[1..])
  }

  function Sort(s: seq<int>): seq<int> {
    if s == [] then [] else Insert(s[0], Sort(s[1..]))
  }

  /** BYDAY, or the weekday of DTSTART. */
  function WeekdaysOf(q: Query): seq<int> {
    if q.rule.byDay == [] then [IsoWeekday(q.clock.startDay)] else q.rule.byDay
  }

  /** The days of one week, from the `j`th weekday on, that are not before DTSTART. */
  function DaysOfWeek(q: Query, monday: int, weekdays: seq<int>): seq<int> {
    if weekdays == [] then []
    else
      var day := monday + weekdays[0] - 1;
      (if q.clock.instant(day) >= q.base.start then [day] else [])
      + DaysOfWeek(q, monday, weekdays[1..])
  }

  /** The days of every week from the `k`th on, in loop order. */
  function WeeklyDays(q: Query, monday: int -> int, weekdays: seq<int>, k: int): seq<int>
    decreases q.maxIterations - k
  {
    if k >= q.maxIterations then []
    else DaysOfWeek(q, monday(k), weekdays) + WeeklyDays(q, monday, weekdays, k + 1)
  }

  function DayIfOk(d: Date): Option<int> {
    if Ok(d) then Some(DayNumber(d)) else None
  }

  /** The candidates at every `interval`th step from `i` on; steps without a valid date are skipped. */
  function DatedDays(q: Query, candidate: int -> Option<int>, i: int): seq<int>
    requires q.rule.interval >= 1
    decreases q.maxIterations - i
  {
    if i >= q.maxIterations then []
    else (match candidate(i) case Some(day) => [day] case None => [])
         + DatedDays(q, candidate, i + q.rule.interval)
  }

  /** Monday of the `k`th week the WEEKLY loop visits. */
  function WeekMonday(q: Query): int -> int {
    k => MondayOf(q.clock.startDay) + 7 * (k * q.rule.interval)
  }

  function DayMonthsAfter(first: Date, m: int): Option<int> {
    DayIfOk(DateInMonth(MonthIndex(first) + m, first.day))
  }

  function DayYearsAfter(first: Date, y: int): Option<int> {
    DayIfOk(Date(first.year + y, first.month, first.day))
  }

  function MonthlyDay(q: Query): int -> Option<int> {
    var first := CivilOf(q.clock.startDay);
    m => DayMonthsAfter(first, m)
  }

  function YearlyDay(q: Query): int -> Option<int> {
    var first := CivilOf(q.clock.startDay);
    y => DayYearsAfter(first, y)
  }

  // ----- how the loops peel the candidate lists -----

  lemma WeekFrom(q: Query, monday: int, weekdays: seq<int>, j: nat, later: seq<int>)
    requires j < |weekdays|
    ensures DaysOfWeek(q, monday, weekdays[j..]) + later
         == (if q.clock.instant(monday + weekdays[j] - 1) >= q.base.start
             then [monday + weekdays[j] - 1] + (DaysOfWeek(q, monday, weekdays[j + 1..]) + later)
             else DaysOfWeek(q, monday, weekdays[j + 1..]) + later)
  {
    assert weekdays[j..][1..] == weekdays[j + 1..];
  }

  /** What a well-formed query satisfies: `parseRRule` clamps INTERVAL and only stores weekdays. */
  ghost predicate WellFormed(q: Query) {
    && q.rule.interval >= 1
    && (forall w <- q.rule.byDay :: 1 <= w <= 7)
    && Steady(q.clock, q.base.start)
  }

  /** The events `expandRecurrence` appends. */
  function Expand(q: Query): seq<CalendarEvent>
    requires q.rule.interval >= 1
  {
    match q.rule.freq
    case NoFreq => [q.base]
    case Daily => Emit(q, DailyDays(DailyDay(q), SkipAhead(q), q.maxIterations), SkipAhead(q))
    case Weekly => Emit(q, WeeklyDays(q, WeekMonday(q), Sort(WeekdaysOf(q)), 0), 0)
    case Monthly => Emit(q, DatedDays(q, MonthlyDay(q), 0), 0)
    case Yearly => Emit(q, DatedDays(q, YearlyDay(q), 0), 0)
  }

  // ----- the loops -----

  class Expansion {
    const q: Query
    var occurrenceNo: int
    var out: seq<CalendarEvent>

    constructor (q: Query, out: seq<CalendarEvent>)
      ensures this.q == q && this.out == out && occurrenceNo == 0
    {
      this.q, this.out, occurrenceNo := q, out, 0;
    }

    /** The `step` lambda: false stops the enclosing loop. Whatever days are still to come, what is
        appended now and for them is what `Emit` gives for the whole list. */
    method Step(day: int, ghost rest: seq<int>) returns (go: bool)
      modifies this
      ensures go ==> Run(q, rest, occurrenceNo, out) == Run(q, [day] + rest, old(occurrenceNo), old(out))
      ensures !go ==> out == Run(q, [day] + rest, old(occurrenceNo), old(out))
    {
      assert ([day] + rest)[1..] == rest;
      var occ := q.clock.instant(day);
      if q.rule.until.Some? && occ > q.rule.until.value {
        return false;
      }
      if occ > q.windowEnd {
        return false;
      }
      occurrenceNo := occurrenceNo + 1;
      if q.rule.count != 0 && occurrenceNo > q.rule.count {
        return false;
      }
      if occ >= q.windowStart && !Excluded(q.exdates, occ) {
        out := out + [EventAt(q, day)];
      }
      return true;
    }

    /** The DAILY loop, `i0` occurrences skipped and counted. */
    method ExpandDays(day: int -> int, i0: int)
      modifies this
      ensures out == Run(q, DailyDays(day, i0, q.maxIterations), i0, old(out))
    {
      occurrenceNo := i0;
      var i := i0;
      while i < i0 + q.maxIterations
        invariant i0 <= i <= i0 + q.maxIterations
        invariant Run(q, DailyDays(day, i, i0 + q.maxIterations - i), occurrenceNo, out)
               == Run(q, DailyDays(day, i0, q.maxIterations), i0, old(out))
      {
        var go := Step(day(i), DailyDays(day, i + 1, i0 + q.maxIterations - (i + 1)));
        if !go {
          return;
        }
        i := i + 1;
      }
    }

    /** The inner WEEKLY loop; `later` is what the weeks after this one will visit. */
    method ExpandWeek(monday: int, weekdays: seq<int>, ghost later: seq<int>) returns (stop: bool)
      modifies this
      ensures stop ==> out == Run(q, DaysOfWeek(q, monday, weekdays) + later, old(occurrenceNo), old(out))
      ensures !stop ==>
        Run(q, later, occurrenceNo, out)
        == Run(q, DaysOfWeek(q, monday, weekdays) + later, old(occurrenceNo), old(out))
    {
      var j := 0;
      assert weekdays[0..] == weekdays;
      while j < |weekdays|
        invariant 0 <= j <= |weekdays|
        invariant Run(q, DaysOfWeek(q, monday, weekdays[j..]) + later, occurrenceNo, out)
               == Run(q, DaysOfWeek(q, monday, weekdays) + later, old(occurrenceNo), old(out))
      {
        var day := monday + weekdays[j] - 1;
        WeekFrom(q, monday, weekdays, j, later);
        j := j + 1;
        if q.clock.instant(day) < q.base.start {
          continue;
        }
        var go := Step(day, DaysOfWeek(q, monday, weekdays[j..]) + later);
        if !go {
          return true;
        }
      }
      assert DaysOfWeek(q, monday, weekdays[j..]) + later == later;
      stop := false;
    }

    method ExpandWeeks(monday: int -> int, weekdays: seq<int>)
      modifies this
      ensures out == Run(q, WeeklyDays(q, monday, weekdays, 0), old(occurrenceNo), old(out))
    {
      var stop := false;
      var k := 0;
      while k < q.maxIterations && !stop
        invariant 0 <= k <= q.maxIterations
        invariant (if stop then out else Run(q, WeeklyDays(q, monday, weekdays, k), occurrenceNo, out))
               == Run(q, WeeklyDays(q, monday, weekdays, 0), old(occurrenceNo), old(out))
      {
        stop := ExpandWeek(monday(k), weekdays, WeeklyDays(q, monday, weekdays, k + 1));
        k := k + 1;
      }
    }

    /** The MONTHLY and the YEARLY loop: steps without a valid date are not counted. */
    method ExpandDates(candidate: int -> Option<int>)
      requires q.rule.interval >= 1
      modifies this
      ensures out == Run(q, DatedDays(q, candidate, 0), old(occurrenceNo), old(out))
    {
      var i := 0;
      while i < q.maxIterations
        invariant 0 <= i
        invariant Run(q, DatedDays(q, candidate, i), occurrenceNo, out)
               == Run(q, DatedDays(q, candidate, 0), old(occurrenceNo), old(out))
      {
        ghost var rest := DatedDays(q, candidate, i + q.rule.interval);
        if candidate(i).Some? {
          var go := Step(candidate(i).value, rest);
          if !go {
            return;
          }
        } else {
          assert [] + rest == rest;
        }
        i := i + q.rule.interval;
      }
    }
  }

  method ExpandRecurrence(q: Query, out: seq<CalendarEvent>) returns (all: seq<CalendarEvent>)
    requires q.rule.interval >= 1
    ensures all == out + Expand(q)
  {
    if q.rule.freq == NoFreq {
      return out + [q.base];
    }
    var e := new Expansion(q, out);
    match q.rule.freq {
      case Daily =>
        e.ExpandDays(DailyDay(q), SkipAhead(q));
        RunEmits(q, DailyDays(DailyDay(q), SkipAhead(q), q.maxIterations), SkipAhead(q), out);
      case Weekly =>
        e.ExpandWeeks(WeekMonday(q), Sort(WeekdaysOf(q)));
        RunEmits(q, WeeklyDays(q, WeekMonday(q), Sort(WeekdaysOf(q)), 0), 0, out);
      case Monthly =>
        e.ExpandDates(MonthlyDay(q));
        RunEmits(q, DatedDays(q, MonthlyDay(q), 0), 0, out);
      case Yearly =>
        e.ExpandDates(YearlyDay(q));
        RunEmits(q, DatedDays(q, YearlyDay(q), 0), 0, out);
    }
    all := e.out;
  }
}

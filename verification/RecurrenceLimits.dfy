/** Where the expansion departs from the rule: the iteration backstop, and weekdays that BYDAY names twice. */
module RecurrenceLimits {
  import opened Wrappers
  import opened CivilCalendar
  import opened Recurrence
  import opened RecurrenceProofs

  // ----- weekdays named more than once -----

  /** How many elements of a list are smaller. */
  function Less(days: seq<int>, d: int): nat {
    if days == [] then 0 else (if days[0] < d then 1 else 0) + Less(days[1..], d)
  }

  /** How many of so many equal candidates COUNT lets through, with so many counted before. */
  function Portion(q: Query, before: nat, times: nat): nat {
    if q.rule.count == 0 || before + times <= q.rule.count then times
    else if before >= q.rule.count then 0
    else q.rule.count - before
  }

  lemma {:induction false} LessOfLater(days: seq<int>, d: int)
    requires forall x <- days :: d <= x
    ensures Less(days, d) == 0
  {
    if days != [] {
      assert days[0] in days && forall x <- days[1..] :: x in days;
      LessOfLater(days[1..], d);
    }
  }

  lemma {:induction false} LessNext(days: seq<int>, d: int)
    ensures Less(days, d + 1) == Less(days, d) + Count(days, d)
  {
    if days != [] {
      LessNext(days[1..], d);
    }
  }

  lemma PastIsUpward(q: Query, x: int, d: int)
    requires WellFormed(q) && x <= d && Past(q, x)
    ensures Past(q, d)
  {
    assert x < d ==> q.clock.instant(x) < q.clock.instant(d);
  }

  /** What one candidate adds to how often a day is shown. */
  lemma PortionOfMore(q: Query, before: nat, times: nat)
    requires times > 0 && Counted(q, before + 1)
    ensures Portion(q, before, times) == 1 + Portion(q, before + 1, times - 1)
  {
  }

  /** How often a candidate list with repeats shows a day. */
  function ShownTimes(q: Query, days: seq<int>, n: nat, d: int): nat {
    if !Past(q, d) && Shown(q, d) then Portion(q, n + Less(days, d), Count(days, d)) else 0
  }

  lemma {:induction false} EmitTimes(q: Query, days: seq<int>, n: nat) returns (shown: seq<int>)
    requires WellFormed(q) && NonDecreasing(days)
    ensures Emit(q, days, n) == EventsAt(q, shown) && NonDecreasing(shown)
    ensures forall d :: Count(shown, d) == ShownTimes(q, days, n, d)
    ensures forall d <- shown :: d in days
  {
    if days == [] || Past(q, days[0]) || !Counted(q, n + 1) {
      shown := [];
      forall d
        ensures ShownTimes(q, days, n, d) == 0
      {
        NothingShown(q, days, n, d);
      }
    } else {
      var x := days[0];
      var rest := EmitTimes(q, days[1..], n + 1);
      HeadOrTail(days);
      shown := (if Shown(q, x) then [x] else []) + rest;
      forall y | y in days[1..]
        ensures x <= y
      {
        var k :| 0 <= k < |days[1..]| && days[1..][k] == y;
        assert days[k + 1] == y;
      }
      Joined(if Shown(q, x) then [x] else [], rest);
      forall d
        ensures Count(shown, d) == ShownTimes(q, days, n, d)
      {
        CountJoin(if Shown(q, x) then [x] else [], rest, d);
        OneMoreShown(q, days, n, d);
      }
    }
  }

  lemma NothingShown(q: Query, days: seq<int>, n: nat, d: int)
    requires WellFormed(q) && NonDecreasing(days) && (days == [] || Past(q, days[0]) || !Counted(q, n + 1))
    ensures ShownTimes(q, days, n, d) == 0
  {
    CountMember(days, d);
    if d in days && Past(q, days[0]) {
      PastIsUpward(q, days[0], d);
    }
  }

  lemma OneMoreShown(q: Query, days: seq<int>, n: nat, d: int)
    requires WellFormed(q) && days != [] && Counted(q, n + 1) && !Past(q, days[0])
    requires forall y <- days[1..] :: days[0] <= y
    ensures ShownTimes(q, days, n, d)
         == ShownTimes(q, days[1..], n + 1, d) + if d == days[0] && Shown(q, d) then 1 else 0
  {
    var x, rest := days[0], days[1..];
    CountMember(rest, d);
    if d == x {
      LessOfLater(rest, d);
      PortionOfMore(q, n, Count(days, d));
    } else if d < x {
      assert d !in rest;
    }
  }

  function Sum(f: int -> nat, from: int, d: int): nat
    decreases d - from
  {
    if d <= from then 0 else Sum(f, from, d - 1) + f(d - 1)
  }

  lemma {:induction false} SumMonotone(f: int -> nat, from: int, c: int, d: int)
    requires from <= c < d
    ensures Sum(f, from, d) >= Sum(f, from, c) + f(c)
    decreases d - c
  {
    if c < d - 1 {
      SumMonotone(f, from, c, d - 1);
    }
  }

  lemma {:induction false} SumOfNone(f: int -> nat, from: int, d: int)
    requires forall e :: from <= e < d ==> f(e) == 0
    ensures Sum(f, from, d) == 0
    decreases d - from
  {
    if from < d {
      SumOfNone(f, from, d - 1);
    }
  }

  lemma {:induction false} LessIsSum(days: seq<int>, f: int -> nat, from: int, d: int)
    requires from <= d && (forall x <- days :: from <= x) && forall e :: from <= e < d ==> Count(days, e) == f(e)
    ensures Less(days, d) == Sum(f, from, d)
    decreases d - from
  {
    if d == from {
      LessOfLater(days, d);
    } else {
      LessIsSum(days, f, from, d - 1);
      LessNext(days, d - 1);
    }
  }

  function TimesIn(q: Query): int -> nat
    requires q.rule.interval >= 1
  {
    d => Times(q, d)
  }

  /** How many times the rule names days before this one. */
  function NamedBefore(q: Query, d: int): nat
    requires q.rule.interval >= 1
  {
    Sum(TimesIn(q), q.clock.startDay - 6, d)
  }

  /** How often a WEEKLY rule shows a day: as often as it names its weekday, as far as COUNT allows, which each
      time counts. */
  function WeeklyTimesShown(q: Query, d: int): nat
    requires q.rule.interval >= 1
  {
    if WithinBudget(q, d) && !Past(q, d) && Shown(q, d)
    then Portion(q, NamedBefore(q, d), Times(q, d)) else 0
  }

  /** The events of a WEEKLY rule, whatever BYDAY repeats. */
  lemma WeekdaysAreShownAsNamed(q: Query) returns (shown: seq<int>)
    requires WellFormed(q) && q.rule.freq == Weekly
    ensures Expand(q) == EventsAt(q, shown) && NonDecreasing(shown)
    ensures forall d :: Count(shown, d) == WeeklyTimesShown(q, d)
  {
    var days := WeeklyCandidates(q);
    shown := EmitTimes(q, days, 0);
    forall d
      ensures ShownTimes(q, days, 0, d) == WeeklyTimesShown(q, d)
    {
      TimesAmongCandidates(q, days, d);
    }
  }

  lemma TimesAmongCandidates(q: Query, days: seq<int>, d: int)
    requires WellFormed(q) && q.rule.freq == Weekly && forall x <- days :: q.clock.startDay - 6 <= x
    requires forall e :: Count(days, e) == if WithinBudget(q, e) then Times(q, e) else 0
    ensures ShownTimes(q, days, 0, d) == WeeklyTimesShown(q, d)
  {
    var from := q.clock.startDay - 6;
    CountMember(days, d);
    if d in days {
      forall e | from <= e < d
        ensures Count(days, e) == Times(q, e)
      {
        BudgetIsDownward(q, e, d);
      }
      LessIsSum(days, TimesIn(q), from, d);
    }
  }

  lemma DistinctDaysIncrease(q: Query, days: seq<int>)
    requires WellFormed(q) && q.rule.freq == Weekly && DuplicateFree(q.rule.byDay) && NonDecreasing(days)
    requires forall d :: Count(days, d) == if WithinBudget(q, d) then Times(q, d) else 0
    ensures Increasing(days)
  {
    forall d
      ensures Count(days, d) <= 1
    {
      TimesOnce(q, d);
    }
    RepeatCounts(days);
  }

  lemma RepeatedDayRepeats(q: Query, days: seq<int>, w: int)
    requires WellFormed(q) && q.rule.freq == Weekly && q.maxIterations >= 2 && Increasing(days)
    requires forall d :: Count(days, d) == if WithinBudget(q, d) then Times(q, d) else 0
    ensures Count(WeekdaysOf(q), w) <= 1
  {
    CountMember(WeekdaysOf(q), w);
    if w in WeekdaysOf(q) {
      NamedInSecondWeek(q, w);
      DuplicateFreeCounts(days, WeekMonday(q)(1) + w - 1);
    }
  }

  /** The WEEKLY candidates are visited in strictly increasing order exactly when BYDAY repeats no weekday. */
  lemma WeeklyOrderNeedsDistinctDays(q: Query)
    requires WellFormed(q) && q.rule.freq == Weekly && q.maxIterations >= 2
    ensures Increasing(WeeklyDays(q, WeekMonday(q), Sort(WeekdaysOf(q)), 0)) <==> DuplicateFree(q.rule.byDay)
  {
    var days := WeeklyCandidates(q);
    if DuplicateFree(q.rule.byDay) {
      DistinctDaysIncrease(q, days);
    }
    if Increasing(days) {
      forall w
        ensures Count(WeekdaysOf(q), w) <= 1
      {
        RepeatedDayRepeats(q, days, w);
      }
      RepeatCounts(WeekdaysOf(q));
    }
  }

  lemma NamedInSecondWeek(q: Query, w: int)
    requires WellFormed(q) && q.rule.freq == Weekly && q.maxIterations >= 2 && w in WeekdaysOf(q)
    ensures var d := WeekMonday(q)(1) + w - 1;
            WithinBudget(q, d) && Times(q, d) == Count(WeekdaysOf(q), w)
  {
    var d := WeekMonday(q)(1) + w - 1;
    assert WeekMonday(q)(1) == MondayOf(q.clock.startDay) + 7 * q.rule.interval;
    NamedIsOccurrence(q, d, 1);
  }

  // ----- an event that is shown twice -----

  /** Every week on Thursday, named twice, from 1 January 1970 on; two occurrences, over two weeks. */
  const THURSDAY_TWICE: Query :=
    Query(CalendarEvent([], [], [], 0, 0, false), RRule(Weekly, 1, 2, None, [4, 4]), [], UtcClock(0), 0, 14 * DAY, MAX_ITERATIONS)

  lemma {:induction false} OnlyOne(s: seq<int>, x: int)
    requires forall e :: e != x ==> Count(s, e) == 0
    ensures |s| == Count(s, x) && forall k :: 0 <= k < |s| ==> s[k] == x
  {
    if s != [] {
      assert s[0] == x by {
        CountMember(s, s[0]);
        assert s[0] in s;
      }
      forall e | e != x
        ensures Count(s[1..], e) == 0
      {
        assert Count(s, e) == 0;
      }
      OnlyOne(s[1..], x);
    }
  }

  lemma ThursdayIsNamedTwice(q: Query)
    requires q == THURSDAY_TWICE
    ensures Times(q, 0) == 2 && NamedBefore(q, 0) == 0 && q.clock.startDay == 0
    ensures forall d :: d < 0 ==> Times(q, d) == 0
  {
    assert forall d :: q.clock.instant(d) == d * DAY;
    assert IsoWeekday(0) == 4 && MondayOf(0) == -3;
    assert Count([4, 4], 4) == 2;
    SumOfNone(TimesIn(q), -6, 0);
  }

  lemma OnlyFirstThursday(q: Query, d: int)
    requires q == THURSDAY_TWICE
    ensures WeeklyTimesShown(q, d) == if d == 0 then 2 else 0
  {
    ThursdayIsNamedTwice(q);
    if d > 0 {
      SumMonotone(TimesIn(q), -6, 0, d);
    }
  }

  /** The first Thursday takes both occurrences: it is shown twice, and the second Thursday is not shown. */
  lemma ThursdayIsShownTwice()
    ensures var q := THURSDAY_TWICE; Expand(q) == [EventAt(q, 0), EventAt(q, 0)] && Wanted(q, 7)
  {
    var q := THURSDAY_TWICE;
    UtcClockIsSteady(0);
    var shown := WeekdaysAreShownAsNamed(q);
    forall d
      ensures Count(shown, d) == if d == 0 then 2 else 0
    {
      OnlyFirstThursday(q, d);
    }
    OnlyOne(shown, 0);
    assert shown == [0, 0];
    SecondThursdayIsWanted(q);
  }

  lemma SecondThursdayIsWanted(q: Query)
    requires q == THURSDAY_TWICE
    ensures Wanted(q, 7)
  {
    assert q.clock.instant(7) == 7 * DAY && IsoWeekday(7) == 4 && MondayOf(7) == 4;
    assert UpTo(Occurs(q), -6, 7) == {0, 7} by {
      forall e | -6 <= e <= 7
        ensures IsOccurrence(q, e) <==> e == 0 || e == 7
      {
        assert q.clock.instant(e) == e * DAY;
      }
    }
  }

  // ----- the backstop -----

  /** The first occurrence out of the reach of the loops that the window would show. */
  ghost predicate FirstUnseen(q: Query, b: int)
    requires q.rule.interval >= 1
  {
    && IsOccurrence(q, b) && !WithinBudget(q, b) && Shown(q, b)
    && forall d :: IsOccurrence(q, d) && !WithinBudget(q, d) && Shown(q, d) ==> b <= d
  }

  lemma UpToGrows(kind: int -> bool, lo: int, c: int, d: int)
    requires c <= d
    ensures |UpTo(kind, lo, c)| <= |UpTo(kind, lo, d)|
  {
    var fewer, more := UpTo(kind, lo, c), UpTo(kind, lo, d);
    assert more == fewer + (more - fewer);
  }

  lemma OrdinalMonotone(q: Query, c: int, d: int)
    requires q.rule.interval >= 1 && c <= d
    ensures Ordinal(q, c) <= Ordinal(q, d)
  {
    UpToGrows(Occurs(q), q.clock.startDay - 6, c, d);
  }

  /** The expansion shows all that is wanted exactly when the first occurrence out of its reach that the window shows
      is past a bound or out of COUNT. */
  lemma BackstopIsUnseenExactlyWhen(q: Query, b: int) returns (shown: seq<int>)
    requires Expandable(q) && FirstUnseen(q, b)
    ensures Increasing(shown) && Expand(q) == EventsAt(q, shown)
    ensures (forall d :: d in shown <==> Wanted(q, d)) <==> Past(q, b) || !Counted(q, Ordinal(q, b))
  {
    shown := ExpansionIsExact(q);
    if Past(q, b) || !Counted(q, Ordinal(q, b)) {
      forall d | Wanted(q, d)
        ensures WithinBudget(q, d)
      {
        if !WithinBudget(q, d) {
          OrdinalMonotone(q, b, d);
          if Past(q, b) {
            PastIsUpward(q, b, d);
          }
        }
      }
    }
    if forall d :: d in shown <==> Wanted(q, d) {
      assert b !in shown;
    }
  }

  // ----- the first occurrence out of reach, frequency by frequency -----

  /** The first step in step with INTERVAL, at or past the backstop, that has a date. */
  ghost predicate FirstDated(q: Query, candidate: int -> Option<int>, b: int, j: int)
    requires q.rule.interval >= 1
  {
    && q.maxIterations <= j && j % q.rule.interval == 0 && candidate(j) == Some(b)
    && forall i :: q.maxIterations <= i < j && i % q.rule.interval == 0 ==> candidate(i).None?
  }

  ghost predicate FirstUnreached(q: Query, b: int)
    requires q.rule.interval >= 1
  {
    match q.rule.freq
    case NoFreq => false
    case Daily => b == q.clock.startDay + (SkipAhead(q) + q.maxIterations) * q.rule.interval
    case Weekly => b == WeekMonday(q)(q.maxIterations) + Sort(WeekdaysOf(q))[0] - 1
    case Monthly => exists j :: FirstDated(q, MonthlyDay(q), b, j)
    case Yearly => exists j :: FirstDated(q, YearlyDay(q), b, j)
  }

  /** Out of reach, and before every other occurrence that is. */
  ghost predicate LeastUnreached(q: Query, b: int)
    requires q.rule.interval >= 1
  {
    IsOccurrence(q, b) && !WithinBudget(q, b) && forall d :: IsOccurrence(q, d) && !WithinBudget(q, d) ==> b <= d
  }

  lemma DailyUnreached(q: Query, b: int)
    requires WellFormed(q) && q.rule.freq == Daily && FirstUnreached(q, b)
    ensures LeastUnreached(q, b)
  {
    SkipAheadNonNegative(q);
    var n := SkipAhead(q) + q.maxIterations;
    MultipleBelow(n, n + 1, q.rule.interval);
  }

  lemma WeeklyUnreachedOccurs(q: Query, b: int)
    requires WellFormed(q) && q.rule.freq == Weekly && q.maxIterations >= 1 && FirstUnreached(q, b)
    ensures IsOccurrence(q, b) && !WithinBudget(q, b) && WeekOf(q, b) == q.maxIterations * q.rule.interval
    ensures IsoWeekday(b) == Sort(WeekdaysOf(q))[0]
  {
    var n := q.maxIterations;
    var weekdays := WeekdaysInOrder(q);
    var w := weekdays[0];
    CountMember(weekdays, w);
    CountMember(WeekdaysOf(q), w);
    assert Count(weekdays, w) == Count(WeekdaysOf(q), w);
    MultipleBelow(n, n + 1, q.rule.interval);
    MulStep(0, n, q.rule.interval);
    WeekPlace(q, b, w, n * q.rule.interval);
    assert b > q.clock.startDay;
  }

  lemma WeeklyUnreached(q: Query, b: int)
    requires WellFormed(q) && q.rule.freq == Weekly && q.maxIterations >= 1 && FirstUnreached(q, b)
    ensures LeastUnreached(q, b)
  {
    WeeklyUnreachedOccurs(q, b);
    var weekdays := WeekdaysInOrder(q);
    forall d | IsOccurrence(q, d) && !WithinBudget(q, d)
      ensures b <= d
    {
      var w := IsoWeekday(d);
      CountMember(weekdays, w);
      CountMember(WeekdaysOf(q), w);
      assert Count(weekdays, w) == Count(WeekdaysOf(q), w);
      assert w in weekdays && weekdays[0] <= w;
      WeekPlace(q, d, w, WeekOf(q, d));
    }
  }

  lemma MonthlyUnreached(q: Query, b: int)
    requires WellFormed(q) && q.rule.freq == Monthly && FirstUnreached(q, b)
    ensures LeastUnreached(q, b)
  {
    var j :| FirstDated(q, MonthlyDay(q), b, j);
    MonthlyDayIs(q, j, b);
    forall d | IsOccurrence(q, d) && !WithinBudget(q, d)
      ensures b <= d
    {
      var m := MonthOf(q, d);
      MonthlyDayIs(q, m, d);
      MonthlyDayIs(q, j, d);
      if d < b {
        MonthMonotone(d, b);
      }
    }
  }

  lemma YearlyUnreached(q: Query, b: int)
    requires WellFormed(q) && q.rule.freq == Yearly && FirstUnreached(q, b)
    ensures LeastUnreached(q, b)
  {
    var j :| FirstDated(q, YearlyDay(q), b, j);
    YearlyDayIs(q, j, b);
    forall d | IsOccurrence(q, d) && !WithinBudget(q, d)
      ensures b <= d
    {
      var y := YearOf(q, d);
      YearlyDayIs(q, y, d);
      YearlyDayIs(q, j, d);
      if d < b {
        MonthMonotone(d, b);
      }
    }
  }

  /** The day computed for each frequency is the first occurrence the loops do not reach. */
  lemma FirstUnreachedIsLeast(q: Query, b: int)
    requires WellFormed(q) && q.maxIterations >= 1 && FirstUnreached(q, b)
    ensures LeastUnreached(q, b)
  {
    match q.rule.freq
    case Daily => DailyUnreached(q, b);
    case Weekly => WeeklyUnreached(q, b);
    case Monthly => MonthlyUnreached(q, b);
    case Yearly => YearlyUnreached(q, b);
  }

  lemma {:induction false} LeastDated(q: Query, candidate: int -> Option<int>, i: int, j: int) returns (r: int)
    requires q.rule.interval >= 1 && i <= j && j % q.rule.interval == 0 && candidate(j).Some?
    ensures i <= r <= j && r % q.rule.interval == 0 && candidate(r).Some?
    ensures forall x :: i <= x < r && x % q.rule.interval == 0 ==> candidate(x).None?
    decreases j - i
  {
    if i % q.rule.interval == 0 && candidate(i).Some? {
      r := i;
    } else {
      r := LeastDated(q, candidate, i + 1, j);
    }
  }

  lemma ModLater(y: int, m: int, c: int)
    requires c >= 1
    ensures (y + m * c) % c == y % c
  {
    QuotientUnique(y + m * c, y / c + m, y % c, c);
  }

  /** The calendar repeats after 400 years. */
  lemma LeapLater(y: int, n: int)
    ensures Leap(y + 400 * n) == Leap(y)
  {
    ModLater(y, 100 * n, 4);
    ModLater(y, 4 * n, 100);
    ModLater(y, n, 400);
  }

  lemma SameDateLater(d: Date, n: int, later: int)
    requires Ok(d) && later == d.year + 400 * n
    ensures Ok(Date(later, d.month, d.day))
  {
    LeapLater(d.year, n);
  }

  lemma Regroup(c: int, n: int, k: int)
    ensures c * (k * n) == (c * n) * k
  {
  }

  lemma AtLeast(k: int, n: nat)
    requires k >= 1
    ensures n <= k * n
  {
    if n > 0 {
      MulStep(0, k, n);
    }
  }

  /** A multiple of INTERVAL that is a multiple of the period of the calendar. */
  lemma Periods(c: int, n: nat, k: int) returns (j: int)
    requires c >= 1 && k >= 1
    ensures n <= j && j % k == 0 && j == c * (k * n)
  {
    var x, m := k * n, c * n;
    AtLeast(k, n);
    AtLeast(c, x);
    j := c * x;
    Regroup(c, n, k);
    QuotientUnique(j, m, 0, k);
  }

  lemma MonthlyRecurs(q: Query, n: nat) returns (j: int)
    requires q.rule.interval >= 1
    ensures n <= j && j % q.rule.interval == 0 && MonthlyDay(q)(j).Some?
  {
    var first := CivilOf(q.clock.startDay);
    j := Periods(4800, n, q.rule.interval);
    DatedLater(first, q.rule.interval * n, j);
  }

  lemma DatedLater(first: Date, n: int, m: int)
    requires Ok(first) && m == 4800 * n
    ensures DayMonthsAfter(first, m).Some?
  {
    var later := first.year + 400 * n;
    SameDateLater(first, n, later);
    var date := DateInMonth(MonthIndex(first) + m, first.day);
    SameDate(date, Date(later, first.month, first.day));
  }

  lemma YearlyRecurs(q: Query, n: nat) returns (j: int)
    requires q.rule.interval >= 1
    ensures n <= j && j % q.rule.interval == 0 && YearlyDay(q)(j).Some?
  {
    var first := CivilOf(q.clock.startDay);
    j := Periods(400, n, q.rule.interval);
    SameDateLater(first, q.rule.interval * n, first.year + j);
  }

  /** There always is one: no series ends by itself. */
  lemma SomeUnreached(q: Query) returns (b: int)
    requires WellFormed(q) && q.rule.freq != NoFreq
    ensures FirstUnreached(q, b)
  {
    match q.rule.freq
    case Daily => b := q.clock.startDay + (SkipAhead(q) + q.maxIterations) * q.rule.interval;
    case Weekly => b := WeekMonday(q)(q.maxIterations) + Sort(WeekdaysOf(q))[0] - 1;
    case Monthly =>
      var j := MonthlyRecurs(q, q.maxIterations);
      j := LeastDated(q, MonthlyDay(q), q.maxIterations, j);
      b := MonthlyDay(q)(j).value;
      assert FirstDated(q, MonthlyDay(q), b, j);
    case Yearly =>
      var j := YearlyRecurs(q, q.maxIterations);
      j := LeastDated(q, YearlyDay(q), q.maxIterations, j);
      b := YearlyDay(q)(j).value;
      assert FirstDated(q, YearlyDay(q), b, j);
  }

  /** For a rule without COUNT, UNTIL and EXDATE, and a window not wholly beyond the reach of the loops, they lose
      nothing exactly when the window ends before the first occurrence they do not reach. */
  lemma WindowIsReachedExactlyWhen(q: Query, b: int) returns (shown: seq<int>)
    requires Expandable(q) && q.maxIterations >= 1 && FirstUnreached(q, b) && q.windowStart <= q.clock.instant(b)
    requires q.rule.count == 0 && q.rule.until == None && q.exdates == []
    ensures Increasing(shown) && Expand(q) == EventsAt(q, shown)
    ensures (forall d :: d in shown <==> Wanted(q, d)) <==> q.windowEnd < q.clock.instant(b)
  {
    FirstUnreachedIsLeast(q, b);
    shown := BackstopIsUnseenExactlyWhen(q, b);
  }

  // ----- an old series -----

  lemma BeforeOldWindow(q: Query, d: int)
    requires WellFormed(q) && q.rule.freq == Weekly && WithinBudget(q, d)
    ensures q.clock.instant(d) < q.base.start + (7 * (q.maxIterations * q.rule.interval) + 7) * DAY
  {
    assert d - q.clock.startDay < 7 * (q.maxIterations * q.rule.interval) + 6;
  }

  /** The WEEKLY backstop counts weeks from DTSTART: a series that old shows nothing in a later window. */
  lemma OldWeeklySeriesShowsNothing(q: Query)
    requires Expandable(q) && q.rule.freq == Weekly
    requires q.windowStart >= q.base.start + (7 * (q.maxIterations * q.rule.interval) + 7) * DAY
    ensures Expand(q) == []
  {
    var shown := ExpansionIsExact(q);
    if shown != [] {
      var d := shown[0];
      assert d in shown;
      BeforeOldWindow(q, d);
    }
  }

  /** Every week from 1 January 1970 on, looked at one day 4001 weeks later. */
  const OLD_SERIES: Query :=
    Query(CalendarEvent([], [], [], 0, 0, false), RRule(Weekly, 1, 0, None, []), [], UtcClock(0),
          28007 * DAY, 28007 * DAY, MAX_ITERATIONS)

  /** The occurrence of that day is wanted and not shown. */
  lemma OldSeriesIsLost()
    ensures Wanted(OLD_SERIES, 28007) && Expand(OLD_SERIES) == []
  {
    var q := OLD_SERIES;
    UtcClockIsSteady(0);
    OldWeeklySeriesShowsNothing(q);
    assert q.clock.instant(28007) == 28007 * DAY && q.clock.startDay == 0;
    assert MondayOf(0) == -3 && MondayOf(28007) == 28004;
  }
}

/** What `expandRecurrence` shows, stated without its loops. */
module RecurrenceProofs {
  import opened Wrappers
  import opened CivilCalendar
  import opened Recurrence

  // ----- the occurrence set of a rule: section 3.3.10 of RFC 5545, restricted to what the parser reads -----

  function WeekOf(q: Query, d: int): int {
    (MondayOf(d) - MondayOf(q.clock.startDay)) / 7
  }

  function MonthOf(q: Query, d: int): int {
    MonthIndex(CivilOf(d)) - MonthIndex(CivilOf(q.clock.startDay))
  }

  function YearOf(q: Query, d: int): int {
    CivilOf(d).year - CivilOf(q.clock.startDay).year
  }

  /** A period is in step with INTERVAL. */
  predicate InStep(q: Query, period: int)
    requires q.rule.interval >= 1
  {
    period >= 0 && period % q.rule.interval == 0
  }

  predicate IsOccurrence(q: Query, d: int)
    requires q.rule.interval >= 1
  {
    match q.rule.freq
    case NoFreq => false
    case Daily => InStep(q, d - q.clock.startDay)
    case Weekly =>
      InStep(q, WeekOf(q, d)) && IsoWeekday(d) in WeekdaysOf(q) && q.clock.instant(d) >= q.base.start
    case Monthly =>
      InStep(q, MonthOf(q, d)) && CivilOf(d).day == CivilOf(q.clock.startDay).day
    case Yearly =>
      && InStep(q, YearOf(q, d))
      && CivilOf(d).month == CivilOf(q.clock.startDay).month
      && CivilOf(d).day == CivilOf(q.clock.startDay).day
  }

  /** The days of a kind from `lo` up to `d`. */
  function UpTo(kind: int -> bool, lo: int, d: int): set<int> {
    set e | lo <= e <= d && kind(e)
  }

  function Occurs(q: Query): int -> bool
    requires q.rule.interval >= 1
  {
    d => IsOccurrence(q, d)
  }

  /** The position of an occurrence in the series, from 1. */
  ghost function Ordinal(q: Query, d: int): int
    requires q.rule.interval >= 1
  {
    |UpTo(Occurs(q), q.clock.startDay - 6, d)|
  }

  /** The occurrences a caller asks for. */
  ghost predicate Wanted(q: Query, d: int)
    requires q.rule.interval >= 1
  {
    IsOccurrence(q, d) && !Past(q, d) && Counted(q, Ordinal(q, d)) && Shown(q, d)
  }

  /** The days the loops can reach before the iteration backstop. */
  predicate WithinBudget(q: Query, d: int)
    requires q.rule.interval >= 1
  {
    match q.rule.freq
    case NoFreq => true
    case Daily => d - q.clock.startDay < (SkipAhead(q) + q.maxIterations) * q.rule.interval
    case Weekly => WeekOf(q, d) < q.maxIterations * q.rule.interval
    case Monthly => MonthOf(q, d) < q.maxIterations
    case Yearly => YearOf(q, d) < q.maxIterations
  }

  ghost predicate Increasing(s: seq<int>) {
    forall i, j :: 0 <= i < j < |s| ==> s[i] < s[j]
  }

  function EventsAt(q: Query, days: seq<int>): seq<CalendarEvent> {
    seq(|days|, i requires 0 <= i < |days| => EventAt(q, days[i]))
  }

  // ----- a list of candidates -----

  ghost predicate Selected(q: Query, days: seq<int>, n: int, i: int)
    requires 0 <= i < |days|
  {
    !Past(q, days[i]) && Counted(q, n + i + 1) && Shown(q, days[i])
  }

  ghost predicate SelectedFrom(q: Query, days: seq<int>, n: int, from: int, d: int) {
    exists i :: 0 <= from <= i < |days| && days[i] == d && Selected(q, days, n, i)
  }

  lemma SelectedInTail(q: Query, days: seq<int>, n: nat, d: int)
    requires days != []
    ensures SelectedFrom(q, days[1..], n + 1, 0, d) <==> SelectedFrom(q, days, n, 1, d)
  {
    var tail := days[1..];
    if i :| 0 <= i < |tail| && tail[i] == d && Selected(q, tail, n + 1, i) {
      assert days[i + 1] == d && Selected(q, days, n, i + 1);
    }
    if i :| 1 <= i < |days| && days[i] == d && Selected(q, days, n, i) {
      assert tail[i - 1] == d && Selected(q, tail, n + 1, i - 1);
    }
  }

  /** Stopping at the first candidate past a bound loses nothing. */
  lemma {:induction false} EmitSelects(q: Query, days: seq<int>, n: nat) returns (shown: seq<int>)
    requires WellFormed(q) && Increasing(days)
    ensures Increasing(shown) && Emit(q, days, n) == EventsAt(q, shown)
    ensures forall d :: d in shown <==> SelectedFrom(q, days, n, 0, d)
  {
    if days == [] || Past(q, days[0]) || !Counted(q, n + 1) {
      shown := [];
      forall i | 0 <= i < |days|
        ensures !Selected(q, days, n, i)
      {
        assert q.clock.instant(days[0]) <= q.clock.instant(days[i]);
      }
    } else {
      var rest := EmitSelects(q, days[1..], n + 1);
      shown := (if Shown(q, days[0]) then [days[0]] else []) + rest;
      forall d
        ensures d in rest <==> SelectedFrom(q, days, n, 1, d)
      {
        SelectedInTail(q, days, n, d);
      }
      assert Selected(q, days, n, 0) == Shown(q, days[0]);
      forall k | 0 <= k < |rest|
        ensures days[0] < rest[k]
      {
        assert rest[k] in rest;
      }
    }
  }

  /** In an increasing list of all occurrences up to its end, the position is the ordinal. */
  lemma PositionIsOrdinal(q: Query, days: seq<int>, i: nat)
    requires q.rule.interval >= 1 && Increasing(days) && i < |days|
    requires forall d :: d in days ==> q.clock.startDay - 6 <= d && IsOccurrence(q, d)
    requires forall d :: q.clock.startDay - 6 <= d <= days[i] && IsOccurrence(q, d) ==> d in days
    ensures Ordinal(q, days[i]) == i + 1
  {
    var upTo := UpTo(Occurs(q), q.clock.startDay - 6, days[i]);
    var prefix := days[..i + 1];
    forall e
      ensures e in upTo <==> e in prefix
    {
      if e in upTo {
        var k :| 0 <= k < |days| && days[k] == e;
        assert k <= i;
        assert prefix[k] == e;
      }
      if e in prefix {
        var k :| 0 <= k < |prefix| && prefix[k] == e;
        assert e in days;
      }
    }
    assert upTo == set e | e in prefix;
    IncreasingSize(prefix);
  }

  lemma {:induction false} IncreasingSize(s: seq<int>)
    requires Increasing(s)
    ensures |set e | e in s| == |s|
  {
    if s != [] {
      var init, last := s[..|s| - 1], s[|s| - 1];
      IncreasingSize(init);
      assert s == init + [last];
      assert (set e | e in s) == (set e | e in init) + {last};
      assert last !in init;
    }
  }

  // ----- arithmetic of steps -----

  lemma {:induction false} MulStep(a: int, b: int, k: int)
    requires a < b && k >= 1
    ensures a * k + k <= b * k
    decreases b - a
  {
    assert b * k == (b - 1) * k + k;
    if a < b - 1 {
      MulStep(a, b - 1, k);
    }
  }

  lemma {:induction false} ModStep(x: int, k: int)
    requires k >= 1
    ensures (x - k) % k == x % k
  {
    var r := x - (x / k) * k;
    assert x - k == (x / k - 1) * k + r;
    QuotientUnique(x - k, x / k - 1, r, k);
  }

  lemma QuotientUnique(x: int, n: int, r: int, k: int)
    requires k >= 1 && x == n * k + r && 0 <= r < k
    ensures x / k == n && x % k == r
  {
    var m := x / k;
    if m < n {
      MulStep(m, n, k);
    } else if n < m {
      MulStep(n, m, k);
    }
  }

  lemma MultipleBelow(j: int, n: int, k: int)
    requires 0 <= j < n && k >= 1
    ensures j * k >= 0 && (j * k) % k == 0 && j * k < n * k
  {
    QuotientUnique(j * k, j, 0, k);
    MulStep(j, n, k);
  }

  lemma BelowMultiple(x: int, n: int, k: int)
    requires k >= 1 && x >= 0 && x % k == 0 && x < n * k
    ensures 0 <= x / k < n && x == (x / k) * k
  {
    QuotientNonNegative(x, k);
    if x / k > n {
      MulStep(n, x / k, k);
    }
  }

  // ----- DAILY -----

  lemma {:induction false} DailyDaysAt(day: int -> int, i: int, n: nat)
    ensures |DailyDays(day, i, n)| == n
    ensures forall j :: 0 <= j < n ==> DailyDays(day, i, n)[j] == day(i + j)
    decreases n
  {
    if n > 0 {
      DailyDaysAt(day, i + 1, n - 1);
    }
  }

  lemma SkipAheadNonNegative(q: Query)
    requires q.rule.interval >= 1
    ensures SkipAhead(q) >= 0
  {
    if q.base.start < q.windowStart {
      QuotientNonNegative((q.windowStart - q.base.start) / DAY, q.rule.interval);
    }
  }

  lemma QuotientNonNegative(x: int, k: int)
    requires x >= 0 && k >= 1
    ensures x / k >= 0 && (x / k) * k <= x < (x / k + 1) * k
  {
    assert x == (x / k) * k + x % k;
  }

  /** Every occurrence the skip leaves out lies before the window. */
  lemma SkippedIsBeforeWindow(q: Query, j: int)
    requires WellFormed(q) && 0 <= j < SkipAhead(q)
    ensures q.clock.instant(DailyDay(q)(j)) < q.windowStart
  {
    var k, span := q.rule.interval, (q.windowStart - q.base.start) / DAY;
    QuotientNonNegative(span, k);
    MulStep(j, SkipAhead(q), k);
    assert j * k <= span - 1;
    assert DailyDay(q)(j) == q.clock.startDay + j * k;
  }

  /** A candidate before the window is counted, or ends the series. */
  lemma EmitSkips(q: Query, day: int -> int, i: int, m: nat)
    requires m > 0 && !Shown(q, day(i))
    ensures Emit(q, DailyDays(day, i, m), i)
         == if Past(q, day(i)) || !Counted(q, i + 1) then [] else Emit(q, DailyDays(day, i + 1, m - 1), i + 1)
  {
    var days := DailyDays(day, i, m);
    assert days[0] == day(i) && days[1..] == DailyDays(day, i + 1, m - 1);
  }

  /** Later candidates have later instants. */
  ghost predicate Rising(q: Query, day: int -> int) {
    forall i, j :: i < j ==> q.clock.instant(day(i)) < q.clock.instant(day(j))
  }

  /** A series that ends at one candidate shows nothing from a later one. */
  lemma EndedShowsNothing(q: Query, day: int -> int, i: int, i0: int, n: nat)
    requires Rising(q, day) && i < i0 && (Past(q, day(i)) || !Counted(q, i + 1))
    ensures Emit(q, DailyDays(day, i0, n), i0) == []
  {
    assert q.clock.instant(day(i)) < q.clock.instant(day(i0));
  }

  /** Candidates before the window are only counted. */
  lemma {:induction false} SteppingOverRefines(q: Query, day: int -> int, i: int, i0: int, n: nat)
    requires Rising(q, day) && i <= i0 && forall j :: i <= j < i0 ==> !Shown(q, day(j))
    ensures Emit(q, DailyDays(day, i, i0 - i + n), i) == Emit(q, DailyDays(day, i0, n), i0)
    decreases i0 - i
  {
    if i < i0 {
      var next := i + 1;
      EmitSkips(q, day, i, i0 - i + n);
      if Past(q, day(i)) || !Counted(q, next) {
        EndedShowsNothing(q, day, i, i0, n);
      } else {
        SteppingOverRefines(q, day, next, i0, n);
      }
    }
  }

  lemma DailyRises(q: Query)
    requires WellFormed(q)
    ensures Rising(q, DailyDay(q))
  {
    forall i, j | i < j
      ensures DailyDay(q)(i) < DailyDay(q)(j)
    {
      MulStep(i, j, q.rule.interval);
    }
  }

  /** Starting at the skipped-to index with its number already counted gives what stepping from DTSTART gives. */
  lemma SkipAheadRefinesStepping(q: Query, i: int, n: nat)
    requires WellFormed(q) && 0 <= i <= SkipAhead(q)
    ensures Emit(q, DailyDays(DailyDay(q), i, SkipAhead(q) - i + n), i)
         == Emit(q, DailyDays(DailyDay(q), SkipAhead(q), n), SkipAhead(q))
  {
    DailyRises(q);
    forall j | i <= j < SkipAhead(q)
      ensures !Shown(q, DailyDay(q)(j))
    {
      SkippedIsBeforeWindow(q, j);
    }
    SteppingOverRefines(q, DailyDay(q), i, SkipAhead(q), n);
  }

  lemma DailyIncreasing(q: Query, first: int, n: nat)
    requires WellFormed(q)
    ensures Increasing(DailyDays(DailyDay(q), first, n))
  {
    DailyDaysAt(DailyDay(q), first, n);
    forall i, j | 0 <= i < j < n
      ensures DailyDays(DailyDay(q), first, n)[i] < DailyDays(DailyDay(q), first, n)[j]
    {
      MulStep(first + i, first + j, q.rule.interval);
    }
  }

  lemma DailyMember(q: Query, first: int, n: nat, d: int)
    requires WellFormed(q) && q.rule.freq == Daily && first == 0
    ensures d in DailyDays(DailyDay(q), first, n)
            <==> IsOccurrence(q, d) && d - q.clock.startDay < n * q.rule.interval
  {
    var x, days := d - q.clock.startDay, DailyDays(DailyDay(q), first, n);
    DailyDaysAt(DailyDay(q), first, n);
    if d in days {
      var i :| 0 <= i < n && days[i] == d;
      MultipleBelow(i, n, q.rule.interval);
    }
    if IsOccurrence(q, d) && x < n * q.rule.interval {
      BelowMultiple(x, n, q.rule.interval);
      assert days[x / q.rule.interval] == d;
    }
  }

  lemma DailyEnumeration(q: Query) returns (days: seq<int>)
    requires WellFormed(q) && q.rule.freq == Daily
    ensures Enumerates(q, days)
  {
    SkipAheadNonNegative(q);
    var first, n := 0, SkipAhead(q) + q.maxIterations;
    days := DailyDays(DailyDay(q), first, n);
    SkipAheadRefinesStepping(q, first, q.maxIterations);
    DailyIncreasing(q, first, n);
    forall d
      ensures d in days <==> IsOccurrence(q, d) && WithinBudget(q, d)
    {
      DailyMember(q, first, n, d);
    }
  }

  // ----- MONTHLY and YEARLY -----

  /** Later steps give later days. */
  ghost predicate Advancing(candidate: int -> Option<int>) {
    forall i, j :: i < j && candidate(i).Some? && candidate(j).Some? ==> candidate(i).value < candidate(j).value
  }

  ghost predicate Reached(q: Query, candidate: int -> Option<int>, i: int, d: int, j: int)
    requires q.rule.interval >= 1
  {
    i <= j < q.maxIterations && (j - i) % q.rule.interval == 0 && candidate(j) == Some(d)
  }

  lemma {:induction false} DatedDaysAre(q: Query, candidate: int -> Option<int>, i: int)
    requires q.rule.interval >= 1 && Advancing(candidate)
    ensures Increasing(DatedDays(q, candidate, i))
    ensures forall d :: d in DatedDays(q, candidate, i) <==> exists j :: Reached(q, candidate, i, d, j)
    decreases q.maxIterations - i
  {
    if i < q.maxIterations {
      var next := i + q.rule.interval;
      var rest := DatedDays(q, candidate, next);
      DatedDaysAre(q, candidate, next);
      forall d, j
        ensures Reached(q, candidate, i, d, j) <==> (j == i && candidate(i) == Some(d)) || Reached(q, candidate, next, d, j)
      {
        ModStep(j - i, q.rule.interval);
        if i < j < next { QuotientUnique(j - i, 0, j - i, q.rule.interval); }
        QuotientUnique(0, 0, 0, q.rule.interval);
      }
      forall d
        ensures d in DatedDays(q, candidate, i) <==> candidate(i) == Some(d) || d in rest
      {
      }
      forall d | d in DatedDays(q, candidate, i)
        ensures exists j :: Reached(q, candidate, i, d, j)
      {
        if candidate(i) == Some(d) {
          assert Reached(q, candidate, i, d, i);
        } else {
          var j :| Reached(q, candidate, next, d, j);
          assert Reached(q, candidate, i, d, j);
        }
      }
      forall k | 0 <= k < |rest|
        ensures candidate(i).Some? ==> candidate(i).value < rest[k]
      {
        assert rest[k] in rest;
      }
    }
  }

  lemma DayIfOkIs(date: Date, d: int)
    ensures DayIfOk(date) == Some(d) <==> date == CivilOf(d)
  {
    if Ok(date) {
      CivilRoundTrip(date);
    }
  }

  lemma SameDate(a: Date, b: Date)
    requires 1 <= a.month <= 12 && 1 <= b.month <= 12
    ensures a == b <==> MonthIndex(a) == MonthIndex(b) && a.day == b.day
  {
  }

  lemma DayMonthsAfterIs(first: Date, m: int, d: int)
    ensures DayMonthsAfter(first, m) == Some(d)
            <==> MonthIndex(CivilOf(d)) == MonthIndex(first) + m && CivilOf(d).day == first.day
  {
    var date := DateInMonth(MonthIndex(first) + m, first.day);
    DayIfOkIs(date, d);
    SameDate(date, CivilOf(d));
  }

  lemma MonthlyDayIs(q: Query, j: int, d: int)
    ensures MonthlyDay(q)(j) == Some(d) <==> MonthOf(q, d) == j && IsMonthlyDay(q, d)
  {
    DayMonthsAfterIs(CivilOf(q.clock.startDay), j, d);
  }

  lemma DayYearsAfterNames(first: Date, y: int, d: int, date: Date)
    requires DayIfOk(Date(first.year + y, first.month, first.day)) == Some(d) <==> Date(first.year + y, first.month, first.day) == date
    ensures DayYearsAfter(first, y) == Some(d) <==> date.year == first.year + y && date.month == first.month && date.day == first.day
  {
  }

  lemma DayYearsAfterIs(first: Date, y: int, d: int)
    ensures DayYearsAfter(first, y) == Some(d)
            <==> CivilOf(d).year == first.year + y && CivilOf(d).month == first.month && CivilOf(d).day == first.day
  {
    DayIfOkIs(Date(first.year + y, first.month, first.day), d);
    DayYearsAfterNames(first, y, d, CivilOf(d));
  }

  lemma YearlyDayIs(q: Query, j: int, d: int)
    ensures YearlyDay(q)(j) == Some(d) <==> YearOf(q, d) == j && IsYearlyDay(q, d)
  {
    DayYearsAfterIs(CivilOf(q.clock.startDay), j, d);
  }

  /** The month is monotone in the day. */
  lemma MonthMonotone(a: int, b: int)
    requires a <= b
    ensures MonthIndex(CivilOf(a)) <= MonthIndex(CivilOf(b)) && CivilOf(a).year <= CivilOf(b).year
  {
    if MonthIndex(CivilOf(b)) < MonthIndex(CivilOf(a)) {
      LaterMonthIsLater(CivilOf(b), CivilOf(a));
    }
  }

  /** Candidates that are the days of a kind, one for each period at most. */
  ghost predicate Names(candidate: int -> Option<int>, index: int -> int, matches: int -> bool) {
    && (forall j, d :: candidate(j) == Some(d) <==> index(d) == j && matches(d))
    && (forall a, b :: matches(a) && matches(b) && index(a) < index(b) ==> a < b)
  }

  lemma NamesAdvance(candidate: int -> Option<int>, index: int -> int, matches: int -> bool)
    requires Names(candidate, index, matches)
    ensures Advancing(candidate)
  {
    forall i, j | i < j && candidate(i).Some? && candidate(j).Some?
      ensures candidate(i).value < candidate(j).value
    {
      assert candidate(i) == Some(candidate(i).value) && candidate(j) == Some(candidate(j).value);
    }
  }

  lemma DatedMembers(q: Query, candidate: int -> Option<int>, index: int -> int, matches: int -> bool, first: int)
    requires q.rule.interval >= 1 && first == 0 && Names(candidate, index, matches)
    ensures Increasing(DatedDays(q, candidate, first))
    ensures forall d :: d in DatedDays(q, candidate, first)
                        <==> matches(d) && 0 <= index(d) < q.maxIterations && index(d) % q.rule.interval == 0
  {
    NamesAdvance(candidate, index, matches);
    DatedDaysAre(q, candidate, first);
    forall d
      ensures (exists j :: Reached(q, candidate, first, d, j)) <==> Reached(q, candidate, first, d, index(d))
    {
    }
  }

  lemma NotBeforeFirstMonth(q: Query, d: int)
    requires MonthOf(q, d) >= 0 && CivilOf(d).day == CivilOf(q.clock.startDay).day
    ensures q.clock.startDay <= d
  {
    if MonthOf(q, d) > 0 {
      LaterMonthIsLater(CivilOf(q.clock.startDay), CivilOf(d));
    } else {
      SameDate(CivilOf(d), CivilOf(q.clock.startDay));
      assert DayNumber(CivilOf(d)) == DayNumber(CivilOf(q.clock.startDay));
    }
  }

  predicate IsMonthlyDay(q: Query, d: int) {
    CivilOf(d).day == CivilOf(q.clock.startDay).day
  }

  lemma MonthlyDaysAreNamed(q: Query, index: int -> int, matches: int -> bool)
    requires forall d :: index(d) == MonthOf(q, d) && matches(d) == IsMonthlyDay(q, d)
    ensures Names(MonthlyDay(q), index, matches)
  {
    forall j, d
      ensures MonthlyDay(q)(j) == Some(d) <==> index(d) == j && matches(d)
    {
      MonthlyDayIs(q, j, d);
    }
    forall a, b | matches(a) && matches(b) && index(a) < index(b)
      ensures a < b
    {
      LaterMonthIsLater(CivilOf(a), CivilOf(b));
    }
  }

  lemma MonthlyDaysAre(q: Query, first: int) returns (days: seq<int>)
    requires q.rule.interval >= 1 && first == 0
    ensures days == DatedDays(q, MonthlyDay(q), first) && Increasing(days)
    ensures forall d :: d in days
                        <==> IsMonthlyDay(q, d) && 0 <= MonthOf(q, d) < q.maxIterations && MonthOf(q, d) % q.rule.interval == 0
  {
    var index, matches := d => MonthOf(q, d), d => IsMonthlyDay(q, d);
    MonthlyDaysAreNamed(q, index, matches);
    DatedMembers(q, MonthlyDay(q), index, matches, first);
    days := DatedDays(q, MonthlyDay(q), first);
  }

  lemma MonthlyExpansion(q: Query) returns (days: seq<int>)
    requires q.rule.interval >= 1 && q.rule.freq == Monthly
    ensures days == DatedDays(q, MonthlyDay(q), 0) && Expand(q) == Emit(q, days, 0)
  {
    days := DatedDays(q, MonthlyDay(q), 0);
  }

  lemma MonthlyMember(q: Query, d: int)
    requires q.rule.interval >= 1 && q.rule.freq == Monthly
    ensures IsOccurrence(q, d) && WithinBudget(q, d)
            <==> IsMonthlyDay(q, d) && 0 <= MonthOf(q, d) < q.maxIterations && MonthOf(q, d) % q.rule.interval == 0
    ensures IsOccurrence(q, d) ==> q.clock.startDay <= d
  {
    if IsOccurrence(q, d) {
      NotBeforeFirstMonth(q, d);
    }
  }

  lemma MonthlyEnumeration(q: Query) returns (days: seq<int>)
    requires WellFormed(q) && q.rule.freq == Monthly
    ensures Enumerates(q, days)
  {
    days := MonthlyExpansion(q);
    var same := MonthlyDaysAre(q, 0);
    forall d
      ensures d in days <==> IsOccurrence(q, d) && WithinBudget(q, d)
      ensures d in days ==> q.clock.startDay - 6 <= d
    {
      MonthlyMember(q, d);
    }
  }

  predicate IsYearlyDay(q: Query, d: int) {
    CivilOf(d).month == CivilOf(q.clock.startDay).month && CivilOf(d).day == CivilOf(q.clock.startDay).day
  }

  lemma YearlyDaysAreNamed(q: Query, index: int -> int, matches: int -> bool)
    requires forall d :: index(d) == YearOf(q, d) && matches(d) == IsYearlyDay(q, d)
    ensures Names(YearlyDay(q), index, matches)
  {
    forall j, d
      ensures YearlyDay(q)(j) == Some(d) <==> index(d) == j && matches(d)
    {
      YearlyDayIs(q, j, d);
    }
    forall a, b | matches(a) && matches(b) && index(a) < index(b)
      ensures a < b
    {
      LaterMonthIsLater(CivilOf(a), CivilOf(b));
    }
  }

  lemma YearlyDaysAre(q: Query, first: int) returns (days: seq<int>)
    requires q.rule.interval >= 1 && first == 0
    ensures days == DatedDays(q, YearlyDay(q), first) && Increasing(days)
    ensures forall d :: d in days
                        <==> IsYearlyDay(q, d) && 0 <= YearOf(q, d) < q.maxIterations && YearOf(q, d) % q.rule.interval == 0
  {
    var index, matches := d => YearOf(q, d), d => IsYearlyDay(q, d);
    YearlyDaysAreNamed(q, index, matches);
    DatedMembers(q, YearlyDay(q), index, matches, first);
    days := DatedDays(q, YearlyDay(q), first);
  }

  lemma YearlyExpansion(q: Query) returns (days: seq<int>)
    requires q.rule.interval >= 1 && q.rule.freq == Yearly
    ensures days == DatedDays(q, YearlyDay(q), 0) && Expand(q) == Emit(q, days, 0)
  {
    days := DatedDays(q, YearlyDay(q), 0);
  }

  lemma YearlyMember(q: Query, d: int)
    requires q.rule.interval >= 1 && q.rule.freq == Yearly
    ensures IsOccurrence(q, d) && WithinBudget(q, d)
            <==> IsYearlyDay(q, d) && 0 <= YearOf(q, d) < q.maxIterations && YearOf(q, d) % q.rule.interval == 0
    ensures IsOccurrence(q, d) ==> q.clock.startDay <= d
  {
    if IsOccurrence(q, d) {
      NotBeforeFirstMonth(q, d);
    }
  }

  lemma YearlyEnumeration(q: Query) returns (days: seq<int>)
    requires WellFormed(q) && q.rule.freq == Yearly
    ensures Enumerates(q, days)
  {
    days := YearlyExpansion(q);
    var same := YearlyDaysAre(q, 0);
    forall d
      ensures d in days <==> IsOccurrence(q, d) && WithinBudget(q, d)
      ensures d in days ==> q.clock.startDay - 6 <= d
    {
      YearlyMember(q, d);
    }
  }

  // ----- WEEKLY -----

  ghost predicate DuplicateFree(s: seq<int>) {
    forall i, j :: 0 <= i < j < |s| ==> s[i] != s[j]
  }

  ghost predicate NonDecreasing(s: seq<int>) {
    forall i, j :: 0 <= i < j < |s| ==> s[i] <= s[j]
  }

  /** How often an element is in a list. */
  function Count(s: seq<int>, x: int): nat {
    if s == [] then 0 else (if s[0] == x then 1 else 0) + Count(s[1..], x)
  }

  lemma {:induction false} CountJoin(a: seq<int>, b: seq<int>, x: int)
    ensures Count(a + b, x) == Count(a, x) + Count(b, x)
  {
    if a == [] {
      assert a + b == b;
    } else {
      assert (a + b)[1..] == a[1..] + b;
      CountJoin(a[1..], b, x);
    }
  }

  lemma HeadOrTail(s: seq<int>)
    requires s != []
    ensures forall e :: e in s <==> e == s[0] || e in s[1..]
  {
    assert s == [s[0]] + s[1..];
  }

  lemma {:induction false} CountMember(s: seq<int>, x: int)
    ensures x in s <==> Count(s, x) > 0
  {
    if s != [] {
      HeadOrTail(s);
      CountMember(s[1..], x);
    }
  }

  lemma {:induction false} DuplicateFreeCounts(s: seq<int>, e: int)
    requires DuplicateFree(s)
    ensures Count(s, e) <= 1
  {
    if s != [] {
      DuplicateFreeCounts(s[1..], e);
      CountMember(s[1..], e);
    }
  }

  lemma {:induction false} RepeatCounts(s: seq<int>)
    requires forall e :: Count(s, e) <= 1
    ensures DuplicateFree(s)
  {
    if s != [] {
      var first, rest := s[0], s[1..];
      forall e
        ensures Count(rest, e) <= 1
      {
        assert Count(s, e) <= 1;
      }
      RepeatCounts(rest);
      CountMember(rest, first);
      assert Count(s, first) <= 1;
      forall k | 1 <= k < |s|
        ensures s[k] != first
      {
        assert s[k] == rest[k - 1];
      }
    }
  }

  lemma {:induction false} InsertCounts(x: int, s: seq<int>, e: int)
    ensures Count(Insert(x, s), e) == Count(s, e) + if e == x then 1 else 0
  {
    if s != [] && x > s[0] {
      InsertCounts(x, s[1..], e);
    } else {
      CountJoin([x], s, e);
    }
  }

  lemma {:induction false} SortCounts(s: seq<int>, e: int)
    ensures Count(Sort(s), e) == Count(s, e)
  {
    if s != [] {
      SortCounts(s[1..], e);
      InsertCounts(s[0], Sort(s[1..]), e);
    }
  }

  lemma Joined(a: seq<int>, b: seq<int>)
    requires NonDecreasing(a) && NonDecreasing(b) && forall x, y :: x in a && y in b ==> x <= y
    ensures NonDecreasing(a + b)
  {
    forall i, j | 0 <= i < |a| && 0 <= j < |b|
      ensures a[i] <= b[j]
    {
      assert a[i] in a && b[j] in b;
    }
  }

  lemma {:induction false} InsertMembers(x: int, s: seq<int>)
    ensures forall e :: e in Insert(x, s) <==> e == x || e in s
  {
    if s != [] && x > s[0] {
      InsertMembers(x, s[1..]);
      HeadOrTail(s);
    }
  }

  lemma {:induction false} InsertKeepsOrder(x: int, s: seq<int>)
    requires NonDecreasing(s)
    ensures NonDecreasing(Insert(x, s))
  {
    if s != [] && x > s[0] {
      InsertKeepsOrder(x, s[1..]);
      InsertMembers(x, s[1..]);
      Joined([s[0]], Insert(x, s[1..]));
    }
  }

  lemma {:induction false} SortOrders(s: seq<int>)
    ensures NonDecreasing(Sort(s))
  {
    if s != [] {
      SortOrders(s[1..]);
      InsertKeepsOrder(s[0], Sort(s[1..]));
    }
  }

  lemma {:induction false} DaysOfWeekTimes(q: Query, monday: int, weekdays: seq<int>, d: int)
    ensures Count(DaysOfWeek(q, monday, weekdays), d)
         == if q.clock.instant(d) >= q.base.start then Count(weekdays, d - monday + 1) else 0
  {
    if weekdays != [] {
      var day := monday + weekdays[0] - 1;
      DaysOfWeekTimes(q, monday, weekdays[1..], d);
      CountJoin(if q.clock.instant(day) >= q.base.start then [day] else [], DaysOfWeek(q, monday, weekdays[1..]), d);
    }
  }

  lemma DaysOfWeekMember(q: Query, monday: int, weekdays: seq<int>, d: int)
    ensures d in DaysOfWeek(q, monday, weekdays) <==> d - monday + 1 in weekdays && q.clock.instant(d) >= q.base.start
  {
    DaysOfWeekTimes(q, monday, weekdays, d);
    CountMember(DaysOfWeek(q, monday, weekdays), d);
    CountMember(weekdays, d - monday + 1);
  }

  lemma {:induction false} DaysOfWeekOrdered(q: Query, monday: int, weekdays: seq<int>)
    requires NonDecreasing(weekdays)
    ensures NonDecreasing(DaysOfWeek(q, monday, weekdays))
  {
    if weekdays != [] {
      var day, tail := monday + weekdays[0] - 1, weekdays[1..];
      DaysOfWeekOrdered(q, monday, tail);
      forall d | d in DaysOfWeek(q, monday, tail)
        ensures day <= d
      {
        DaysOfWeekMember(q, monday, tail, d);
      }
      Joined([day], DaysOfWeek(q, monday, tail));
    }
  }

  ghost predicate WeeksApart(monday: int -> int, weekdays: seq<int>) {
    (forall w <- weekdays :: 1 <= w <= 7) && forall i, j :: i < j ==> monday(i) + 7 <= monday(j)
  }

  lemma {:induction false} NotBeforeMonday(q: Query, monday: int -> int, weekdays: seq<int>, k: int, d: int)
    requires WeeksApart(monday, weekdays) && d in WeeklyDays(q, monday, weekdays, k)
    ensures monday(k) <= d
    decreases q.maxIterations - k
  {
    DaysOfWeekMember(q, monday(k), weekdays, d);
    if d !in DaysOfWeek(q, monday(k), weekdays) {
      NotBeforeMonday(q, monday, weekdays, k + 1, d);
    }
  }

  lemma WeekBeforeLater(q: Query, monday: int -> int, weekdays: seq<int>, k: int, next: int, here: seq<int>, later: seq<int>)
    requires next == k + 1 && WeeksApart(monday, weekdays) && NonDecreasing(here) && NonDecreasing(later)
    requires here == DaysOfWeek(q, monday(k), weekdays) && later == WeeklyDays(q, monday, weekdays, next)
    ensures NonDecreasing(here + later)
  {
    forall x, y | x in here && y in later
      ensures x <= y
    {
      DaysOfWeekMember(q, monday(k), weekdays, x);
      NotBeforeMonday(q, monday, weekdays, next, y);
    }
    Joined(here, later);
  }

  lemma {:induction false} WeeklyDaysOrdered(q: Query, monday: int -> int, weekdays: seq<int>, k: int) returns (days: seq<int>)
    requires NonDecreasing(weekdays) && WeeksApart(monday, weekdays)
    ensures days == WeeklyDays(q, monday, weekdays, k) && NonDecreasing(days)
    decreases q.maxIterations - k
  {
    days := [];
    if k < q.maxIterations {
      var next, here := k + 1, DaysOfWeek(q, monday(k), weekdays);
      DaysOfWeekOrdered(q, monday(k), weekdays);
      var later := WeeklyDaysOrdered(q, monday, weekdays, next);
      WeekBeforeLater(q, monday, weekdays, k, next, here, later);
      days := here + later;
    }
  }

  lemma WeekAddsTimes(q: Query, monday: int -> int, weekdays: seq<int>, k: int, next: int, d: int)
    requires k < q.maxIterations && next == k + 1
    ensures Count(WeeklyDays(q, monday, weekdays, k), d)
         == (if q.clock.instant(d) >= q.base.start then Count(weekdays, d - monday(k) + 1) else 0)
            + Count(WeeklyDays(q, monday, weekdays, next), d)
  {
    DaysOfWeekTimes(q, monday(k), weekdays, d);
    CountJoin(DaysOfWeek(q, monday(k), weekdays), WeeklyDays(q, monday, weekdays, next), d);
  }

  /** The `j`th week does not name the day. */
  predicate Unnamed(q: Query, monday: int -> int, weekdays: seq<int>, d: int, j: int) {
    q.clock.instant(d) < q.base.start || Count(weekdays, d - monday(j) + 1) == 0
  }

  lemma {:induction false} NoWeekNames(q: Query, monday: int -> int, weekdays: seq<int>, k: int, d: int)
    requires forall i :: k <= i < q.maxIterations ==> Unnamed(q, monday, weekdays, d, i)
    ensures Count(WeeklyDays(q, monday, weekdays, k), d) == 0
    decreases q.maxIterations - k
  {
    if k < q.maxIterations {
      var next := k + 1;
      WeekAddsTimes(q, monday, weekdays, k, next, d);
      assert Unnamed(q, monday, weekdays, d, k);
      NoWeekNames(q, monday, weekdays, next, d);
    }
  }

  /** A day is a candidate as often as its week names it. */
  lemma {:induction false} OneWeekNames(q: Query, monday: int -> int, weekdays: seq<int>, k: int, d: int, j: int)
    requires k <= j < q.maxIterations && q.clock.instant(d) >= q.base.start
    requires forall i :: k <= i < q.maxIterations && i != j ==> Unnamed(q, monday, weekdays, d, i)
    ensures Count(WeeklyDays(q, monday, weekdays, k), d) == Count(weekdays, d - monday(j) + 1)
    decreases q.maxIterations - k
  {
    var next := k + 1;
    WeekAddsTimes(q, monday, weekdays, k, next, d);
    if j == k {
      NoWeekNames(q, monday, weekdays, next, d);
    } else {
      assert Unnamed(q, monday, weekdays, d, k);
      OneWeekNames(q, monday, weekdays, next, d, j);
    }
  }

  /** The week a day lies in, and its place there, determine the day. */
  lemma WeekPlace(q: Query, d: int, w: int, week: int)
    requires 1 <= w <= 7
    ensures d == MondayOf(q.clock.startDay) + 7 * week + w - 1
            <==> WeekOf(q, d) == week && IsoWeekday(d) == w
  {
    assert (MondayOf(d) + 3) % 7 == 0 && (MondayOf(q.clock.startDay) + 3) % 7 == 0;
  }

  /** How often the rule names a day. */
  function Times(q: Query, d: int): nat
    requires q.rule.interval >= 1
  {
    if IsOccurrence(q, d) then Count(WeekdaysOf(q), IsoWeekday(d)) else 0
  }

  lemma NamedIsOccurrence(q: Query, d: int, j: int)
    requires WellFormed(q) && q.rule.freq == Weekly && 0 <= j < q.maxIterations
    requires d - WeekMonday(q)(j) + 1 in WeekdaysOf(q) && q.clock.instant(d) >= q.base.start
    ensures IsOccurrence(q, d) && WithinBudget(q, d) && WeekOf(q, d) == j * q.rule.interval
    ensures IsoWeekday(d) == d - WeekMonday(q)(j) + 1
  {
    WeekPlace(q, d, d - WeekMonday(q)(j) + 1, j * q.rule.interval);
    MultipleBelow(j, q.maxIterations, q.rule.interval);
  }

  lemma OccurrenceIsNamed(q: Query, d: int) returns (j: int)
    requires WellFormed(q) && q.rule.freq == Weekly && IsOccurrence(q, d) && WithinBudget(q, d)
    ensures 0 <= j < q.maxIterations && d - WeekMonday(q)(j) + 1 == IsoWeekday(d)
    ensures WeekOf(q, d) == j * q.rule.interval
  {
    j := WeekOf(q, d) / q.rule.interval;
    BelowMultiple(WeekOf(q, d), q.maxIterations, q.rule.interval);
    WeekPlace(q, d, IsoWeekday(d), WeekOf(q, d));
  }

  ghost predicate SameCounts(a: seq<int>, b: seq<int>) {
    forall e :: Count(a, e) == Count(b, e)
  }

  lemma UnnamedElsewhere(q: Query, weekdays: seq<int>, d: int, j: int, i: int)
    requires WellFormed(q) && q.rule.freq == Weekly && SameCounts(weekdays, WeekdaysOf(q))
    requires 0 <= i < q.maxIterations
    requires IsOccurrence(q, d) && WithinBudget(q, d) ==> i != j && WeekOf(q, d) == j * q.rule.interval
    ensures Unnamed(q, WeekMonday(q), weekdays, d, i)
  {
    var w := d - WeekMonday(q)(i) + 1;
    assert Count(weekdays, w) == Count(WeekdaysOf(q), w);
    if !Unnamed(q, WeekMonday(q), weekdays, d, i) {
      CountMember(WeekdaysOf(q), w);
      NamedIsOccurrence(q, d, i);
      SameWeek(i, j, q.rule.interval);
    }
  }

  lemma SameWeek(i: int, j: int, k: int)
    requires k >= 1 && i * k == j * k
    ensures i == j
  {
    QuotientUnique(i * k, i, 0, k);
    QuotientUnique(j * k, j, 0, k);
  }

  lemma WeeklyTimes(q: Query, weekdays: seq<int>, first: int, d: int)
    requires WellFormed(q) && q.rule.freq == Weekly && first == 0 && SameCounts(weekdays, WeekdaysOf(q))
    ensures Count(WeeklyDays(q, WeekMonday(q), weekdays, first), d) == if WithinBudget(q, d) then Times(q, d) else 0
  {
    var j := 0;
    if IsOccurrence(q, d) && WithinBudget(q, d) {
      j := OccurrenceIsNamed(q, d);
    }
    forall i | first <= i < q.maxIterations && (IsOccurrence(q, d) && WithinBudget(q, d) ==> i != j)
      ensures Unnamed(q, WeekMonday(q), weekdays, d, i)
    {
      UnnamedElsewhere(q, weekdays, d, j, i);
    }
    if IsOccurrence(q, d) && WithinBudget(q, d) {
      OneWeekNames(q, WeekMonday(q), weekdays, first, d, j);
      assert Count(weekdays, IsoWeekday(d)) == Count(WeekdaysOf(q), IsoWeekday(d));
    } else {
      NoWeekNames(q, WeekMonday(q), weekdays, first, d);
    }
  }

  lemma WeeklyExpansion(q: Query) returns (days: seq<int>)
    requires q.rule.interval >= 1 && q.rule.freq == Weekly
    ensures days == WeeklyDays(q, WeekMonday(q), Sort(WeekdaysOf(q)), 0) && Expand(q) == Emit(q, days, 0)
  {
    days := WeeklyDays(q, WeekMonday(q), Sort(WeekdaysOf(q)), 0);
  }

  lemma NotBeforeFirstWeek(q: Query, d: int)
    requires q.rule.interval >= 1 && q.rule.freq == Weekly && IsOccurrence(q, d)
    ensures q.clock.startDay - 6 <= d
  {
    assert WeekOf(q, d) >= 0;
  }

  lemma WeekdaysInOrder(q: Query) returns (weekdays: seq<int>)
    requires WellFormed(q)
    ensures weekdays == Sort(WeekdaysOf(q)) && NonDecreasing(weekdays)
    ensures SameCounts(weekdays, WeekdaysOf(q)) && WeeksApart(WeekMonday(q), weekdays)
  {
    weekdays := Sort(WeekdaysOf(q));
    SortOrders(WeekdaysOf(q));
    forall e
      ensures Count(weekdays, e) == Count(WeekdaysOf(q), e) && (e in weekdays ==> e in WeekdaysOf(q))
    {
      SortCounts(WeekdaysOf(q), e);
      CountMember(weekdays, e);
      CountMember(WeekdaysOf(q), e);
    }
    forall i, j | i < j
      ensures WeekMonday(q)(i) + 7 <= WeekMonday(q)(j)
    {
      MulStep(i, j, q.rule.interval);
    }
  }

  lemma WeeklyList(q: Query, first: int) returns (days: seq<int>)
    requires WellFormed(q) && q.rule.freq == Weekly && first == 0
    ensures days == WeeklyDays(q, WeekMonday(q), Sort(WeekdaysOf(q)), first) && NonDecreasing(days)
    ensures forall d :: Count(days, d) == if WithinBudget(q, d) then Times(q, d) else 0
  {
    var weekdays := WeekdaysInOrder(q);
    days := WeeklyDaysOrdered(q, WeekMonday(q), weekdays, first);
    forall d
      ensures Count(days, d) == if WithinBudget(q, d) then Times(q, d) else 0
    {
      WeeklyTimes(q, weekdays, first, d);
    }
  }

  /** The WEEKLY candidates: every occurrence within the budget as often as its weekday is named, in order. */
  lemma WeeklyCandidates(q: Query) returns (days: seq<int>)
    requires WellFormed(q) && q.rule.freq == Weekly
    ensures days == WeeklyDays(q, WeekMonday(q), Sort(WeekdaysOf(q)), 0) && Expand(q) == Emit(q, days, 0)
    ensures NonDecreasing(days) && forall d :: Count(days, d) == if WithinBudget(q, d) then Times(q, d) else 0
    ensures forall d <- days :: q.clock.startDay - 6 <= d
  {
    days := WeeklyExpansion(q);
    var same := WeeklyList(q, 0);
    forall d | d in days
      ensures q.clock.startDay - 6 <= d
    {
      CountMember(days, d);
      NotBeforeFirstWeek(q, d);
    }
  }

  lemma TimesOnce(q: Query, d: int)
    requires WellFormed(q) && q.rule.freq == Weekly && DuplicateFree(q.rule.byDay)
    ensures Times(q, d) == if IsOccurrence(q, d) then 1 else 0
  {
    DuplicateFreeCounts(WeekdaysOf(q), IsoWeekday(d));
    CountMember(WeekdaysOf(q), IsoWeekday(d));
  }

  lemma WeeklyEnumeration(q: Query) returns (days: seq<int>)
    requires WellFormed(q) && q.rule.freq == Weekly && DuplicateFree(q.rule.byDay)
    ensures Enumerates(q, days)
  {
    days := WeeklyCandidates(q);
    forall d
      ensures Count(days, d) <= 1
      ensures d in days <==> IsOccurrence(q, d) && WithinBudget(q, d)
    {
      TimesOnce(q, d);
      CountMember(days, d);
    }
    RepeatCounts(days);
  }

  /** `days` are the occurrences within the budget, in order, and `Expand` steps through them from the first. */
  ghost predicate Enumerates(q: Query, days: seq<int>)
    requires q.rule.interval >= 1
  {
    && Increasing(days)
    && (forall d :: d in days <==> IsOccurrence(q, d) && WithinBudget(q, d))
    && (forall d <- days :: q.clock.startDay - 6 <= d)
    && Expand(q) == Emit(q, days, 0)
  }

  // ----- the main results -----

  /** A rule the loops expand without visiting a day twice. */
  ghost predicate Expandable(q: Query) {
    WellFormed(q) && q.rule.freq != NoFreq && (q.rule.freq == Weekly ==> DuplicateFree(q.rule.byDay))
  }

  lemma Enumeration(q: Query) returns (days: seq<int>)
    requires Expandable(q)
    ensures Enumerates(q, days)
  {
    match q.rule.freq
    case Daily => days := DailyEnumeration(q);
    case Weekly => days := WeeklyEnumeration(q);
    case Monthly => days := MonthlyEnumeration(q);
    case Yearly => days := YearlyEnumeration(q);
  }

  lemma WeekMonotone(q: Query, e: int, d: int)
    requires e <= d
    ensures WeekOf(q, e) <= WeekOf(q, d)
  {
  }

  lemma BudgetIsDownward(q: Query, e: int, d: int)
    requires q.rule.interval >= 1 && e <= d && WithinBudget(q, d)
    ensures WithinBudget(q, e)
  {
    match q.rule.freq
    case NoFreq =>
    case Daily =>
    case Weekly => WeekMonotone(q, e, d);
    case Monthly => MonthMonotone(e, d);
    case Yearly => MonthMonotone(e, d);
  }

  /** The events shown are those of the wanted occurrences the loops can reach, in order. */
  lemma ExpansionIsExact(q: Query) returns (shown: seq<int>)
    requires Expandable(q)
    ensures Increasing(shown) && Expand(q) == EventsAt(q, shown)
    ensures forall d :: d in shown <==> Wanted(q, d) && WithinBudget(q, d)
  {
    var days := Enumeration(q);
    shown := EmitSelects(q, days, 0);
    forall i | 0 <= i < |days|
      ensures Selected(q, days, 0, i) <==> Wanted(q, days[i])
    {
      forall e | q.clock.startDay - 6 <= e <= days[i] && IsOccurrence(q, e)
        ensures e in days
      {
        assert days[i] in days;
        BudgetIsDownward(q, e, days[i]);
      }
      PositionIsOrdinal(q, days, i);
      assert days[i] in days;
    }
    forall d
      ensures d in shown <==> Wanted(q, d) && WithinBudget(q, d)
    {
      if Wanted(q, d) && WithinBudget(q, d) {
        var i :| 0 <= i < |days| && days[i] == d;
        assert Selected(q, days, 0, i);
      }
    }
  }

  /** How far a window may reach so that the iteration backstop cannot cut the series. */
  predicate WindowWithinBudget(q: Query) {
    q.maxIterations >= 1 &&
    match q.rule.freq
    case NoFreq => true
    case Daily => q.windowEnd - q.windowStart <= (q.maxIterations - 2) * DAY
    case Weekly => q.windowEnd - q.base.start <= (7 * (q.maxIterations * q.rule.interval) - 7) * DAY
    case Monthly => q.windowEnd - q.base.start <= (28 * q.maxIterations - 1) * DAY
    case Yearly => q.windowEnd - q.base.start <= (365 * q.maxIterations - 2) * DAY
  }

  lemma {:induction false} MonthsApart(a: Date, b: Date)
    requires Ok(a) && Ok(b) && MonthIndex(a) <= MonthIndex(b) && a.day == b.day
    ensures DayNumber(b) - DayNumber(a) >= 28 * (MonthIndex(b) - MonthIndex(a))
    decreases MonthIndex(b) - MonthIndex(a)
  {
    MonthStartsApart(a, b);
    assert DayNumber(b) - DayNumber(a)
        == (YearStart(b.year) + DaysBeforeMonth(b.year, b.month)) - (YearStart(a.year) + DaysBeforeMonth(a.year, a.month));
  }

  /** The first days of two months are at least 28 days apart for every month between them. */
  lemma {:induction false} MonthStartsApart(a: Date, b: Date)
    requires 1 <= a.month <= 12 && 1 <= b.month <= 12 && MonthIndex(a) <= MonthIndex(b)
    ensures (YearStart(b.year) + DaysBeforeMonth(b.year, b.month)) - (YearStart(a.year) + DaysBeforeMonth(a.year, a.month))
            >= 28 * (MonthIndex(b) - MonthIndex(a))
    decreases MonthIndex(b) - MonthIndex(a)
  {
    if MonthIndex(a) < MonthIndex(b) {
      if b.month > 1 {
        MonthStartsApart(a, b.(month := b.month - 1));
      } else {
        NextYearStart(b.year - 1);
        DecemberStart(b.year - 1);
        MonthStartsApart(a, Date(b.year - 1, 12, b.day));
      }
    } else {
      SameDate(a, b.(day := a.day));
    }
  }

  lemma YearsApart(a: Date, b: Date)
    requires Ok(a) && Ok(b) && a.year <= b.year && a.month == b.month && a.day == b.day
    ensures DayNumber(b) - DayNumber(a) >= 365 * (b.year - a.year) - 1
  {
    YearStartsMonotone(a.year, b.year);
    MonthStartDiffers(a.year, b.year, a.month);
  }

  lemma {:induction false} MonthStartDiffers(x: int, y: int, m: int)
    requires 1 <= m <= 12
    ensures DaysBeforeMonth(x, m) - DaysBeforeMonth(y, m) <= if m <= 2 then 0 else 1
    decreases m
  {
    if m > 1 {
      MonthStartDiffers(x, y, m - 1);
    }
  }

  /** An occurrence out of the budget's reach is past the window. */
  lemma BudgetReachesWindow(q: Query, d: int)
    requires WellFormed(q) && WindowWithinBudget(q) && IsOccurrence(q, d) && !WithinBudget(q, d)
    ensures q.clock.instant(d) > q.windowEnd
  {
    var first := CivilOf(q.clock.startDay);
    match q.rule.freq
    case Daily => DailyBudgetReaches(q, d);
    case Weekly =>
      assert d - q.clock.startDay >= 7 * (q.maxIterations * q.rule.interval) - 6;
    case Monthly => MonthsApart(first, CivilOf(d));
    case Yearly => YearsApart(first, CivilOf(d));
  }

  lemma DailyBudgetReaches(q: Query, d: int)
    requires WellFormed(q) && q.rule.freq == Daily && WindowWithinBudget(q) && IsOccurrence(q, d)
    requires !WithinBudget(q, d)
    ensures q.clock.instant(d) > q.windowEnd
  {
    var i0, n, k := SkipAhead(q), q.maxIterations, q.rule.interval;
    assert (i0 + n) * k == (i0 + 1) * k + (n - 1) * k;
    if n > 1 {
      MulStep(0, k, n - 1);
    }
    if q.base.start < q.windowStart {
      QuotientNonNegative((q.windowStart - q.base.start) / DAY, k);
    }
  }

  /** Within that reach the events shown are exactly the wanted occurrences, in strictly increasing order. */
  lemma ExpansionIsComplete(q: Query) returns (shown: seq<int>)
    requires Expandable(q) && WindowWithinBudget(q)
    ensures Increasing(shown) && Expand(q) == EventsAt(q, shown)
    ensures forall d :: d in shown <==> Wanted(q, d)
    ensures forall i, j :: 0 <= i < j < |Expand(q)| ==> Expand(q)[i].start < Expand(q)[j].start
  {
    shown := ExpansionIsExact(q);
    forall d | Wanted(q, d)
      ensures WithinBudget(q, d)
    {
      if !WithinBudget(q, d) {
        BudgetReachesWindow(q, d);
      }
    }
  }

  // ----- the events themselves -----

  /** The event, moved to the day: it starts at the day's instant and is as long as the first one, in time or, for an
      all-day event, in days. */
  ghost predicate IsInstance(q: Query, e: CalendarEvent, d: int) {
    && e.id == q.base.id && e.title == q.base.title && e.location == q.base.location && e.allDay == q.base.allDay
    && e.start == q.clock.instant(d)
    && if q.base.allDay then e.end == q.clock.instant(d + q.clock.allDaySpan)
       else e.end - e.start == q.base.end - q.base.start
  }

  /** What UNTIL, the window and EXDATE let through. */
  ghost predicate Admitted(q: Query, t: int) {
    && q.windowStart <= t <= q.windowEnd && (q.rule.until.Some? ==> t <= q.rule.until.value)
    && forall i :: 0 <= i < |q.exdates| ==> t <= q.exdates[i] - 43_200 || q.exdates[i] + 43_200 <= t
  }

  lemma AdmittedIs(q: Query, d: int)
    ensures Admitted(q, q.clock.instant(d)) <==> !Past(q, d) && Shown(q, d)
  {
  }

  lemma {:induction false} EmittedAreInstances(q: Query, days: seq<int>, n: int, e: CalendarEvent) returns (d: int)
    requires e in Emit(q, days, n)
    ensures d in days && IsInstance(q, e, d) && Admitted(q, e.start)
  {
    d := days[0];
    if Shown(q, d) && e == EventAt(q, d) {
      AdmittedIs(q, d);
    } else {
      d := EmittedAreInstances(q, days[1..], n + 1, e);
    }
  }

  ghost predicate HasInstance(q: Query, events: seq<CalendarEvent>, d: int) {
    exists e :: e in events && IsInstance(q, e, d)
  }

  lemma InstanceOf(q: Query, shown: seq<int>, e: CalendarEvent) returns (c: int)
    requires e in EventsAt(q, shown)
    ensures c in shown && IsInstance(q, e, c) && e.start == q.clock.instant(c)
  {
    var i :| 0 <= i < |shown| && EventsAt(q, shown)[i] == e;
    c := shown[i];
  }

  lemma InstanceFor(q: Query, shown: seq<int>, d: int)
    requires d in shown
    ensures HasInstance(q, EventsAt(q, shown), d)
  {
    var i :| 0 <= i < |shown| && shown[i] == d;
    assert EventsAt(q, shown)[i] in EventsAt(q, shown) && IsInstance(q, EventsAt(q, shown)[i], d);
  }

  /** Every event shown is the event moved to an occurrence that COUNT, UNTIL, the window and EXDATE admit, and every
      such occurrence within the budget has one. */
  lemma EventsAreInstances(q: Query, e: CalendarEvent, d: int)
    requires Expandable(q)
    ensures e in Expand(q) ==>
      Admitted(q, e.start) && exists c :: IsOccurrence(q, c) && Counted(q, Ordinal(q, c)) && IsInstance(q, e, c)
    ensures IsOccurrence(q, d) && WithinBudget(q, d) && Counted(q, Ordinal(q, d)) && Admitted(q, q.clock.instant(d)) ==>
      HasInstance(q, Expand(q), d)
  {
    var shown := ExpansionIsExact(q);
    if e in Expand(q) {
      var c := InstanceOf(q, shown, e);
      AdmittedIs(q, c);
    }
    AdmittedIs(q, d);
    if d in shown {
      InstanceFor(q, shown, d);
    }
  }

  // ----- the three clocks -----

  /** A UTC or floating event recurs at whole days from its start. */
  lemma UtcClockIs(base: CalendarEvent, current: Zone, d: int)
    requires !base.allDay
    ensures var c := ClockFor(base, None, current);
            86_400 * c.startDay <= base.start < 86_400 * (c.startDay + 1) && c.instant(d) == base.start + 86_400 * (d - c.startDay)
  {
  }

  /** A timed event in a zone recurs at the wall time of its start; where the zone has no such time, at that time in UTC. */
  lemma ZoneClockIs(base: CalendarEvent, z: RecurrenceZone, current: Zone, d: int)
    requires !base.allDay
    ensures var c, wall := ClockFor(base, Some(z), current), d * DAY + z.timeOfDay;
            && c.startDay == z.startDay
            && (forall t :: z.zone.toSys(wall) == Some(t) ==> c.instant(d) == t)
            && (z.zone.toSys(wall).None? ==> c.instant(d) == wall)
  {
  }

  /** An all-day event recurs at local midnights, whatever zone came with its start, and spans as many local days as it
      did, none if it ended before it started; where the current zone fails, UTC days stand in. */
  lemma AllDayClockIs(base: CalendarEvent, z: Option<RecurrenceZone>, current: Zone, d: int)
    requires base.allDay
    ensures var c := ClockFor(base, z, current);
            && (forall t :: current.toSys(d * DAY) == Some(t) ==> c.instant(d) == t)
            && (current.toSys(d * DAY).None? ==> c.instant(d) == d * DAY)
            && (forall first :: current.localDay(base.start) == Some(first) ==> c.startDay == first)
            && (current.localDay(base.start).None? ==> c.startDay * DAY <= base.start < (c.startDay + 1) * DAY)
            && (forall last :: current.localDay(base.end) == Some(last) && last >= c.startDay ==> c.startDay + c.allDaySpan == last)
            && (forall last :: current.localDay(base.end) == Some(last) && last < c.startDay ==> c.allDaySpan == 0)
            && (current.localDay(base.end).None? ==> c.startDay + c.allDaySpan
                                                     == if base.end < c.startDay * DAY then c.startDay else base.end / DAY)
  {
  }

  /** The event is an instance of itself, on its first day: where a zone reads the wall time of its start as its start,
      and, all day, the midnights of its first and last day as its start and end. */
  lemma FirstInstanceIsTheEvent(q: Query, z: Option<RecurrenceZone>, current: Zone)
    requires q.clock == ClockFor(q.base, z, current)
    requires !q.base.allDay && z.Some? ==> z.value.zone.toSys(z.value.startDay * DAY + z.value.timeOfDay) == Some(q.base.start)
    requires q.base.allDay ==>
      var first, last := current.localDay(q.base.start), current.localDay(q.base.end);
      first.Some? && last.Some? && first.value <= last.value
      && current.toSys(first.value * DAY) == Some(q.base.start) && current.toSys(last.value * DAY) == Some(q.base.end)
    ensures IsInstance(q, q.base, q.clock.startDay)
  {
    var d := q.clock.startDay;
    if q.base.allDay {
      AllDayClockIs(q.base, z, current, d);
      AllDayClockIs(q.base, z, current, d + q.clock.allDaySpan);
    } else if z.Some? {
      ZoneClockIs(q.base, z.value, current, d);
    } else {
      UtcClockIs(q.base, current, d);
    }
  }

  lemma DailyExpansion(q: Query) returns (days: seq<int>)
    requires q.rule.interval >= 1 && q.rule.freq == Daily
    ensures days == DailyDays(DailyDay(q), SkipAhead(q), q.maxIterations) && Expand(q) == Emit(q, days, SkipAhead(q))
  {
    days := DailyDays(DailyDay(q), SkipAhead(q), q.maxIterations);
  }

  /** DAILY's skip-ahead gives what stepping from DTSTART without a backstop gives, however long. */
  lemma SkipAheadIsUnobservable(q: Query, n: nat)
    requires WellFormed(q) && q.rule.freq == Daily && WindowWithinBudget(q)
    requires n >= SkipAhead(q) + q.maxIterations
    ensures Expand(q) == Emit(q, DailyDays(DailyDay(q), 0, n), 0)
  {
    SkipAheadNonNegative(q);
    var i0, max, day := SkipAhead(q), q.maxIterations, DailyDay(q);
    var m := n - i0;
    var stepped := DailyExpansion(q);
    SkipAheadRefinesStepping(q, 0, m);
    assert i0 + m == n;
    MoreDaysShowNothing(q, i0, max, m - max);
  }

  lemma MoreDaysShowNothing(q: Query, i0: int, max: nat, extra: nat)
    requires WellFormed(q) && q.rule.freq == Daily && WindowWithinBudget(q) && i0 == SkipAhead(q) && max == q.maxIterations
    ensures Emit(q, DailyDays(DailyDay(q), i0, max + extra), i0) == Emit(q, DailyDays(DailyDay(q), i0, max), i0)
  {
    var day := DailyDay(q);
    var kept, later := DailyDays(day, i0, max), DailyDays(day, i0 + max, extra);
    DailyDaysSplit(day, i0, max, extra);
    if extra > 0 {
      DailyReachesPast(q);
      EmitUpToPast(q, kept, later, i0);
    } else {
      assert kept + later == kept;
    }
  }

  lemma {:induction false} DailyDaysSplit(day: int -> int, i: int, n: nat, m: nat)
    ensures DailyDays(day, i, n + m) == DailyDays(day, i, n) + DailyDays(day, i + n, m)
    decreases n
  {
    if n > 0 {
      DailyDaysSplit(day, i + 1, n - 1, m);
    } else {
      assert DailyDays(day, i, n) + DailyDays(day, i + n, m) == DailyDays(day, i + n, m);
    }
  }

  lemma DailyReachesPast(q: Query)
    requires WellFormed(q) && q.rule.freq == Daily && WindowWithinBudget(q)
    ensures Past(q, DailyDay(q)(SkipAhead(q) + q.maxIterations))
  {
    SkipAheadNonNegative(q);
    var i, k := SkipAhead(q) + q.maxIterations, q.rule.interval;
    QuotientUnique(i * k, i, 0, k);
    MulStep(0, i, k);
    DailyBudgetReaches(q, q.clock.startDay + i * k);
  }

  /** Candidates that start past a bound change nothing. */
  lemma {:induction false} EmitUpToPast(q: Query, days: seq<int>, later: seq<int>, n: int)
    requires later != [] && Past(q, later[0])
    ensures Emit(q, days + later, n) == Emit(q, days, n)
  {
    if days == [] {
      assert days + later == later;
    } else {
      assert (days + later)[1..] == days[1..] + later;
      EmitUpToPast(q, days[1..], later, n + 1);
    }
  }
}

/** EXDATE, RECURRENCE-ID and the order of VEVENT blocks. */
module IcalOverrides {
  import opened Wrappers
  import opened Recurrence
  import opened RecurrenceProofs
  import opened IcalText
  import opened IcalEvents

  // ----- queries that differ in their excluded instants only -----

  function WithExdates(q: Query, exdates: seq<int>): Query {
    q.(exdates := exdates)
  }

  lemma {:induction false} DaysOfWeekIgnoreExdates(q: Query, x: seq<int>, monday: int, weekdays: seq<int>)
    ensures DaysOfWeek(WithExdates(q, x), monday, weekdays) == DaysOfWeek(q, monday, weekdays)
  {
    if weekdays != [] {
      DaysOfWeekIgnoreExdates(q, x, monday, weekdays[1..]);
    }
  }

  lemma {:induction false} WeeklyDaysIgnoreExdates(q: Query, x: seq<int>, monday: int -> int, weekdays: seq<int>, k: int)
    ensures WeeklyDays(WithExdates(q, x), monday, weekdays, k) == WeeklyDays(q, monday, weekdays, k)
    decreases q.maxIterations - k
  {
    if k < q.maxIterations {
      DaysOfWeekIgnoreExdates(q, x, monday(k), weekdays);
      WeeklyDaysIgnoreExdates(q, x, monday, weekdays, k + 1);
    }
  }

  lemma {:induction false} DatedDaysIgnoreExdates(q: Query, x: seq<int>, candidate: int -> Option<int>, i: int)
    requires q.rule.interval >= 1
    ensures DatedDays(WithExdates(q, x), candidate, i) == DatedDays(q, candidate, i)
    decreases q.maxIterations - i
  {
    if i < q.maxIterations {
      DatedDaysIgnoreExdates(q, x, candidate, i + q.rule.interval);
    }
  }

  lemma {:induction false} EmitSameExclusions(q: Query, x: seq<int>, days: seq<int>, n: int)
    requires forall t :: Excluded(x, t) == Excluded(q.exdates, t)
    ensures Emit(WithExdates(q, x), days, n) == Emit(q, days, n)
  {
    if days != [] {
      EmitSameExclusions(q, x, days[1..], n + 1);
    }
  }

  /** Exclusions enter only through the instants they exclude. */
  lemma ExpandSameExclusions(q: Query, x: seq<int>)
    requires q.rule.interval >= 1 && forall t :: Excluded(x, t) == Excluded(q.exdates, t)
    ensures Expand(WithExdates(q, x)) == Expand(q)
  {
    var p, first := WithExdates(q, x), 0;
    match q.rule.freq
    case NoFreq =>
    case Daily =>
      assert DailyDay(p) == DailyDay(q);
      EmitSameExclusions(q, x, DailyDays(DailyDay(q), SkipAhead(q), q.maxIterations), SkipAhead(q));
    case Weekly =>
      assert WeekMonday(p) == WeekMonday(q);
      WeeklyDaysIgnoreExdates(q, x, WeekMonday(q), Sort(WeekdaysOf(q)), first);
      EmitSameExclusions(q, x, WeeklyDays(q, WeekMonday(q), Sort(WeekdaysOf(q)), first), first);
    case Monthly =>
      assert MonthlyDay(p) == MonthlyDay(q);
      DatedDaysIgnoreExdates(q, x, MonthlyDay(q), first);
      EmitSameExclusions(q, x, DatedDays(q, MonthlyDay(q), first), first);
    case Yearly =>
      assert YearlyDay(p) == YearlyDay(q);
      DatedDaysIgnoreExdates(q, x, YearlyDay(q), first);
      EmitSameExclusions(q, x, DatedDays(q, YearlyDay(q), first), first);
  }

  // ----- EXDATE -----

  lemma OccurrenceIgnoresExdates(q: Query, x: seq<int>, d: int)
    requires q.rule.interval >= 1
    ensures IsOccurrence(WithExdates(q, x), d) == IsOccurrence(q, d)
  {
    var p := WithExdates(q, x);
    match q.rule.freq
    case NoFreq =>
    case Daily =>
    case Weekly => assert WeekOf(p, d) == WeekOf(q, d) && WeekdaysOf(p) == WeekdaysOf(q);
    case Monthly => assert MonthOf(p, d) == MonthOf(q, d);
    case Yearly => assert YearOf(p, d) == YearOf(q, d);
  }

  lemma OrdinalIgnoresExdates(q: Query, x: seq<int>, d: int)
    requires q.rule.interval >= 1
    ensures Ordinal(WithExdates(q, x), d) == Ordinal(q, d)
  {
    var p, lo := WithExdates(q, x), q.clock.startDay - 6;
    var a, b := UpTo(Occurs(p), lo, d), UpTo(Occurs(q), lo, d);
    forall e
      ensures e in a <==> e in b
    {
      OccurrenceIgnoresExdates(q, x, e);
    }
    assert a == b;
  }

  lemma OccurrencesIgnoreExdates(q: Query, x: seq<int>, d: int)
    requires q.rule.interval >= 1
    ensures Wanted(WithExdates(q, x), d)
            <==> IsOccurrence(q, d) && !Past(q, d) && Counted(q, Ordinal(q, d))
                 && q.clock.instant(d) >= q.windowStart && !Excluded(x, q.clock.instant(d))
  {
    OccurrenceIgnoresExdates(q, x, d);
    OrdinalIgnoresExdates(q, x, d);
  }

  lemma ExcludedByMore(x: seq<int>, y: seq<int>, t: int)
    ensures Excluded(x + y, t) <==> Excluded(x, t) || Excluded(y, t)
  {
    if Excluded(x, t) {
      var i :| 0 <= i < |x| && -HALF_DAY < t - x[i] < HALF_DAY;
      assert (x + y)[i] == x[i];
    }
    if Excluded(y, t) {
      var i :| 0 <= i < |y| && -HALF_DAY < t - y[i] < HALF_DAY;
      assert (x + y)[|x| + i] == y[i];
    }
  }

  lemma WantedUnlessExcluded(q: Query, more: seq<int>, d: int)
    requires q.rule.interval >= 1
    ensures Wanted(WithExdates(q, q.exdates + more), d) <==> Wanted(q, d) && !Excluded(more, q.clock.instant(d))
  {
    OccurrencesIgnoreExdates(q, q.exdates + more, d);
    OccurrencesIgnoreExdates(q, q.exdates, d);
    ExcludedByMore(q.exdates, more, q.clock.instant(d));
    assert WithExdates(q, q.exdates) == q;
  }

  lemma BudgetIgnoresExdates(q: Query, x: seq<int>, d: int)
    requires q.rule.interval >= 1
    ensures WithinBudget(WithExdates(q, x), d) == WithinBudget(q, d)
  {
    var p := WithExdates(q, x);
    match q.rule.freq
    case NoFreq =>
    case Daily =>
    case Weekly => assert WeekOf(p, d) == WeekOf(q, d);
    case Monthly => assert MonthOf(p, d) == MonthOf(q, d);
    case Yearly => assert YearOf(p, d) == YearOf(q, d);
  }

  lemma EventsIgnoreExdates(q: Query, x: seq<int>, days: seq<int>)
    ensures EventsAt(WithExdates(q, x), days) == EventsAt(q, days)
  {
  }

  /** More exclusions take out the occurrences they exclude; the others keep their place and their number. */
  lemma ExclusionsOnlyRemove(q: Query, more: seq<int>) returns (shown: seq<int>, left: seq<int>)
    requires Expandable(q)
    ensures Increasing(shown) && Expand(q) == EventsAt(q, shown)
    ensures Increasing(left) && Expand(WithExdates(q, q.exdates + more)) == EventsAt(q, left)
    ensures forall d :: d in left <==> d in shown && !Excluded(more, q.clock.instant(d))
  {
    var p := WithExdates(q, q.exdates + more);
    shown := ExpansionIsExact(q);
    left := ExpansionIsExact(p);
    EventsIgnoreExdates(q, q.exdates + more, left);
    forall d
      ensures d in left <==> d in shown && !Excluded(more, q.clock.instant(d))
    {
      WantedUnlessExcluded(q, more, d);
      BudgetIgnoresExdates(q, q.exdates + more, d);
    }
  }

  lemma {:induction false} SameMembersSameOrder(a: seq<int>, b: seq<int>)
    requires Increasing(a) && Increasing(b) && forall d :: d in a <==> d in b
    ensures a == b
    decreases |a|
  {
    assert a != [] ==> a[0] in a && a[0] in b;
    assert b != [] ==> b[0] in b && b[0] in a;
    if a != [] && b != [] {
      forall d
        ensures d in a[1..] <==> d in b[1..]
      {
        HeadOrTail(a);
        HeadOrTail(b);
        assert a[0] !in a[1..] && b[0] !in b[1..];
      }
      SameMembersSameOrder(a[1..], b[1..]);
    }
  }

  /** `less` is `all` without one element, or the same. */
  ghost predicate LessAtMostOne<T>(less: seq<T>, all: seq<T>) {
    less == all || exists i :: 0 <= i < |all| && less == all[..i] + all[i + 1..]
  }

  lemma DropMember(a: seq<int>, b: seq<int>, i: nat)
    requires Increasing(a) && Increasing(b) && i < |a|
    requires forall d :: d in b <==> d in a && d != a[i]
    ensures b == a[..i] + a[i + 1..]
  {
    var c := a[..i] + a[i + 1..];
    assert Increasing(c);
    forall d
      ensures d in c <==> d in a && d != a[i]
    {
      if d in a && d != a[i] {
        var k :| 0 <= k < |a| && a[k] == d;
        assert c[if k < i then k else k - 1] == d;
      }
    }
    SameMembersSameOrder(b, c);
  }

  lemma EventsDrop(q: Query, days: seq<int>, i: nat)
    requires i < |days|
    ensures EventsAt(q, days[..i] + days[i + 1..]) == EventsAt(q, days)[..i] + EventsAt(q, days)[i + 1..]
  {
  }

  /** On the UTC path, where occurrences are whole days apart, one EXDATE removes at most one event. */
  lemma OneExdateRemovesAtMostOne(q: Query, ex: int)
    requires Expandable(q) && q.clock == UtcClock(q.base.start)
    ensures LessAtMostOne(Expand(WithExdates(q, q.exdates + [ex])), Expand(q))
  {
    var shown, left := ExclusionsOnlyRemove(q, [ex]);
    if i :| 0 <= i < |shown| && Excluded([ex], q.clock.instant(shown[i])) {
      forall d | Excluded([ex], q.clock.instant(d))
        ensures d == shown[i]
      {
        UtcSpacing(q, ex, d, shown[i]);
      }
      assert shown[i] in shown;
      DropMember(shown, left, i);
      EventsDrop(q, shown, i);
    } else {
      forall d
        ensures d in left <==> d in shown
      {
      }
      SameMembersSameOrder(left, shown);
    }
  }

  lemma UtcSpacing(q: Query, ex: int, a: int, b: int)
    requires q.clock == UtcClock(q.base.start)
    requires Excluded([ex], q.clock.instant(a)) && Excluded([ex], q.clock.instant(b))
    ensures a == b
  {
    assert q.clock.instant(a) == a * DAY + q.base.start % DAY;
    assert q.clock.instant(b) == b * DAY + q.base.start % DAY;
  }

  // ----- RECURRENCE-ID -----

  /** On the UTC path overrides that name occurrences take out exactly those slots: the other occurrences
      stay, and COUNT still counts the replaced ones, since `Wanted` numbers every occurrence. */
  lemma OverridesReplaceTheirSlots(q: Query, ids: seq<int>) returns (shown: seq<int>, left: seq<int>)
    requires Expandable(q) && q.clock == UtcClock(q.base.start)
    requires forall t :: t in ids ==> exists d :: q.clock.instant(d) == t
    ensures Increasing(shown) && Expand(q) == EventsAt(q, shown)
    ensures Increasing(left) && Expand(WithExdates(q, q.exdates + ids)) == EventsAt(q, left)
    ensures forall d :: d in left <==> d in shown && q.clock.instant(d) !in ids
  {
    shown, left := ExclusionsOnlyRemove(q, ids);
    forall d
      ensures Excluded(ids, q.clock.instant(d)) <==> q.clock.instant(d) in ids
    {
      if i :| 0 <= i < |ids| && -HALF_DAY < q.clock.instant(d) - ids[i] < HALF_DAY {
        assert ids[i] in ids;
        var e :| q.clock.instant(e) == ids[i];
        assert Excluded([ids[i]], q.clock.instant(d)) by { assert [ids[i]][0] == ids[i]; }
        assert Excluded([ids[i]], q.clock.instant(e)) by { assert [ids[i]][0] == ids[i]; }
        UtcSpacing(q, ids[i], d, e);
      }
      if q.clock.instant(d) in ids {
        var i :| 0 <= i < |ids| && ids[i] == q.clock.instant(d);
      }
    }
  }

  lemma {:induction false} OverrideMembers(parsed: seq<VEvent>, id: string, n: nat, t: int)
    requires n <= |parsed|
    ensures t in OverridesUpTo(parsed, id, n)
            <==> exists i :: 0 <= i < n && parsed[i].event.id == id && parsed[i].recurrenceId == Some(t)
  {
    if n > 0 {
      OverrideMembers(parsed, id, n - 1, t);
    }
  }

  lemma {:induction false} EmitAvoids(q: Query, days: seq<int>, n: int, t: int)
    requires t in q.exdates
    ensures forall e :: e in Emit(q, days, n) ==> e.start <= t - HALF_DAY || t + HALF_DAY <= e.start
  {
    if days != [] {
      EmitAvoids(q, days[1..], n + 1, t);
    }
  }

  /** A modified instance stands alone: it is passed on as it is, and no event of its master comes within
      half a day of the instant it replaces, wherever the two stand in the text. */
  lemma OverrideStandsAlone(ctx: Context, parsed: seq<VEvent>, master: nat, override: nat)
    requires master < |parsed| && override < |parsed|
    requires parsed[override].rrule == [] && parsed[override].recurrenceId.Some?
    requires parsed[master].rrule != [] && Rule(ctx.dates, parsed[master].rrule).freq != NoFreq
    requires parsed[master].event.id == parsed[override].event.id
    ensures EventsAmong(ctx, parsed)(parsed[override]) == [parsed[override].event]
    ensures var t := parsed[override].recurrenceId.value;
            forall e :: e in EventsAmong(ctx, parsed)(parsed[master])
                        ==> e.start <= t - HALF_DAY || t + HALF_DAY <= e.start
  {
    var m, t := parsed[master], parsed[override].recurrenceId.value;
    var ids := OverridesOf(parsed, m.event.id);
    OverrideMembers(parsed, m.event.id, |parsed|, t);
    var q, first := QueryFor(ctx, m, ids), 0;
    assert t in q.exdates;
    match q.rule.freq
    case Daily => EmitAvoids(q, DailyDays(DailyDay(q), SkipAhead(q), q.maxIterations), SkipAhead(q), t);
    case Weekly => EmitAvoids(q, WeeklyDays(q, WeekMonday(q), Sort(WeekdaysOf(q)), first), first, t);
    case Monthly => EmitAvoids(q, DatedDays(q, MonthlyDay(q), first), first, t);
    case Yearly => EmitAvoids(q, DatedDays(q, YearlyDay(q), first), first, t);
  }

  // ----- the order of the blocks -----

  lemma OverridesIgnoreOrder(a: seq<VEvent>, b: seq<VEvent>, id: string, x: seq<int>, t: int)
    requires multiset(a) == multiset(b)
    ensures Excluded(x + OverridesOf(a, id), t) == Excluded(x + OverridesOf(b, id), t)
  {
    ExcludedByMore(x, OverridesOf(a, id), t);
    ExcludedByMore(x, OverridesOf(b, id), t);
    if Excluded(OverridesOf(a, id), t) {
      ExcludedInOther(a, b, id, t);
    }
    if Excluded(OverridesOf(b, id), t) {
      ExcludedInOther(b, a, id, t);
    }
  }

  lemma ExcludedInOther(a: seq<VEvent>, b: seq<VEvent>, id: string, t: int)
    requires multiset(a) == multiset(b) && Excluded(OverridesOf(a, id), t)
    ensures Excluded(OverridesOf(b, id), t)
  {
    var r := OverridesOf(a, id);
    var k :| 0 <= k < |r| && -HALF_DAY < t - r[k] < HALF_DAY;
    OverrideMembers(a, id, |a|, r[k]);
    assert r[k] in r;
    var i :| 0 <= i < |a| && a[i].event.id == id && a[i].recurrenceId == Some(r[k]);
    assert a[i] in multiset(a) && a[i] in b;
    OverrideMembers(b, id, |b|, r[k]);
    var s := OverridesOf(b, id);
    var l :| 0 <= l < |s| && s[l] == r[k];
  }

  /** A VEVENT gives the same events whatever the order of the others. */
  lemma EventsOfIgnoreOrder(ctx: Context, a: seq<VEvent>, b: seq<VEvent>, p: VEvent)
    requires multiset(a) == multiset(b)
    ensures EventsAmong(ctx, a)(p) == EventsAmong(ctx, b)(p)
  {
    var qa := QueryFor(ctx, p, OverridesOf(a, p.event.id));
    var qb := QueryFor(ctx, p, OverridesOf(b, p.event.id));
    forall t
      ensures Excluded(qa.exdates, t) == Excluded(qb.exdates, t)
    {
      OverridesIgnoreOrder(a, b, p.event.id, p.exdates, t);
    }
    ExpandSameExclusions(qb, qa.exdates);
    assert WithExdates(qb, qa.exdates) == qa;
  }

  ghost function Bag<A, B>(f: A -> seq<B>, list: seq<A>): multiset<B> {
    multiset(ConcatUpTo(f, list, |list|))
  }

  lemma {:induction false} UpToPrefix<A, B>(f: A -> seq<B>, a: seq<A>, b: seq<A>, n: nat)
    requires n <= |a| && n <= |b| && a[..n] == b[..n]
    ensures ConcatUpTo(f, a, n) == ConcatUpTo(f, b, n)
  {
    if n > 0 {
      assert a[n - 1] == a[..n][n - 1] == b[..n][n - 1] == b[n - 1];
      assert a[..n - 1] == a[..n][..n - 1] == b[..n][..n - 1] == b[..n - 1];
      UpToPrefix(f, a, b, n - 1);
    }
  }

  lemma BagSnoc<A, B>(f: A -> seq<B>, list: seq<A>, p: A)
    ensures Bag(f, list + [p]) == Bag(f, list) + multiset(f(p))
  {
    UpToPrefix(f, list + [p], list, |list|);
    assert (list + [p])[|list|] == p;
  }

  lemma {:induction false} BagConcat<A, B>(f: A -> seq<B>, a: seq<A>, b: seq<A>)
    ensures Bag(f, a + b) == Bag(f, a) + Bag(f, b)
    decreases |b|
  {
    if b == [] {
      assert a + b == a;
    } else {
      var init, last := b[..|b| - 1], b[|b| - 1];
      assert b == init + [last] && a + b == (a + init) + [last];
      BagConcat(f, a, init);
      BagSnoc(f, a + init, last);
      BagSnoc(f, init, last);
    }
  }

  lemma SameWithout<A>(a: multiset<A>, b: multiset<A>, c: multiset<A>)
    requires a + c == b + c
    ensures a == b
  {
    assert a == (a + c) - c && b == (b + c) - c;
  }

  lemma DropSame<A>(init: seq<A>, last: A, pre: seq<A>, post: seq<A>)
    requires multiset(init + [last]) == multiset(pre + [last] + post)
    ensures multiset(init) == multiset(pre + post)
  {
    var one := multiset{last};
    assert multiset(pre + [last] + post) == multiset(pre) + one + multiset(post);
    SameWithout(multiset(init), multiset(pre + post), one);
  }

  /** The bag of events depends on the bag of blocks only. */
  lemma {:induction false} BagIgnoresOrder<A, B>(f: A -> seq<B>, a: seq<A>, b: seq<A>)
    requires multiset(a) == multiset(b)
    ensures Bag(f, a) == Bag(f, b)
    decreases |a|
  {
    if a == [] {
      assert |multiset(b)| == 0;
      assert b == [];
    } else {
      var init, last := a[..|a| - 1], a[|a| - 1];
      assert a == init + [last];
      assert last in multiset(b);
      var j :| 0 <= j < |b| && b[j] == last;
      var pre, post := b[..j], b[j + 1..];
      assert b == pre + [last] + post;
      DropSame(init, last, pre, post);
      BagIgnoresOrder(f, init, pre + post);
      BagSnoc(f, init, last);
      BagSnoc(f, pre, last);
      BagConcat(f, pre + [last], post);
      BagConcat(f, pre, post);
    }
  }

  lemma {:induction false} SameFunctionSameEvents(f: VEvent -> seq<CalendarEvent>, g: VEvent -> seq<CalendarEvent>,
                                                  list: seq<VEvent>, n: nat)
    requires n <= |list| && forall p :: f(p) == g(p)
    ensures ConcatUpTo(f, list, n) == ConcatUpTo(g, list, n)
  {
    if n > 0 {
      SameFunctionSameEvents(f, g, list, n - 1);
    }
  }

  /** Reordering the parsed VEVENTs reorders the events, no more. */
  lemma EventsIgnoreOrder(ctx: Context, a: seq<VEvent>, b: seq<VEvent>)
    requires multiset(a) == multiset(b)
    ensures multiset(ConcatUpTo(EventsAmong(ctx, a), a, |a|)) == multiset(ConcatUpTo(EventsAmong(ctx, b), b, |b|))
  {
    forall p
      ensures EventsAmong(ctx, a)(p) == EventsAmong(ctx, b)(p)
    {
      EventsOfIgnoreOrder(ctx, a, b, p);
    }
    SameFunctionSameEvents(EventsAmong(ctx, a), EventsAmong(ctx, b), a, |a|);
    BagIgnoresOrder(EventsAmong(ctx, b), a, b);
  }

  // ----- the order of the blocks in a text -----

  const BEGIN := "BEGIN:VEVENT"
  const END := "END:VEVENT"

  predicate NoDelimiter(lines: seq<string>) {
    BEGIN !in lines && END !in lines
  }

  function Block(body: seq<string>): seq<string> {
    [BEGIN] + body + [END]
  }

  /** A loop whose steps commute with a change of state commutes with it. */
  lemma {:induction false} FoldCommutes<S(!new)>(step: (S, string) -> S, change: S -> S, state: S, lines: seq<string>)
    requires forall s, l :: l in lines ==> step(change(s), l) == change(step(s, l))
    ensures Fold(step, change(state), lines) == change(Fold(step, state, lines))
    decreases lines
  {
    if lines != [] {
      FoldCommutes(step, change, step(state, lines[0]), lines[1..]);
    }
  }

  lemma {:induction false} FoldKeeps<S(!new), V>(step: (S, string) -> S, view: S -> V, state: S, lines: seq<string>)
    requires forall s, l :: l in lines ==> view(step(s, l)) == view(s)
    ensures view(Fold(step, state, lines)) == view(state)
    decreases lines
  {
    if lines != [] {
      FoldKeeps(step, view, step(state, lines[0]), lines[1..]);
    }
  }

  /** A line within an event leaves the finished events alone and does not look at them. */
  lemma LineIsLocal(dates: DateReader, r: Reader, parsed: seq<VEvent>, line: string)
    requires line != BEGIN && line != END
    ensures ReadLine(dates, r.(parsed := parsed), line) == ReadLine(dates, r, line).(parsed := parsed)
    ensures ReadLine(dates, r, line).parsed == r.parsed && ReadLine(dates, r, line).inEvent == r.inEvent
  {
  }

  lemma BodyIsLocal(dates: DateReader, r: Reader, parsed: seq<VEvent>, body: seq<string>)
    requires NoDelimiter(body)
    ensures ReadLines(dates, r, body).parsed == r.parsed && ReadLines(dates, r, body).inEvent == r.inEvent
    ensures ReadLines(dates, r.(parsed := parsed), body) == ReadLines(dates, r, body).(parsed := parsed)
  {
    var change := (s: Reader) => s.(parsed := parsed);
    var view := (s: Reader) => (s.parsed, s.inEvent);
    forall s, l | l in body
      ensures LineReader(dates)(change(s), l) == change(LineReader(dates)(s, l))
      ensures view(LineReader(dates)(s, l)) == view(s)
    {
      LineIsLocal(dates, s, parsed, l);
    }
    FoldCommutes(LineReader(dates), change, r, body);
    FoldKeeps(LineReader(dates), view, r, body);
  }

  /** What one block adds. */
  function BlockEvents(dates: DateReader): seq<string> -> seq<VEvent> {
    body => ReadLines(dates, NEW_READER, Block(body)).parsed
  }

  lemma BlockIsLocal(dates: DateReader, r: Reader, body: seq<string>)
    requires NoDelimiter(body)
    ensures ReadLines(dates, r, Block(body)).parsed == r.parsed + BlockEvents(dates)(body)
    ensures !ReadLines(dates, r, Block(body)).inEvent
  {
    var start := ReadLine(dates, NEW_READER, BEGIN);
    BlockUnfolds(LineReader(dates), r, BEGIN, body, END);
    BlockUnfolds(LineReader(dates), NEW_READER, BEGIN, body, END);
    BodyIsLocal(dates, start, r.parsed, body);
    assert ReadLine(dates, r, BEGIN) == start.(parsed := r.parsed);
  }

  lemma BlockUnfolds<S>(step: (S, string) -> S, state: S, first: string, body: seq<string>, last: string)
    ensures Fold(step, state, [first] + body + [last]) == step(Fold(step, step(state, first), body), last)
  {
    FoldSplits(step, state, [first] + body, [last]);
    FoldSplits(step, state, [first], body);
  }

  lemma Associates<V>(a: seq<V>, b: seq<V>, c: seq<V>)
    ensures (a + b) + c == a + (b + c)
  {
  }

  lemma EmptyLeft<V>(a: seq<V>, b: seq<V>)
    requires a == []
    ensures a + b == b
  {
  }

  /** When each block adds to what is seen of the state, all blocks add what they add one by one. */
  lemma {:induction false} BlocksAdd<S(!new), B, V>(step: (S, string) -> S, view: S -> seq<V>, state: S,
                                                    block: B -> seq<string>, of: B -> seq<V>, bodies: seq<B>, n: nat)
    requires n <= |bodies|
    requires forall b, s :: b in bodies ==> view(Fold(step, s, block(b))) == view(s) + of(b)
    ensures view(Fold(step, state, ConcatUpTo(block, bodies, n))) == view(state) + ConcatUpTo(of, bodies, n)
  {
    if n > 0 {
      var before, last := ConcatUpTo(block, bodies, n - 1), bodies[n - 1];
      BlocksAdd(step, view, state, block, of, bodies, n - 1);
      FoldSplits(step, state, before, block(last));
      var s := Fold(step, state, before);
      assert view(Fold(step, s, block(last))) == view(s) + of(last);
      Associates(view(state), ConcatUpTo(of, bodies, n - 1), of(last));
    } else {
      assert view(state) + [] == view(state);
    }
  }

  /** Lines that belong to no event, and then a VEVENT block. */
  datatype Section = Section(gap: seq<string>, body: seq<string>)

  predicate PlainSection(s: Section) {
    NoDelimiter(s.gap) && NoDelimiter(s.body)
  }

  function SectionLines(s: Section): seq<string> {
    s.gap + Block(s.body)
  }

  function SectionEvents(dates: DateReader): Section -> seq<VEvent> {
    (s: Section) => BlockEvents(dates)(s.body)
  }

  function Bodies(sections: seq<Section>): (bodies: seq<seq<string>>)
    ensures |bodies| == |sections| && forall i :: 0 <= i < |bodies| ==> bodies[i] == sections[i].body
  {
    if sections == [] then [] else Bodies(sections[..|sections| - 1]) + [sections[|sections| - 1].body]
  }

  /** A calendar: VEVENT blocks with other lines before, between and after them. */
  function CalendarLines(sections: seq<Section>, footer: seq<string>): seq<string> {
    ConcatUpTo(SectionLines, sections, |sections|) + footer
  }

  lemma SectionIsRead(dates: DateReader, r: Reader, s: Section)
    requires PlainSection(s)
    ensures ReadLines(dates, r, SectionLines(s)).parsed == r.parsed + SectionEvents(dates)(s)
  {
    FoldSplits(LineReader(dates), r, s.gap, Block(s.body));
    BodyIsLocal(dates, r, [], s.gap);
    BlockIsLocal(dates, ReadLines(dates, r, s.gap), s.body);
  }

  lemma AllSectionsAreRead(dates: DateReader, r: Reader, sections: seq<Section>)
    requires forall s <- sections :: PlainSection(s)
    ensures ReadLines(dates, r, ConcatUpTo(SectionLines, sections, |sections|)).parsed
         == r.parsed + ConcatUpTo(SectionEvents(dates), sections, |sections|)
  {
    forall s, q | s in sections
      ensures ReadLines(dates, q, SectionLines(s)).parsed == q.parsed + SectionEvents(dates)(s)
    {
      SectionIsRead(dates, q, s);
    }
    BlocksAdd(LineReader(dates), (q: Reader) => q.parsed, r, SectionLines, SectionEvents(dates), sections, |sections|);
  }

  lemma {:induction false} SameConcat<A, B, C>(f: A -> seq<C>, g: B -> seq<C>, a: seq<A>, b: seq<B>, n: nat)
    requires n <= |a| == |b| && forall i :: 0 <= i < |a| ==> f(a[i]) == g(b[i])
    ensures ConcatUpTo(f, a, n) == ConcatUpTo(g, b, n)
  {
    if n > 0 {
      SameConcat(f, g, a, b, n - 1);
    }
  }

  lemma EventsOfBodies(dates: DateReader, sections: seq<Section>, n: nat)
    requires n <= |sections|
    ensures ConcatUpTo(SectionEvents(dates), sections, n) == ConcatUpTo(BlockEvents(dates), Bodies(sections), n)
  {
    SameConcat(SectionEvents(dates), BlockEvents(dates), sections, Bodies(sections), n);
  }

  /** The blocks give their events in order, wherever other lines stand. */
  lemma CalendarIsRead(dates: DateReader, r: Reader, sections: seq<Section>, footer: seq<string>)
    requires NoDelimiter(footer) && (forall s <- sections :: PlainSection(s)) && r.parsed == []
    ensures ReadLines(dates, r, CalendarLines(sections, footer)).parsed
         == ConcatUpTo(BlockEvents(dates), Bodies(sections), |sections|)
  {
    var blocks := ConcatUpTo(SectionLines, sections, |sections|);
    AllSectionsAreRead(dates, r, sections);
    FoldSplits(LineReader(dates), r, blocks, footer);
    BodyIsLocal(dates, ReadLines(dates, r, blocks), [], footer);
    EventsOfBodies(dates, sections, |sections|);
    EmptyLeft(r.parsed, ConcatUpTo(SectionEvents(dates), sections, |sections|));
  }

  /** Two texts whose VEVENT blocks are the same in another order, whatever lines stand around them, give the same
      events in another order. */
  lemma BlockOrderIsIrrelevant(ctx: Context, icsA: string, icsB: string, a: seq<Section>, footerA: seq<string>,
                               b: seq<Section>, footerB: seq<string>)
    requires NoDelimiter(footerA) && NoDelimiter(footerB) && (forall s <- a :: PlainSection(s)) && (forall s <- b :: PlainSection(s))
    requires Unfolded(icsA) == CalendarLines(a, footerA) && Unfolded(icsB) == CalendarLines(b, footerB)
    requires multiset(Bodies(a)) == multiset(Bodies(b))
    ensures multiset(EventsIn(ctx, icsA)) == multiset(EventsIn(ctx, icsB))
  {
    CalendarIsRead(ctx.dates, NEW_READER, a, footerA);
    CalendarIsRead(ctx.dates, NEW_READER, b, footerB);
    BagIgnoresOrder(BlockEvents(ctx.dates), Bodies(a), Bodies(b));
    EventsIgnoreOrder(ctx, Parsed(ctx.dates, icsA), Parsed(ctx.dates, icsB));
  }
}

/** What a calendar text means: which events it has, told from its VEVENTs. */
module IcalMeaning {
  import opened Wrappers
  import opened Recurrence
  import opened RecurrenceProofs
  import opened IcalEvents
  import opened IcalOverrides

  // ----- single events -----

  predicate Recurring(ctx: Context, p: VEvent) {
    p.rrule != [] && Rule(ctx.dates, p.rrule).freq != NoFreq
  }

  lemma {:induction false} InConcat<A, B>(of: A -> seq<B>, list: seq<A>, n: nat, e: B)
    requires n <= |list|
    ensures e in ConcatUpTo(of, list, n) <==> exists i :: 0 <= i < n && e in of(list[i])
  {
    if n > 0 {
      InConcat(of, list, n - 1, e);
    }
  }

  /** Whether it replaces an instance of a series or not, an event that does not recur is shown as it is. */
  lemma SingleEvent(ctx: Context, parsed: seq<VEvent>, p: VEvent)
    requires !Recurring(ctx, p)
    ensures EventsAmong(ctx, parsed)(p) == [p.event]
  {
  }

  lemma {:induction false} OneEach<A, B>(of: A -> seq<B>, one: A -> B, list: seq<A>, n: nat)
    requires n <= |list| && forall a <- list :: of(a) == [one(a)]
    ensures |ConcatUpTo(of, list, n)| == n && forall i :: 0 <= i < n ==> ConcatUpTo(of, list, n)[i] == one(list[i])
  {
    if n > 0 {
      OneEach(of, one, list, n - 1);
      assert list[n - 1] in list;
    }
  }

  /** A text without recurring events has the event of each VEVENT, in their order. */
  lemma SingleEventsInOrder(ctx: Context, ics: string)
    requires forall p <- Parsed(ctx.dates, ics) :: !Recurring(ctx, p)
    ensures |EventsIn(ctx, ics)| == |Parsed(ctx.dates, ics)|
    ensures forall i :: 0 <= i < |EventsIn(ctx, ics)| ==> EventsIn(ctx, ics)[i] == Parsed(ctx.dates, ics)[i].event
  {
    var parsed := Parsed(ctx.dates, ics);
    forall p | p in parsed
      ensures EventsAmong(ctx, parsed)(p) == [p.event]
    {
      SingleEvent(ctx, parsed, p);
    }
    OneEach(EventsAmong(ctx, parsed), (p: VEvent) => p.event, parsed, |parsed|);
  }

  // ----- series -----

  /** Some VEVENT of the text replaces the instance of this UID at the instant. */
  ghost predicate Replaced(parsed: seq<VEvent>, id: string, t: int) {
    exists i :: 0 <= i < |parsed| && parsed[i].event.id == id && parsed[i].recurrenceId == Some(t)
  }

  /** The series of a VEVENT: its own EXDATEs and the instances replaced anywhere in the text are left out. */
  ghost predicate IsSeries(ctx: Context, parsed: seq<VEvent>, p: VEvent, q: Query) {
    && q.base == p.event && q.rule == Rule(ctx.dates, p.rrule) && q.clock == ClockFor(p.event, p.zone, ctx.currentZone)
    && q.windowStart == ctx.windowStart && q.windowEnd == ctx.windowEnd && q.maxIterations == 4000
    && forall t :: t in q.exdates <==> t in p.exdates || Replaced(parsed, p.event.id, t)
  }

  lemma SameExcluded(x: seq<int>, y: seq<int>, t: int)
    requires forall s :: s in x ==> s in y
    ensures Excluded(x, t) ==> Excluded(y, t)
  {
    if Excluded(x, t) {
      var i :| 0 <= i < |x| && -HALF_DAY < t - x[i] < HALF_DAY;
      assert x[i] in y;
      var j :| 0 <= j < |y| && y[j] == x[i];
    }
  }

  /** Its events are the expansion of that series. */
  lemma SeriesIsExpanded(ctx: Context, parsed: seq<VEvent>, p: VEvent, q: Query)
    requires Recurring(ctx, p) && IsSeries(ctx, parsed, p, q)
    ensures EventsAmong(ctx, parsed)(p) == Expand(q)
  {
    var ids := OverridesOf(parsed, p.event.id);
    var r := QueryFor(ctx, p, ids);
    forall t
      ensures t in r.exdates <==> t in q.exdates
    {
      OverrideMembers(parsed, p.event.id, |parsed|, t);
    }
    forall t
      ensures Excluded(r.exdates, t) == Excluded(q.exdates, t)
    {
      SameExcluded(r.exdates, q.exdates, t);
      SameExcluded(q.exdates, r.exdates, t);
    }
    ExpandSameExclusions(q, r.exdates);
    assert WithExdates(q, r.exdates) == r;
  }

  lemma SeriesExists(ctx: Context, parsed: seq<VEvent>, p: VEvent) returns (q: Query)
    ensures IsSeries(ctx, parsed, p, q)
  {
    q := QueryFor(ctx, p, OverridesOf(parsed, p.event.id));
    forall t
      ensures t in q.exdates <==> t in p.exdates || Replaced(parsed, p.event.id, t)
    {
      OverrideMembers(parsed, p.event.id, |parsed|, t);
    }
  }

  /** The VEVENT gives the event: as it stands, or moved to an occurrence of its series. */
  ghost predicate Gives(ctx: Context, parsed: seq<VEvent>, p: VEvent, e: CalendarEvent) {
    if !Recurring(ctx, p) then e == p.event
    else forall q :: IsSeries(ctx, parsed, p, q) ==> e in Expand(q)
  }

  /** The events of a text are those that its VEVENTs give. */
  lemma EventsAreGiven(ctx: Context, ics: string, e: CalendarEvent)
    ensures var parsed := Parsed(ctx.dates, ics);
            e in EventsIn(ctx, ics) <==> exists i :: 0 <= i < |parsed| && Gives(ctx, parsed, parsed[i], e)
  {
    var parsed := Parsed(ctx.dates, ics);
    forall i | 0 <= i < |parsed|
      ensures e in EventsAmong(ctx, parsed)(parsed[i]) <==> Gives(ctx, parsed, parsed[i], e)
    {
      BlockGives(ctx, parsed, parsed[i], e);
    }
    InConcat(EventsAmong(ctx, parsed), parsed, |parsed|, e);
  }

  lemma BlockGives(ctx: Context, parsed: seq<VEvent>, p: VEvent, e: CalendarEvent)
    ensures e in EventsAmong(ctx, parsed)(p) <==> Gives(ctx, parsed, p, e)
  {
    if Recurring(ctx, p) {
      forall q | IsSeries(ctx, parsed, p, q)
        ensures EventsAmong(ctx, parsed)(p) == Expand(q)
      {
        SeriesIsExpanded(ctx, parsed, p, q);
      }
      var q := SeriesExists(ctx, parsed, p);
      assert EventsAmong(ctx, parsed)(p) == Expand(q);
    } else {
      SingleEvent(ctx, parsed, p);
    }
  }

  /** Of a series that can be expanded: what it gives is, moved to it, an occurrence of the rule that COUNT and UNTIL admit,
      in the window and not within half a day of an EXDATE or a replaced instance; and each of these within the budget has
      its event. */
  lemma SeriesMeans(ctx: Context, parsed: seq<VEvent>, p: VEvent, q: Query, e: CalendarEvent, d: int)
    requires Recurring(ctx, p) && IsSeries(ctx, parsed, p, q) && Expandable(q)
    ensures Gives(ctx, parsed, p, e) ==>
      (exists c :: IsOccurrence(q, c) && Counted(q, Ordinal(q, c)) && IsInstance(q, e, c))
      && ctx.windowStart <= e.start <= ctx.windowEnd
      && forall t :: t in p.exdates || Replaced(parsed, p.event.id, t) ==> e.start <= t - 43_200 || t + 43_200 <= e.start
    ensures IsOccurrence(q, d) && WithinBudget(q, d) && Counted(q, Ordinal(q, d)) && Admitted(q, q.clock.instant(d)) ==>
      HasInstance(q, EventsAmong(ctx, parsed)(p), d)
  {
    SeriesIsExpanded(ctx, parsed, p, q);
    EventsAreInstances(q, e, d);
    if Gives(ctx, parsed, p, e) {
      forall t | t in p.exdates || Replaced(parsed, p.event.id, t)
        ensures e.start <= t - 43_200 || t + 43_200 <= e.start
      {
        assert t in q.exdates;
      }
    }
  }
}

/** `parseRRule` and `parseICalEvents`: from iCalendar text to the events of a window. */
module IcalEvents {
  import opened Wrappers
  import opened IcalText
  import opened Recurrence

  /** What `parseDateTime` reads from a date property; it needs the time-zone database. */
  datatype DateTime = DateTime(instant: int, civilDay: int, timeOfDay: int, zone: Option<Zone>, allDay: bool)

  type DateReader = PropertyLine -> Option<DateTime>

  /** What a call of `parseICalEvents` depends on beside its text. */
  datatype Context = Context(dates: DateReader, currentZone: Zone, windowStart: int, windowEnd: int)

  // ----- RRULE -----

  const NO_RULE := RRule(NoFreq, 1, 0, None, [])

  function SkipNumber(t: string): string {
    if t != [] && (t[0] == '+' || t[0] == '-' || IsDigit(t[0])) then SkipNumber(t[1..]) else t
  }

  function WeekdayToken(t: string): Option<int> {
    var name := SkipNumber(t);
    if name == "SU" then Some(7)
    else if name == "MO" then Some(1)
    else if name == "TU" then Some(2)
    else if name == "WE" then Some(3)
    else if name == "TH" then Some(4)
    else if name == "FR" then Some(5)
    else if name == "SA" then Some(6)
    else None
  }

  function AddWeekday(days: seq<int>, token: string): (r: seq<int>)
    requires forall w <- days :: 1 <= w <= 7
    ensures forall w <- r :: 1 <= w <= 7
  {
    match WeekdayToken(token) case Some(w) => days + [w] case None => days
  }

  function After(s: string, i: nat): nat
    requires i <= |s|
  {
    if i == |s| then i else i + 1
  }

  function ByDayFrom(val: string, p: nat, days: seq<int>): (r: seq<int>)
    requires p <= |val| && forall w <- days :: 1 <= w <= 7
    ensures forall w <- r :: 1 <= w <= 7
    decreases |val| - p
  {
    if p == |val| then days
    else
      var comma := Find(val, ',', p);
      ByDayFrom(val, After(val, comma), AddWeekday(days, val[p..comma]))
  }

  function FreqNamed(val: string, freq: Freq): Freq {
    if val == "DAILY" then Daily
    else if val == "WEEKLY" then Weekly
    else if val == "MONTHLY" then Monthly
    else if val == "YEARLY" then Yearly
    else freq
  }

  predicate ValidRule(rule: RRule) {
    rule.interval >= 1 && forall w <- rule.byDay :: 1 <= w <= 7
  }

  function ReadPart(dates: DateReader, rule: RRule, part: string): (r: RRule)
    requires ValidRule(rule)
    ensures ValidRule(r)
  {
    var eq := Find(part, '=', 0);
    if eq == |part| then rule
    else
      var key, val := part[..eq], part[eq + 1..];
      if key == "FREQ" then rule.(freq := FreqNamed(val, rule.freq))
      else if key == "INTERVAL" then rule.(interval := if ToInt(val) < 1 then 1 else ToInt(val))
      else if key == "COUNT" then rule.(count := ToInt(val))
      else if key == "UNTIL" then
        match dates(NO_PROPERTY.(value := val)) {
          case Some(dt) => rule.(until := Some(dt.instant))
          case None => rule
        }
      else if key == "BYDAY" then rule.(byDay := ByDayFrom(val, 0, rule.byDay))
      else rule
  }

  function PartsFrom(dates: DateReader, value: string, pos: nat, rule: RRule): (r: RRule)
    requires pos <= |value| && ValidRule(rule)
    ensures ValidRule(r)
    decreases |value| - pos
  {
    if pos == |value| then rule
    else
      var semi := Find(value, ';', pos);
      PartsFrom(dates, value, After(value, semi), ReadPart(dates, rule, value[pos..semi]))
  }

  function Rule(dates: DateReader, value: string): (r: RRule)
    ensures ValidRule(r)
  {
    PartsFrom(dates, value, 0, NO_RULE)
  }

  method ParseByDay(val: string, days: seq<int>) returns (byDay: seq<int>)
    requires forall w <- days :: 1 <= w <= 7
    ensures byDay == ByDayFrom(val, 0, days)
  {
    byDay := days;
    var p := 0;
    while p < |val|
      invariant 0 <= p <= |val| && (forall w <- byDay :: 1 <= w <= 7)
      invariant ByDayFrom(val, p, byDay) == ByDayFrom(val, 0, days)
      decreases |val| - p
    {
      var comma := Find(val, ',', p);
      byDay := AddWeekday(byDay, val[p..comma]);
      p := After(val, comma);
    }
  }

  method ParseRRule(dates: DateReader, value: string) returns (rule: RRule)
    ensures rule == Rule(dates, value)
  {
    rule := NO_RULE;
    var pos := 0;
    while pos < |value|
      invariant 0 <= pos <= |value| && ValidRule(rule)
      invariant PartsFrom(dates, value, pos, rule) == Rule(dates, value)
      decreases |value| - pos
    {
      var semi := Find(value, ';', pos);
      var part := value[pos..semi];
      pos := After(value, semi);
      var eq := Find(part, '=', 0);
      if eq == |part| {
        continue;
      }
      var key, val := part[..eq], part[eq + 1..];
      if key == "FREQ" {
        rule := rule.(freq := FreqNamed(val, rule.freq));
      } else if key == "INTERVAL" {
        rule := rule.(interval := if ToInt(val) < 1 then 1 else ToInt(val));
      } else if key == "COUNT" {
        rule := rule.(count := ToInt(val));
      } else if key == "UNTIL" {
        var parsed := dates(NO_PROPERTY.(value := val));
        if parsed.Some? {
          rule := rule.(until := Some(parsed.value.instant));
        }
      } else if key == "BYDAY" {
        var byDay := ParseByDay(val, rule.byDay);
        rule := rule.(byDay := byDay);
      }
    }
  }

  // ----- VEVENT blocks -----

  /** A parsed VEVENT, held until the overridden instants of every UID are known. */
  datatype VEvent = VEvent(event: CalendarEvent, rrule: string, exdates: seq<int>,
                           recurrenceId: Option<int>, zone: Option<RecurrenceZone>)

  const NO_EVENT := VEvent(CalendarEvent([], [], [], 0, 0, false), [], [], None, None)

  /** The event being read. */
  datatype Draft = Draft(current: VEvent, haveStart: bool, haveEnd: bool, startAllDay: bool)

  const NEW_DRAFT := Draft(NO_EVENT, false, false, false)

  datatype Reader = Reader(parsed: seq<VEvent>, inEvent: bool, draft: Draft)

  const NEW_READER := Reader([], false, NEW_DRAFT)

  function ExdatesFrom(dates: DateReader, prop: PropertyLine, p: nat, exdates: seq<int>): seq<int>
    requires p <= |prop.value|
    decreases |prop.value| - p
  {
    if p == |prop.value| then exdates
    else
      var comma := Find(prop.value, ',', p);
      var read := dates(prop.(value := prop.value[p..comma]));
      ExdatesFrom(dates, prop, After(prop.value, comma), if read.Some? then exdates + [read.value.instant] else exdates)
  }

  method ParseExdates(dates: DateReader, prop: PropertyLine, exdates: seq<int>) returns (all: seq<int>)
    ensures all == ExdatesFrom(dates, prop, 0, exdates)
  {
    all := exdates;
    var v, p := prop.value, 0;
    while p < |v|
      invariant 0 <= p <= |v|
      invariant ExdatesFrom(dates, prop, p, all) == ExdatesFrom(dates, prop, 0, exdates)
      decreases |v| - p
    {
      var comma := Find(v, ',', p);
      var dt := dates(prop.(value := v[p..comma]));
      if dt.Some? {
        all := all + [dt.value.instant];
      }
      p := After(v, comma);
    }
  }

  /** A property of the event being read. */
  function ReadProperty(dates: DateReader, d: Draft, prop: PropertyLine): Draft {
    var e := d.current;
    if prop.name == "UID" then d.(current := e.(event := e.event.(id := prop.value)))
    else if prop.name == "SUMMARY" then d.(current := e.(event := e.event.(title := Unescape(prop.value))))
    else if prop.name == "LOCATION" then d.(current := e.(event := e.event.(location := Unescape(prop.value))))
    else if prop.name == "DTSTART" then
      match dates(prop) {
        case None => d
        case Some(dt) =>
          var zone := if !dt.allDay && dt.zone.Some? then Some(RecurrenceZone(dt.zone.value, dt.civilDay, dt.timeOfDay))
                      else e.zone;
          d.(current := e.(event := e.event.(start := dt.instant), zone := zone),
             startAllDay := dt.allDay, haveStart := true)
      }
    else if prop.name == "DTEND" then
      match dates(prop) {
        case None => d
        case Some(dt) => d.(current := e.(event := e.event.(end := dt.instant)), haveEnd := true)
      }
    else if prop.name == "RRULE" then d.(current := e.(rrule := prop.value))
    else if prop.name == "RECURRENCE-ID" then
      match dates(prop) {
        case None => d
        case Some(dt) => d.(current := e.(recurrenceId := Some(dt.instant)))
      }
    else if prop.name == "EXDATE" then d.(current := e.(exdates := ExdatesFrom(dates, prop, 0, e.exdates)))
    else d
  }

  /** The event that END:VEVENT completes. */
  function Completed(d: Draft): VEvent {
    var e := d.current.event;
    d.current.(event := e.(end := if d.haveEnd then e.end else e.start, allDay := d.startAllDay))
  }

  function ReadLine(dates: DateReader, r: Reader, line: string): Reader {
    if line == "BEGIN:VEVENT" then Reader(r.parsed, true, NEW_DRAFT)
    else if line == "END:VEVENT" then
      Reader(if r.inEvent && r.draft.haveStart then r.parsed + [Completed(r.draft)] else r.parsed, false, r.draft)
    else if !r.inEvent then r
    else r.(draft := ReadProperty(dates, r.draft, Property(line)))
  }

  /** A loop that carries a state over the lines. */
  function Fold<S>(step: (S, string) -> S, state: S, lines: seq<string>): S
    decreases lines
  {
    if lines == [] then state else Fold(step, step(state, lines[0]), lines[1..])
  }

  /** Reading two stretches of lines is reading one after the other. */
  lemma {:induction false} FoldSplits<S>(step: (S, string) -> S, state: S, a: seq<string>, b: seq<string>)
    ensures Fold(step, state, a + b) == Fold(step, Fold(step, state, a), b)
    decreases a
  {
    if a == [] {
      assert a + b == b;
    } else {
      assert (a + b)[1..] == a[1..] + b;
      FoldSplits(step, step(state, a[0]), a[1..], b);
    }
  }

  function LineReader(dates: DateReader): (Reader, string) -> Reader {
    (r: Reader, line: string) => ReadLine(dates, r, line)
  }

  function ReadLines(dates: DateReader, r: Reader, lines: seq<string>): Reader {
    Fold(LineReader(dates), r, lines)
  }

  method ParsePropertyLine(dates: DateReader, d: Draft, line: string) returns (next: Draft)
    ensures next == ReadProperty(dates, d, Property(line))
  {
    var prop := ParseProperty(line);
    var e := d.current;
    if prop.name == "SUMMARY" {
      var title := UnescapeText(prop.value);
      next := d.(current := e.(event := e.event.(title := title)));
    } else if prop.name == "LOCATION" {
      var location := UnescapeText(prop.value);
      next := d.(current := e.(event := e.event.(location := location)));
    } else if prop.name == "EXDATE" {
      var exdates := ParseExdates(dates, prop, e.exdates);
      next := d.(current := e.(exdates := exdates));
    } else {
      next := ReadProperty(dates, d, prop);
    }
  }

  method ParseLine(dates: DateReader, r: Reader, line: string) returns (next: Reader)
    ensures next == ReadLine(dates, r, line)
  {
    if line == "BEGIN:VEVENT" {
      return Reader(r.parsed, true, NEW_DRAFT);
    }
    if line == "END:VEVENT" {
      next := r.(inEvent := false);
      if r.inEvent && r.draft.haveStart {
        next := next.(parsed := r.parsed + [Completed(r.draft)]);
      }
      return;
    }
    next := r;
    if r.inEvent {
      var draft := ParsePropertyLine(dates, r.draft, line);
      next := r.(draft := draft);
    }
  }

  // ----- all events of a text -----

  /** The RECURRENCE-IDs the first `n` events give for a UID. */
  function OverridesUpTo(parsed: seq<VEvent>, id: string, n: nat): seq<int>
    requires n <= |parsed|
  {
    if n == 0 then []
    else
      var p := parsed[n - 1];
      OverridesUpTo(parsed, id, n - 1)
      + if p.event.id == id && p.recurrenceId.Some? then [p.recurrenceId.value] else []
  }

  function OverridesOf(parsed: seq<VEvent>, id: string): seq<int> {
    OverridesUpTo(parsed, id, |parsed|)
  }

  function Lookup(overrides: map<string, seq<int>>, id: string): seq<int> {
    if id in overrides then overrides[id] else []
  }

  function QueryFor(ctx: Context, p: VEvent, overrides: seq<int>): Query {
    Query(p.event, Rule(ctx.dates, p.rrule), p.exdates + overrides, ClockFor(p.event, p.zone, ctx.currentZone),
          ctx.windowStart, ctx.windowEnd, MAX_ITERATIONS)
  }

  function EventsOf(ctx: Context, p: VEvent, overrides: seq<int>): seq<CalendarEvent> {
    if p.rrule == [] then [p.event] else Expand(QueryFor(ctx, p, overrides))
  }

  /** The events of one of the parsed VEVENTs, with the overrides given anywhere among them. */
  function EventsAmong(ctx: Context, parsed: seq<VEvent>): VEvent -> seq<CalendarEvent> {
    (p: VEvent) => EventsOf(ctx, p, OverridesOf(parsed, p.event.id))
  }

  /** What the first `n` elements give, one after the other. */
  function ConcatUpTo<A, B>(of: A -> seq<B>, list: seq<A>, n: nat): seq<B>
    requires n <= |list|
  {
    if n == 0 then [] else ConcatUpTo(of, list, n - 1) + of(list[n - 1])
  }

  function Parsed(dates: DateReader, ics: string): seq<VEvent> {
    ReadLines(dates, NEW_READER, Unfolded(ics)).parsed
  }

  function EventsIn(ctx: Context, ics: string): seq<CalendarEvent> {
    var parsed := Parsed(ctx.dates, ics);
    ConcatUpTo(EventsAmong(ctx, parsed), parsed, |parsed|)
  }

  method CollectOverrides(parsed: seq<VEvent>) returns (overrides: map<string, seq<int>>)
    ensures forall id :: Lookup(overrides, id) == OverridesOf(parsed, id)
  {
    overrides := map[];
    var i := 0;
    while i < |parsed|
      invariant 0 <= i <= |parsed|
      invariant forall id :: Lookup(overrides, id) == OverridesUpTo(parsed, id, i)
    {
      var p := parsed[i];
      if p.recurrenceId.Some? {
        var id := p.event.id;
        overrides := overrides[id := Lookup(overrides, id) + [p.recurrenceId.value]];
      }
      i := i + 1;
    }
  }

  method AppendEvents(ctx: Context, p: VEvent, overrides: map<string, seq<int>>, events: seq<CalendarEvent>)
    returns (all: seq<CalendarEvent>)
    ensures all == events + EventsOf(ctx, p, Lookup(overrides, p.event.id))
  {
    if p.rrule == [] {
      return events + [p.event];
    }
    var exdates := p.exdates;
    assert p.exdates + [] == p.exdates;
    if p.event.id in overrides {
      exdates := exdates + overrides[p.event.id];
    }
    var rule := ParseRRule(ctx.dates, p.rrule);
    all := ExpandRecurrence(Query(p.event, rule, exdates, ClockFor(p.event, p.zone, ctx.currentZone),
                                  ctx.windowStart, ctx.windowEnd, MAX_ITERATIONS), events);
  }

  method ParseVEvents(dates: DateReader, ics: string) returns (parsed: seq<VEvent>)
    ensures parsed == Parsed(dates, ics)
  {
    var lines := Unfold(ics);
    var r := NEW_READER;
    var i := 0;
    while i < |lines|
      invariant 0 <= i <= |lines|
      invariant ReadLines(dates, r, lines[i..]) == ReadLines(dates, NEW_READER, lines)
    {
      r := ParseLine(dates, r, lines[i]);
      i := i + 1;
    }
    parsed := r.parsed;
  }

  method ExpandAll(ctx: Context, parsed: seq<VEvent>) returns (events: seq<CalendarEvent>)
    ensures events == ConcatUpTo(EventsAmong(ctx, parsed), parsed, |parsed|)
  {
    var overrides := CollectOverrides(parsed);
    events := [];
    var i := 0;
    while i < |parsed|
      invariant 0 <= i <= |parsed|
      invariant events == ConcatUpTo(EventsAmong(ctx, parsed), parsed, i)
    {
      events := AppendEvents(ctx, parsed[i], overrides, events);
      i := i + 1;
    }
  }

  method ParseICalEvents(ctx: Context, ics: string) returns (events: seq<CalendarEvent>)
    ensures events == EventsIn(ctx, ics)
  {
    var parsed := ParseVEvents(ctx.dates, ics);
    events := ExpandAll(ctx, parsed);
  }
}

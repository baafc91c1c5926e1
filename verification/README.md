# A verified model of the shell's core logic

This project models, in Dafny, the parts of the desktop shell whose correctness is not visible in any one function,
and proves what they promise. Verify it with `dafny verify dfyconfig.toml`.

**Calendar text and recurrence** (`CivilCalendar`, `Recurrence`, `RecurrenceProofs`, `RecurrenceLimits`, `IcalText`,
`IcalEvents`, `IcalRules`, `IcalRoundTrip`, `IcalOverrides`, `IcalMeaning`). The iCalendar reader unfolds lines,
unescapes texts, splits properties, reads rules and expands them over a window; what it reads from any written event, and
which events a whole text means, is proved. The expansion is a class whose loops count, skip and stop as the source's do;
it is proved equal to the declarative set of occurrences of the rule (section 3.3.10 of RFC 5545, as far as the reader
supports it), and where the iteration backstop or a repeated weekday makes it differ, exactly when is proved too. An
instant is a number of seconds, a civil date a Gregorian day number. A time zone is a function from days to instants that
increases strictly and drifts by less than a day; on the UTC and floating path that is proved.

**Layered configuration** (`Toml`, `Includes`, `IncludeProofs`, `IncludeOrder`, `OverridePaths`, `OverrideEdits`,
`OverrideStore`, `Migrations`, `Fingerprints`). TOML tables are finite trees. The include walk is a depth-first search
over any graph of files that merges while it walks. Edits of the overrides are transactions with validation, rollback
and a persisted copy, over runs in which the file may be changed from outside and may stop and start being parsable.
Older files are migrated.

**Scheduling** (`Scheduler`, `DeferredCalls`). The main loop's deadlines are proved to be what the history of votes
and dispatches makes them. The deferred calls are a transition system over all interleavings of producer threads and
the main loop, system call by system call, beside the class whose methods are its steps; it is proved that no call is
lost and that every call is run.

**Screenshots** (`Pixels`, `Convert`, `Canvas`). Images are byte arrays. In-place flips, turns and copies are proved
through the pixels they show; the eight output transforms form a group. Conversion, cropping, clipping and composition
are exact about which pixel is read and shown, with rounding over the reals.

**Calendar refresh** (`Refresh`). One refresh sends requests for every account; answers arrive in any order, and what
a whole run of them ends in is proved from each account's own answers: which events an account has, when it fails, and
when it asks for a new token.

Where the code and its comments or the formats it reads differ, the model follows the code:

- `ical_parser.cpp` unescapes SUMMARY and LOCATION but not UID, so a UID with escaped characters comes back escaped
  (`IcalRoundTrip.TextRoundTrip`, `IcalRoundTrip.CommaInUidStaysEscaped`).
- A comment calls 4000 iterations a backstop for a window of about a year each way. Only DAILY counts them from the
  window; the other frequencies count from DTSTART, so an old enough series loses occurrences
  (`RecurrenceLimits.OldSeriesIsLost`). When that happens, for every frequency, is
  `RecurrenceLimits.BackstopIsUnseenExactlyWhen`.
- Section 3.3.10 of RFC 5545 makes a rule a set of instants, but a weekday named twice in BYDAY is shown twice and counted
  twice (`RecurrenceLimits.ThursdayIsShownTwice`; in general `RecurrenceLimits.WeekdaysAreShownAsNamed`).
- Setting notification filters also writes `filter_order` beside them, which clearing them does not take away, while
  the order of the idle behaviours goes with them. So setting and clearing filters restores the tree only if that very
  order was there before (`OverridePaths.ClearedFiltersLeaveTheirOrder`, `OverridePaths.SetThenClearRestores`).
- `deepMerge` is not associative when one path is a table in one file and a leaf in another (`Toml.NotAssociative`); the
  flattening of includes holds for files that agree on kinds.
- The visited set of the include walk is keyed by canonical path, while relative includes are resolved from the path as
  given. So of two paths to one file only the includes of the first are read, even if those of the second are other
  files (`IncludeProofs.LinkHidesAnInclude`). What is loaded is `IncludeProofs.LoadedThroughLoaded`.
- `cropFrozenRegion` clamps the corner of a region before its size, so a region that begins left of or above its output
  is moved onto it and not cut (`Canvas.ClippedIsThePartExactlyWhen`); the targets of `intersectGlobalRegion` never do.

## Model

| member | source | states |
|---|---|---|
| CivilCalendar.CivilOf | src/calendar/ical_parser.cpp:395-396 | every day number has a valid civil date whose day number it is, so the conversion behind `year_month_day{sys_days}` is total and right |
| CivilCalendar.CivilRoundTrip | src/calendar/ical_parser.cpp:398-403 | a valid civil date comes back from its day number: the two conversions are inverse |
| CivilCalendar.DayNumberIs | src/calendar/ical_parser.cpp:394-416 | the day number of a date in closed form: 365 days a year and its leap days, and the months as they alternate from March on |
| CivilCalendar.WeekdaysGoRound | src/calendar/ical_parser.cpp:370-388 | 1 January 1970 was a Thursday, the weekdays go round, and a week starts with the Monday on or before its days |
| CivilCalendar.NextDateIsNextDay | src/calendar/ical_parser.cpp:394-416 | the Gregorian successor of a valid date, leap years included, is the next day number |
| CivilCalendar.PreviousDateIsPreviousDay | src/calendar/ical_parser.cpp:394-416 | the predecessor of a valid date is the previous day number |
| CivilCalendar.LaterMonthIsLater | src/calendar/ical_parser.cpp:397-403 | every day of a later month has a larger day number, so stepping by months moves forward |
| CivilCalendar.DateInMonth | src/calendar/ical_parser.cpp:398-399 | adding months to a year-month carries into the year and leaves a month from 1 to 12 |
| Recurrence.UtcClockIsSteady | src/calendar/ical_parser.cpp:297-300 | on the UTC and floating path instants increase strictly and drift by less than a day, so the assumption on the clock holds there exactly |
| Recurrence.RunEmits | src/calendar/ical_parser.cpp:333-349 | stepping through a list of candidates appends what the list shows, up to the first candidate past a bound |
| Recurrence.Expansion.Step | src/calendar/ical_parser.cpp:333-349 | one `step` counts the candidate, refuses it past UNTIL, the window or COUNT, and appends it when it is in the window and not excluded |
| Recurrence.Expansion.ExpandDays | src/calendar/ical_parser.cpp:354-369 | the DAILY loop appends what its list of candidate days shows, at most 4000 of them from the skipped-to index |
| Recurrence.Expansion.ExpandWeek | src/calendar/ical_parser.cpp:380-389 | one week of the WEEKLY loop: days before DTSTART are passed over uncounted, and the week stops the series when a candidate does |
| Recurrence.Expansion.ExpandWeeks | src/calendar/ical_parser.cpp:370-392 | the WEEKLY loop appends what the days of its weeks show, in order |
| Recurrence.Expansion.ExpandDates | src/calendar/ical_parser.cpp:394-416 | the MONTHLY and YEARLY loops append what the valid candidate dates show |
| Recurrence.ExpandRecurrence | src/calendar/ical_parser.cpp:266-421 | `expandRecurrence` appends the expansion, whose days `RecurrenceProofs.ExpansionIsExact` and whose events `RecurrenceProofs.EventsAreInstances` give; a rule without frequency gives the event itself |
| RecurrenceProofs.EmitSelects | src/calendar/ical_parser.cpp:333-349 | over any increasing list of candidates, stopping at the first one past a bound loses none that is wanted |
| RecurrenceProofs.PositionIsOrdinal | src/calendar/ical_parser.cpp:332-341 | the running number that COUNT is compared with is the ordinal of the occurrence in the series |
| RecurrenceProofs.SkippedIsBeforeWindow | src/calendar/ical_parser.cpp:358-362 | every candidate that DAILY skips lies before the window |
| RecurrenceProofs.SkipAheadRefinesStepping | src/calendar/ical_parser.cpp:354-369 | starting at the skipped-to index with its number already counted gives the events of stepping there one by one, whatever COUNT and UNTIL |
| RecurrenceProofs.SkipAheadIsUnobservable | src/calendar/ical_parser.cpp:351-369 | when the window spans at most 3998 days, DAILY gives the events of the unbounded enumeration from DTSTART: neither the skip nor the 4000 budget shows |
| RecurrenceProofs.DailyEnumeration | src/calendar/ical_parser.cpp:354-369 | the candidates of DAILY are exactly its occurrences within the budget, in increasing order |
| RecurrenceProofs.WeeklyEnumeration | src/calendar/ical_parser.cpp:370-392 | for a BYDAY without duplicates the candidates of WEEKLY are exactly its occurrences within the budget, in increasing order |
| RecurrenceProofs.WeeklyCandidates | src/calendar/ical_parser.cpp:370-392 | for any BYDAY the candidates of WEEKLY are, in order, the occurrences within the budget, each as often as BYDAY names its weekday |
| RecurrenceProofs.MonthlyEnumeration | src/calendar/ical_parser.cpp:394-406 | the candidates of MONTHLY are exactly the days of DTSTART's day of the month in the months in step with INTERVAL; months without the day are skipped |
| RecurrenceProofs.YearlyEnumeration | src/calendar/ical_parser.cpp:407-417 | the candidates of YEARLY are exactly the anniversaries that exist in the years in step with INTERVAL |
| RecurrenceProofs.ExpansionIsExact | src/calendar/ical_parser.cpp:332-417 | for every DAILY, MONTHLY and YEARLY rule, and every WEEKLY rule whose BYDAY names no weekday twice, the events shown are, in strictly increasing order, exactly the occurrences in the window, not past UNTIL, of ordinal at most COUNT, not excluded and within the loop budget |
| RecurrenceProofs.BudgetReachesWindow | src/calendar/ical_parser.cpp:351-417 | a sufficient reach, in whole days: when the window ends within it, an occurrence that the 4000 iterations do not reach lies after the window; WEEKLY reaches 4000 times INTERVAL weeks (the exact condition is in `RecurrenceLimits`) |
| RecurrenceProofs.ExpansionIsComplete | src/calendar/ical_parser.cpp:332-417 | within that reach the budget is not seen: the events shown are exactly the wanted occurrences of the rule, in increasing order |
| RecurrenceProofs.EventsAreInstances | src/calendar/ical_parser.cpp:333-349 | every event shown starts at the instant of an occurrence that COUNT, UNTIL, the window and EXDATE admit, lasts as long as the event, or all day as many days, and is the event in all else; and every such occurrence within the budget has one |
| RecurrenceProofs.EmittedAreInstances | src/calendar/ical_parser.cpp:342-347 | the same over any list of candidates |
| RecurrenceProofs.UtcClockIs | src/calendar/ical_parser.cpp:299-301 | a UTC or floating event recurs at whole days from its start |
| RecurrenceProofs.ZoneClockIs | src/calendar/ical_parser.cpp:313-320 | a timed event in a zone recurs at the wall time of its start, or at that time in UTC on a day the zone has no such time |
| RecurrenceProofs.AllDayClockIs | src/calendar/ical_parser.cpp:282-295 | an all-day event recurs at local midnights, whatever zone came with its start, and spans as many local days as it did; UTC days stand in where the current zone fails |
| RecurrenceProofs.FirstInstanceIsTheEvent | src/calendar/ical_parser.cpp:289-322 | the event is the instance of its own first day, where its zone reads that day and time back as its start |
| RecurrenceLimits.BackstopIsUnseenExactlyWhen | src/calendar/ical_parser.cpp:351-417 | for every rule, COUNT, UNTIL, EXDATE and window: everything wanted is shown if and only if the first occurrence out of the reach of the loops that the window would show is past UNTIL or the window, or its ordinal is beyond COUNT |
| RecurrenceLimits.FirstUnreachedIsLeast | src/calendar/ical_parser.cpp:351-417 | the first occurrence out of reach, computed: DAILY 4000 steps after the skipped-to index, WEEKLY the first weekday named in the week 4000 times INTERVAL after DTSTART, MONTHLY and YEARLY the first step in step with INTERVAL, from 4000 on, that has a date |
| RecurrenceLimits.SomeUnreached | src/calendar/ical_parser.cpp:394-417 | that step exists for every rule: a date recurs after 400 years, whatever INTERVAL is |
| RecurrenceLimits.WindowIsReachedExactlyWhen | src/calendar/ical_parser.cpp:351-417 | without COUNT, UNTIL and EXDATE, and for a window that starts no later than that occurrence, nothing is lost if and only if the window ends before it |
| RecurrenceLimits.OldWeeklySeriesShowsNothing | src/calendar/ical_parser.cpp:379-380 | a WEEKLY series that started more than 4000 steps before the window shows nothing: its budget is counted from DTSTART |
| RecurrenceLimits.OldSeriesIsLost | src/calendar/ical_parser.cpp:379-380 | one such series: a weekly event from 1 January 1970 on, in a window 4001 weeks later, where an occurrence is wanted and no event is shown |
| RecurrenceLimits.EmitTimes | src/calendar/ical_parser.cpp:332-349 | over candidates with repeats, each day is shown as often as it is a candidate, as far as COUNT allows after those before it |
| RecurrenceLimits.WeekdaysAreShownAsNamed | src/calendar/ical_parser.cpp:370-392 | for any BYDAY a WEEKLY rule shows its days in order, each in the window, not past a bound, not excluded and within the budget as often as BYDAY names its weekday, each time counting toward COUNT |
| RecurrenceLimits.ThursdayIsShownTwice | src/calendar/ical_parser.cpp:371-389 | `BYDAY=TH,TH;COUNT=2` shows the first Thursday twice, and not the second Thursday, which the rule wants |
| RecurrenceLimits.WeeklyOrderNeedsDistinctDays | src/calendar/ical_parser.cpp:371-375 | the WEEKLY candidates are strictly increasing if and only if BYDAY has no duplicate |
| IcalText.Find | src/calendar/ical_parser.cpp:84-106 | the search finds the first occurrence of the character, or the end |
| IcalText.Unfold | src/calendar/ical_parser.cpp:15-43 | the scanner yields the logical lines that the round trip below characterises |
| IcalText.UnescapeText | src/calendar/ical_parser.cpp:45-65 | the scanner computes the unescaped text, of which `UnescapeUndoesEscape` says what it means |
| IcalText.ParseProperty | src/calendar/ical_parser.cpp:80-110 | the scanner splits name, parameters and value, of which `IcalRoundTrip.PropertyIsRead` and `IcalRoundTrip.ParamsAreRead` say what it means |
| IcalEvents.ParseByDay | src/calendar/ical_parser.cpp:249-259 | the comma loop appends the weekdays that the tokens name |
| IcalEvents.ParseRRule | src/calendar/ical_parser.cpp:216-262 | the semicolon loop reads the rule part by part; INTERVAL is at least one and weekdays are in range |
| IcalEvents.ParseExdates | src/calendar/ical_parser.cpp:505-517 | the comma loop appends the instants that `IcalRules.ExdateListIsRead` characterises |
| IcalEvents.ParseLine | src/calendar/ical_parser.cpp:452-519 | one line opens, closes or fills the current event; `IcalRoundTrip.LineIsRead` says what each property fills in, and `IcalRoundTrip.EventIsRead` what a block adds |
| IcalEvents.CollectOverrides | src/calendar/ical_parser.cpp:524-529 | the overridden instants are gathered by UID |
| IcalEvents.AppendEvents | src/calendar/ical_parser.cpp:532-542 | one block gives its own event, or the expansion of its rule without its exclusions and the overridden instants of its UID |
| IcalEvents.ExpandAll | src/calendar/ical_parser.cpp:531-544 | the blocks give their events in order |
| IcalEvents.ParseICalEvents | src/calendar/ical_parser.cpp:425-545 | the whole parser: unfold, read the blocks, then expand with every override known |
| IcalRules.FirstPiece | src/calendar/ical_parser.cpp:219-222 | a separator scan yields the next piece and goes on with the rest |
| IcalRules.ByDayReadsTokens | src/calendar/ical_parser.cpp:249-259 | BYDAY tokens joined by commas give the weekdays they name, in order; tokens that name none are dropped |
| IcalRules.TokenNames | src/calendar/ical_parser.cpp:180-200 | a BYDAY token names a weekday if and only if it is the name with signs and digits before it, or none |
| IcalRules.NumberIsRead | src/calendar/ical_parser.cpp:74-78 | a decimal number up to the maximum of `int` is read back |
| IcalRules.IntegerIsRead | src/calendar/ical_parser.cpp:74-78 | a number with or without a minus, with zeros before it and anything but a digit behind it, is read as itself if it fits an `int`, and as 0 otherwise |
| IcalRules.NoInteger | src/calendar/ical_parser.cpp:74-78 | a text that does not begin with a digit, or a minus and a digit, is read as 0 |
| IcalRules.UnknownFreqStays | src/calendar/ical_parser.cpp:230-238 | a frequency the reader does not know leaves the one read before |
| IcalRules.PartsAreRead | src/calendar/ical_parser.cpp:216-262 | rule parts joined by semicolons are read one after another |
| IcalRules.RuleReadsBack | src/calendar/ical_parser.cpp:216-262 | a rule written in parts in the form of section 3.3.10 of RFC 5545, in any order, with any of them left out and unknown parts among them, is read as what the parts say and the default of each part that is missing |
| IcalRules.EveryRuleIsWritten | src/calendar/ical_parser.cpp:216-262 | every rule the expansion supports has such a writing, with COUNT, INTERVAL, UNTIL and BYDAY only where needed, and is read back from it |
| IcalRules.ExdateListIsRead | src/calendar/ical_parser.cpp:505-517 | a comma-separated EXDATE appends the instants of its pieces in order, each read with the parameters of the line; pieces that cannot be read add none |
| IcalRoundTrip.UnfoldReadsFolds | src/calendar/ical_parser.cpp:15-43 | lines folded at any points, with CRLF or LF and space or tab, are read as their content; a carriage return before a bare line feed is lost |
| IcalRoundTrip.UnfoldUndoesFolding | src/calendar/ical_parser.cpp:15-43 | unfolding gives back the logical lines if and only if no piece that ends in a carriage return is ended by a bare line feed |
| IcalRoundTrip.UnescapeUndoesEscape | src/calendar/ical_parser.cpp:45-65 | unescaping undoes the escaping of section 3.3.11 of RFC 5545 for every text |
| IcalRoundTrip.EscapeLength | src/calendar/ical_parser.cpp:45-65 | a text is its own escaped form exactly when none of its characters needs escaping |
| IcalRoundTrip.PropertyIsRead | src/calendar/ical_parser.cpp:80-110 | a property line with a name free of delimiters and parameters free of colons is split at the right places |
| IcalRoundTrip.ParamsAreRead | src/calendar/ical_parser.cpp:92-107 | whatever parameters a line has, in any order: the zone is that of the last TZID, and the value is a date if and only if some parameter is VALUE=DATE |
| IcalRoundTrip.LineIsRead | src/calendar/ical_parser.cpp:478-518 | each property of an event, with any parameters, sets what it says and nothing else: UID, SUMMARY, LOCATION, DTSTART with its zone, civil day and time, DTEND, RRULE, RECURRENCE-ID, EXDATE; a date that cannot be read sets nothing |
| IcalRoundTrip.AllLinesAreRead | src/calendar/ical_parser.cpp:478-518 | lines in any order, no property twice but EXDATE: the event has what every line says, the EXDATE instants in order, and defaults for what no line says |
| IcalRoundTrip.EventIsRead | src/calendar/ical_parser.cpp:452-519 | a VEVENT block, its properties in any order and unknown ones among them, adds exactly one event with all that its lines say, ending when it starts if no end can be read; without a start that can be read it adds none |
| IcalRoundTrip.EventsAreRead | src/calendar/ical_parser.cpp:452-519 | any number of blocks add exactly their events, in order |
| IcalRoundTrip.TextRoundTrip | src/calendar/ical_parser.cpp:425-519 | for any events, properties in any order: escaping, folding, unfolding, parsing and unescaping give back texts, dates, zones, rule, RECURRENCE-ID and EXDATEs; the UID comes back too if and only if it needs no escaping |
| IcalRoundTrip.CommaInUidStaysEscaped | src/calendar/ical_parser.cpp:479-480 | the UID `a,b`, escaped as RFC 5545 asks, comes back as `a\,b` |
| IcalOverrides.ExclusionsOnlyRemove | src/calendar/ical_parser.cpp:327-349 | EXDATEs only remove: the events shown with them are those shown without, less the ones within twelve hours of an EXDATE, and ordinals stay as they were |
| IcalOverrides.OneExdateRemovesAtMostOne | src/calendar/ical_parser.cpp:324-331 | on the UTC and floating path one EXDATE removes at most one occurrence |
| IcalOverrides.OverridesReplaceTheirSlots | src/calendar/ical_parser.cpp:521-541 | on that path a set of overridden instants takes exactly their occurrences out, and these still count toward COUNT |
| IcalOverrides.OverrideStandsAlone | src/calendar/ical_parser.cpp:521-544 | an override without a rule is shown, and no event of its master is within twelve hours of the instant it replaces |
| IcalOverrides.OverridesIgnoreOrder | src/calendar/ical_parser.cpp:524-529 | which instants are excluded does not depend on the order of the blocks |
| IcalOverrides.EventsIgnoreOrder | src/calendar/ical_parser.cpp:524-544 | any arrangement of the same parsed blocks gives the same events, counted with multiplicity |
| IcalOverrides.BlockIsLocal | src/calendar/ical_parser.cpp:452-477 | what a block adds does not depend on what was read before it |
| IcalOverrides.CalendarIsRead | src/calendar/ical_parser.cpp:452-519 | a calendar is read block by block, in order; lines before, between and after the VEVENT blocks add nothing |
| IcalOverrides.BlockOrderIsIrrelevant | src/calendar/ical_parser.cpp:425-545 | for texts, however folded and whatever lines stand around the blocks: rearranging the VEVENT blocks rearranges the events and changes none |
| IcalMeaning.SingleEventsInOrder | src/calendar/ical_parser.cpp:531-536 | a text without recurring events has the event of each VEVENT, as it stands and in their order |
| IcalMeaning.EventsAreGiven | src/calendar/ical_parser.cpp:425-545 | the events of a text are exactly those that its VEVENTs give: a single event itself, and a recurring one the expansion of its series |
| IcalMeaning.SeriesIsExpanded | src/calendar/ical_parser.cpp:524-541 | the series of a VEVENT has its event, rule, zone and window, and leaves out its EXDATEs and the instances that any VEVENT of its UID replaces |
| IcalMeaning.SeriesMeans | src/calendar/ical_parser.cpp:524-541 | what a series gives is, moved to it, an occurrence that COUNT admits, in the window, not within half a day of an EXDATE or of a replaced instance; and each such occurrence within the budget has its event |
| Toml.Merge | src/config/config_service.cpp:1363-1376 | overlaying a table gives a table |
| Toml.DeepMerge | src/config/config_service.cpp:1363-1376 | the key loop, in any order of the keys, computes the overlay that the algebra below describes |
| Toml.MergeIdempotent | src/config/config_service.cpp:1363-1376 | merging a tree over itself changes nothing |
| Toml.EmptyIsIdentity | src/config/config_service.cpp:1363-1376 | the empty table is a two-sided identity |
| Toml.MergeAbsorbs | src/config/config_service.cpp:1363-1376 | an operand merged in once more, below or above, adds nothing |
| Toml.MergeAtPath | src/config/config_service.cpp:1363-1376 | what is at any path after a merge, from what was there in each tree |
| Toml.OverlayLeafWins | src/config/config_service.cpp:1363-1376 | every leaf of the overlay is at its path in the result |
| Toml.CoversIffNothingAdded | src/config/config_service.cpp:1363-1376 | a merge gives back its overlay if and only if the overlay has every key of the base wherever both are tables |
| Toml.AssociativeExactlyWhen | src/config/config_service.cpp:1363-1376 | merging three trees is associative if and only if no leaf of the middle one separates a table from an incomplete table |
| Toml.MergeAssociative | src/config/config_service.cpp:1363-1376 | merging is associative when the second and third tree agree on which paths are tables |
| Toml.MergeCompatible | src/config/config_service.cpp:1363-1376 | compatibility of kinds survives merging |
| Toml.NotAssociative | src/config/config_service.cpp:1363-1376 | a table, a leaf and a table at one key: the grouping decides whether the first table survives |
| Includes.ReadInclude | src/config/config_merge.cpp:48-66 | the `[include]` table is read with its defaults, and entries that are not strings are passed over |
| Includes.Includer.LoadAndExpand | src/config/config_merge.cpp:119-135 | a file that cannot be parsed contributes nothing and reports the first error; others are expanded |
| Includes.Includer.ExpandFile | src/config/config_merge.cpp:76-117 | a file already visited contributes nothing; others contribute their includes overlaid by their own body; the walk ends on every include graph |
| Includes.Includer.ExpandEntry | src/config/config_merge.cpp:92-110 | a directory entry contributes its files in order, a missing one an error |
| Includes.Includer.ScanRoots | src/config/config_merge.cpp:145-171 | the parseable roots in order, whether one opts out, and the first parse error |
| Includes.Includer.MergeRoots | src/config/config_merge.cpp:173-181 | the load set, all roots or only those that opt out when there are any, is merged in order |
| Includes.MergeConfigWithIncludes | src/config/config_merge.cpp:139-184 | the whole function: the merged tree and the lists of files, directories and the first error |
| IncludeProofs.PerformWalks | src/config/config_merge.cpp:92-135 | any stretch of the walk enters and leaves each new file once, leaves only paths that its steps reach by paths it left, settles every include of what it left, and reports an error exactly when a step failed |
| IncludeProofs.ExpandWalks | src/config/config_merge.cpp:76-117 | the same for one file |
| IncludeProofs.PerformFlattens | src/config/config_merge.cpp:76-117 | when the files it leaves agree on which paths are tables, merging while walking is one left fold of `deepMerge` over their bodies in the order they are left |
| IncludeProofs.MergeConfigFlattens | src/config/config_merge.cpp:139-184 | the merged configuration is that fold over the files loaded, in finishing order, if these are of compatible kinds, and it has no top-level `include` key in any case |
| IncludeProofs.LoadedAtMostOnce | src/config/config_merge.cpp:81-86 | each file is loaded at most once, on every include graph, cyclic or not |
| IncludeProofs.LoadedIsExactlyReachable | src/config/config_merge.cpp:76-184 | the files loaded are among those that the load set reaches, and all of them if any two reached paths of one file open the same files, which is sufficient but not necessary |
| IncludeProofs.LoadedThroughLoaded | src/config/config_merge.cpp:76-184 | on every include graph, links included: a file is loaded if and only if the load set reaches it by paths that files were loaded from |
| IncludeProofs.LinkHidesAnInclude | src/config/config_merge.cpp:81-91 | four files where it fails: one file reached by two paths includes, relative to each, another file; only what is beside the first path is loaded |
| IncludeProofs.IncoherentButLoaded | src/config/config_merge.cpp:81-91 | the condition is not necessary: what one path hides may be loaded by another way |
| IncludeProofs.ErrorExactlyWhenSomethingIsMissing | src/config/config_merge.cpp:104-133 | an error is reported if and only if a root does not parse, or a file loaded includes something that is missing or does not parse |
| IncludeProofs.LoadedRootsAre | src/config/config_merge.cpp:173-181 | the load set is the roots that opt out when there are any, and all roots otherwise |
| IncludeOrder.DirectiveSays | src/config/config_merge.cpp:48-66 | a file opts out by `autoload = false` alone, `autoload` defaults to true unless it is a flag, and only an array names files |
| IncludeOrder.StringsJoin | src/config/config_merge.cpp:58-64 | the files named are the strings of the array in order, items of other kinds skipped |
| IncludeOrder.RootStepsAre | src/config/config_merge.cpp:145-181 | the walk opens, in the order they are found, all roots that parse, or only those that say `autoload = false` when one does |
| IncludeOrder.FirstErrorIsReported | src/config/config_merge.cpp:104-133 | on every include graph the first step that cannot be taken is the one reported, whatever comes after it |
| IncludeOrder.FirstRootErrorIs | src/config/config_merge.cpp:145-158 | of the roots that do not parse the first is reported, before anything found in the walk |
| IncludeOrder.EntriesInOrder | src/config/config_merge.cpp:92-112 | entries that stand for files without includes, for directories of them or for nothing: the files are overlaid in the order they are named, the directories noted, the first missing entry reported |
| IncludeOrder.FileOverItsIncludes | src/config/config_merge.cpp:76-117 | the own settings of a file are laid over those of the files it includes, in their order; it is loaded before them and left after them |
| IncludeOrder.PlainRootsInOrder | src/config/config_merge.cpp:139-184 | the configuration of roots without includes is their settings, each over those of the roots before it |
| OverridePaths.PruneEmptyOverrideTables | src/config/config_overrides.cpp:634-661 | the upward loop removes the tables that the recursive description prunes |
| OverridePaths.EraseOverridePath | src/config/config_overrides.cpp:663-682 | whether a node was erased, and the tree without it and without the ancestors it leaves empty; a missing path changes nothing |
| OverridePaths.PruningIsErase | src/config/config_overrides.cpp:634-682 | erasing a key and pruning upwards is one erasure downwards, which the lemmas below describe |
| OverridePaths.SetReadsBack | src/config/config_overrides.cpp:438-598 | any value that was set, a list of behaviours or filters too, is found at its path, and the order of its keys beside it |
| OverridePaths.SetKeepsUnrelated | src/config/config_overrides.cpp:438-598 | of the paths neither above nor below the one set, those of the order written beside it read as that order, and every other reads as before |
| OverridePaths.EraseKeepsUnrelated | src/config/config_overrides.cpp:663-682 | erasing a path changes no unrelated path |
| OverridePaths.EraseRemovesBelow | src/config/config_overrides.cpp:663-682 | after erasing, nothing is left at or below the path |
| OverridePaths.ErasePrunesExactly | src/config/config_overrides.cpp:634-682 | an ancestor goes if and only if it held nothing but the erased path and no table from it down to the path is preserved |
| OverridePaths.SetThenEraseRestores | src/config/config_overrides.cpp:634-682 | setting any value and erasing its path restores the tree if and only if: for a value without an order, the path was absent, its ancestors are tables, none that would be pruned was empty and none that is preserved was missing; for one with an order, the path was absent and that very order was there |
| OverridePaths.SetThenClearRestores | src/config/config_overrides.cpp:1647-1655 | setting any value and clearing its path, as `clearOverrides` does with the order of the idle behaviours, restores the tree if and only if it was undoable: restorable, with no order of the idle behaviours there before if the path is theirs; and for any other value with an order, as for erasing |
| OverridePaths.IdleOrderGoes | src/config/config_overrides.cpp:1645-1656 | clearing the idle behaviours leaves neither them nor their order; clearing any other path erases it alone |
| OverridePaths.ClearedFiltersLeaveTheirOrder | src/config/config_overrides.cpp:576-583 | a list of notification filters set on an empty table and cleared again leaves `notification.filter_order` behind |
| OverridePaths.RestorableWithoutPreserve | src/config/config_overrides.cpp:634-682 | without a preserved depth that is: an absent path, no proper prefix of which is a leaf or an empty table |
| OverrideEdits.SetPathReadsBack | src/config/config_overrides.cpp:1570-1598 | after `setOverrides` with any list, a value set, and the order beside it, is found unless a later setting overwrites it or a path that matters to it is trimmed |
| OverrideEdits.TakenOutIsGone | src/config/config_overrides.cpp:1587-1598 | a path trimmed for having no effect is gone with all below it, and so is the order of the idle behaviours with them |
| OverrideEdits.OneSettingReadsBack | src/config/config_overrides.cpp:1570-1598 | after setting one value it is found if and only if it has an effect or its presence alone means something |
| OverrideEdits.SettingKeepsOthers | src/config/config_overrides.cpp:1570-1598 | what no setting names and no clearing of one would touch reads as before |
| OverrideEdits.PresenceMatters | src/config/config_overrides.cpp:684-693 | presence alone means something for the type of a widget and the three sections of a bar on a monitor, and for nothing else |
| OverrideEdits.ClearedPathIsGone | src/config/config_overrides.cpp:1645-1656 | after `clearOverrides` with any list every path of it is gone with all below it, and the order of the idle behaviours with them if they were there |
| OverrideEdits.ClearingKeepsOthers | src/config/config_overrides.cpp:1645-1656 | what no clearing touches reads as before |
| OverrideEdits.FoundIsChange | src/config/config_overrides.cpp:1645-1662 | clearing changes the table if and only if one of the paths was there at first |
| OverrideStore.Introduced | src/config/schema/diagnostics.h:72-91 | exactly the errors of the candidate that the baseline does not have |
| OverrideStore.AcceptableIs | src/config/config_overrides.cpp:1161-1195 | a table is acceptable if and only if both can be diagnosed, every error of the new one is an error the old one had too, and none concerns the whole document |
| OverrideStore.ConfigService.ValidateOverrideMutation | src/config/config_overrides.cpp:1161-1195 | a table is accepted if and only if the file could be parsed, both tables can be diagnosed, the candidate has no document error and no error that the baseline has not |
| OverrideStore.ConfigService.WriteOverridesToFile | src/config/config_overrides.cpp:2130-2152 | the file is replaced if and only if the table is acceptable after the persisted one and can be written; otherwise nothing is written and memory falls back to what is persisted |
| OverrideStore.ConfigService.TrimAll | src/config/config_overrides.cpp:1587-1598 | overrides without effect whose presence does not matter are erased again, the idle behaviours with their order; `OverrideEdits` says what is then found at every path |
| OverrideStore.ConfigService.Commit | src/config/config_overrides.cpp:1605-1626 | an edited table is written and loaded again, or everything stays as it was |
| OverrideStore.ConfigService.SetOverrides | src/config/config_overrides.cpp:1560-1625 | when the call succeeds, when it changes anything, and that it writes the table of which `OverrideEdits.SetPathReadsBack` and its neighbours say what is at every path; on every failure the state is as before, and outside the parse-error state memory equals what is persisted |
| OverrideStore.ConfigService.ClearOverrides | src/config/config_overrides.cpp:1635-1682 | the same for erasing paths: nothing found is success without a change, and in the table written every path cleared is gone |
| OverrideStore.ConfigService.LoadOverridesFromFile | src/config/config_service.cpp:1237-1267 | an absent file gives empty tables, a parsed one itself twice, and one that cannot be parsed an empty table in memory, its error, and the persisted table untouched |
| OverrideStore.MigrateOverrides | src/config/config_service.cpp:1430-1442 | the overrides as a file of the current version holds them, if they are of an older one |
| OverrideStore.MigratedOnce | src/config/config_service.cpp:1430-1442 | a table written back by a load is of the current version, so no later load writes it again |
| OverrideStore.UpgradedFrom | src/config/config_migrations.cpp:146-205 | what each stored version leads to: none or 0 to both migrations in order, 1 to the schedule alone, 2 and any unknown version to nothing, and a migrated table says version 2 |
| OverrideStore.WritesBack | src/config/config_service.cpp:1528-1538 | a load writes back exactly what the current version makes of an older table, if the configuration is usable, the file can be written and the table is acceptable after the persisted one |
| OverrideStore.OldTableIsWrittenBack | src/config/config_service.cpp:1430-1538 | so a table without a version is written back with both migrations applied |
| OverrideStore.ConfigService.LoadAll | src/config/config_service.cpp:1428-1442 | a load writes the migrated table back exactly when it is needed, usable, acceptable and can be written, and restores the table when it cannot |
| OverrideStore.AdvancesAgain | src/config/config_overrides.cpp:1560-1682 | what one edit or reading may do and what the next may do compose to what a run may do |
| OverrideStore.PersistedIsLatest | src/config/config_service.cpp:931-944 | after any run what is persisted is what was last written or read; a file that cannot be parsed leaves it as it was |
| OverrideStore.ParseErrorIsLatest | src/config/config_service.cpp:931-944 | there is a parse error exactly when the file was unparsable when it was last read |
| OverrideStore.RunsAreSafe | src/config/config_overrides.cpp:1161-1195 | over any run of edits, loads and readings of the file: whatever is written is written while the file can be parsed, has no document-level error, and has no error that the table persisted at that moment had not |
| OverrideStore.ErrorsNeverGrow | src/config/config_overrides.cpp:1161-1195 | between two readings of the file the error set of what is persisted never grows |
| OverrideStore.Reopen | src/config/config_service.cpp:931-944 | a changed file is read and loaded: nothing is written over one that cannot be parsed, and memory and file agree again once it can |
| OverrideStore.Run | src/config/config_overrides.cpp:1560-1682 | any sequence of edits, loads and readings of a changed file, parsable or not, stays within that, and keeps memory equal to what is persisted outside the parse-error state, however often it is entered and left |
| Migrations.ActualIsSound | src/config/config_migrations.cpp:17-20 | the names the program uses do not clash, so what follows holds of them |
| Migrations.MigrateNegativeRadii | src/config/config_migrations.cpp:22-39 | the key loop makes every negative radius positive, marks the corners concave if there was one, and says so |
| Migrations.MigrateMonitors | src/config/config_migrations.cpp:60-66 | the same for every monitor table of a bar, with the names of those changed |
| Migrations.MigrateBar | src/config/config_migrations.cpp:47-67 | the same for a bar and its monitors |
| Migrations.MigrateNegativeBarRadii | src/config/config_migrations.cpp:41-69 | the same for all bars; the places reported are exactly the tables with a negative radius |
| Migrations.MigrateCustomSchedule | src/config/config_migrations.cpp:80-101 | the switch is turned on exactly where times are set and nothing else says where the sun is; reported exactly then |
| Migrations.NormalizeLegacyConfig | src/config/config_migrations.cpp:207-222 | both together, with exactly the legacy places reported |
| Migrations.NormalizedIsIdempotent | src/config/config_migrations.cpp:207-222 | normalising a normalised tree changes nothing |
| Migrations.NormalizedIsSilent | src/config/config_migrations.cpp:207-222 | nothing is reported of a normalised tree |
| Migrations.NormalizedTouchesOnly | src/config/config_migrations.cpp:22-101 | every leaf outside the radius keys, `concave_edge_corners` and `custom_schedule` stays as it is, and no other appears |
| Migrations.OtherRadiiStay | src/config/config_migrations.cpp:22-39 | in a bar or monitor a radius that is not negative stays as it is, and so does `concave_edge_corners` where no radius is negative |
| Migrations.OtherLocationsStay | src/config/config_migrations.cpp:80-101 | a location that already has the switch, or some other source of the times, stays as it is |
| Migrations.NegativeRadiiBecomePositive | src/config/config_migrations.cpp:22-39 | where radii are negative, each becomes its magnitude, from 1 to 500, and the corners turn concave |
| Migrations.RadiusIsMadePositive | src/config/config_migrations.cpp:22-69 | by path: a negative radius of any bar or monitor becomes its magnitude, 500 at most, `concave_edge_corners` beside it becomes true, and the bar or monitor is reported |
| Migrations.ScheduleIsSwitchedOn | src/config/config_migrations.cpp:80-101 | by path: `location.custom_schedule` becomes true, and is reported, if and only if it was absent, sunset and sunrise were given, and neither coordinates, an address nor automatic location were; otherwise it stays |
| Migrations.StoredVersion | src/config/config_migrations.cpp:165-191 | a stored version that is accepted lies between 0 and the current one |
| Migrations.VersionIsRead | src/config/config_migrations.cpp:165-191 | a tree that says no version is of version 0, an integer is read as itself if the program knows that version, and a table is refused |
| Migrations.ApplyPendingConfigMigrations | src/config/config_migrations.cpp:193-205 | the migrations past the stored version are applied in order, and the version reached is that of the last |
| Migrations.MigratingAgainIsIdentity | src/config/config_migrations.cpp:193-205 | nothing is pending at the version reached |
| Migrations.UpgradesCompose | src/config/config_migrations.cpp:193-205 | an upgrade by way of an older release ends where a direct one does |
| Fingerprints.HexIsInjective | src/config/config_migrations.cpp:224-228 | sixteen hexadecimal digits tell any two 64-bit hashes apart |
| Fingerprints.HexReadsBack | src/config/config_migrations.cpp:224-228 | the hexadecimal digits read back as the number |
| Fingerprints.SplitFingerprint | src/config/config_migrations.cpp:125-140 | the comma loop yields exactly the non-empty pieces |
| Fingerprints.SplitOfJoin | src/config/config_migrations.cpp:125-140 | splitting a joined fingerprint gives back its entries |
| Fingerprints.Fingerprint | src/config/config_migrations.cpp:224-238 | the fingerprint joins the hexadecimal hashes, each once, and splits back to exactly them |
| Fingerprints.HasNewIssues | src/config/config_migrations.cpp:240-244 | some entry of the current fingerprint is not in the previous one |
| Fingerprints.NewIssuesAreNewHashes | src/config/config_migrations.cpp:224-244 | between fingerprints of issues that is exactly: some hash was not there before |
| Scheduler.RemainingMs | src/app/main_loop.cpp:426-428 | whole milliseconds left, never more than the deadline leaves and never less by a millisecond or more, none when it has passed, at most the maximum of `int` |
| Scheduler.LeftIs | src/app/main_loop.cpp:412-432 | what is left to each source in its turn: the whole milliseconds to its deadline at that moment, and -1 if it has none |
| Scheduler.MainLoop.Prune | src/app/main_loop.cpp:386-393 | exactly the sources that are gone lose their deadlines |
| Scheduler.MainLoop.Arm | src/app/main_loop.cpp:412-428 | a vote arms or brings forward the deadline, a negative one drops it, and no other source is touched |
| Scheduler.MainLoop.ArmAll | src/app/main_loop.cpp:395-432 | the timeout is exactly the least of what is left to the sources that ask, each as it votes, and -1 when none asks |
| Scheduler.MainLoop.DispatchPass | src/app/main_loop.cpp:583-601 | each source found ready or due, and still in the provider's list at its turn, is dispatched in order and loses its deadline |
| Scheduler.MainLoop.Iterate | src/app/main_loop.cpp:376-601 | one iteration: the events it adds and the exact poll timeout: the least time left, or -1 when no source asks; 0 instead while a frame is pending; and at least 16 ms, unless it is endless, while a flush is blocked |
| Scheduler.DeadlineIsEarliest | src/app/main_loop.cpp:412-424 | a stored deadline is the earliest time its source has asked for, so many milliseconds after its vote, since its last dispatch, its last negative vote or its last absence; without such a request there is none |
| Scheduler.DeadlineNeverLater | src/app/main_loop.cpp:418-424 | until it is dropped a deadline never moves later |
| Scheduler.ArmedDeadlines | src/app/main_loop.cpp:386-424 | before an iteration waits, a source that is gone has no deadline, and one listed once has the earlier of its old one and the one it asks for, or none if it asks for none |
| Scheduler.DispatchedWhenWoken | src/app/main_loop.cpp:583-601 | the first sources of a pass are dispatched if and only if they were woken and found |
| Scheduler.DispatchesInOrder | src/app/main_loop.cpp:583-601 | sources are dispatched in the order they are listed in |
| Scheduler.DueOnce | src/app/main_loop.cpp:583-601 | a deadline serves for one dispatch: a source listed twice is dispatched again in the same pass only if its descriptor is ready |
| Scheduler.PassDispatchesWoken | src/app/main_loop.cpp:583-601 | a pass dispatches exactly the sources that are ready or due and still in the provider's list; after it no source found there is overdue |
| Scheduler.DeadlineIsMet | src/app/main_loop.cpp:376-601 | in every run, the first pass at or after a deadline that finds the source live dispatches it, unless an earlier pass did, as long as the source stays listed and keeps asking |
| Scheduler.Run | src/app/main_loop.cpp:307-601 | the deadlines held after any run are those that its events set |
| DeferredCalls.DeferredCall.PushBack | src/core/deferred_call.cpp:80-83 | the first critical section appends the callback |
| DeferredCalls.DeferredCall.WakeMainLoop | src/core/deferred_call.cpp:54-70 | afterwards the pipe has a byte, whether this one or, when it was full, another |
| DeferredCalls.DeferredCall.CallLater | src/core/deferred_call.cpp:79-85 | both sections in order |
| DeferredCalls.DeferredCall.TakePending | src/core/deferred_call.cpp:87-92 | the whole queue is taken, in order, and left empty |
| DeferredCalls.DeferredCall.DrainWakeFd | src/core/deferred_call.cpp:94-113 | the loop of reads of 64 bytes empties the pipe |
| DeferredCalls.DeferredCall.Dispatch | src/app/deferred_call_poll_source.h:11-22 | run on its own, a dispatch empties the pipe if it was readable and runs exactly the queue, in order |
| DeferredCalls.StepKeepsInvariant | src/core/deferred_call.cpp:54-113 | every step of any thread keeps: a queued call has a byte, a thread about to write one or a main loop about to take; and calls stay in order |
| DeferredCalls.EveryRunKeepsInvariant | src/core/deferred_call.cpp:54-113 | so does every interleaving of producers, callbacks that call later themselves, and the main loop with its reads one by one |
| DeferredCalls.NoLostWakeUp | src/core/deferred_call.cpp:54-113 | the main loop never sleeps in `poll` on a call that no thread is about to wake it for |
| DeferredCalls.RunInPushOrder | src/app/deferred_call_poll_source.h:11-22 | calls run at most once, in the order of the pushes; whenever the loop is back in `poll`, all those pushed before it last returned have run |
| DeferredCalls.TraceReaches | src/core/deferred_call.cpp:54-113 | a run is a sequence of states, each got from the one before by a step that could be taken |
| DeferredCalls.WorkBringsNearer | src/core/deferred_call.cpp:54-113 | every step but a new call or a return of `poll` for another source lowers a measure: no part of the loop, the drain included, goes on for ever |
| DeferredCalls.NeverStuck | src/core/deferred_call.cpp:54-113 | unless the loop sleeps in `poll` with an empty queue and an empty pipe, some such step can be taken |
| DeferredCalls.EveryCallIsRun | src/app/deferred_call_poll_source.h:11-22 | from wherever a run gets, such steps lead to that sleep, and then every call pushed has been run |
| Pixels.Source | src/capture/screencopy_util.cpp:22-171 | the pixel an output transform takes from lies inside the image |
| Pixels.TransformsCompose | src/capture/screencopy_util.cpp:143-171 | the eight output transforms are closed under composition, with the composed transform given: pixel by pixel, for every size |
| Pixels.InverseUndoes | src/capture/screencopy_util.cpp:143-171 | 90 and 270 undo each other; 180 and the four flipped transforms are their own inverses |
| Pixels.CodesMean | src/capture/screencopy_util.cpp:143-171 | for each of the eight codes, and for any other number, the size of the turned picture and the point each pixel of it comes from |
| Pixels.RowsAreRgba | src/capture/screencopy_capture.cpp:170-204 | the picture that bytes show: rows from the top, pixels from the left, four bytes each |
| Pixels.TransformedTwice | src/capture/screencopy_util.cpp:157-167 | on pictures: one transform after another shows what the composed one shows |
| Pixels.SwapBytes | src/capture/screencopy_util.cpp:34-36 | the byte loop exchanges two pixels and nothing else |
| Pixels.SwapPixels | src/capture/screencopy_util.cpp:31-36 | the same by coordinates: distinct coordinates are distinct pixels |
| Pixels.CopyPixel | src/capture/screencopy_util.cpp:76-80 | one pixel of the target becomes the source pixel, the others stay |
| Pixels.StorePixel | src/capture/screencopy_capture.cpp:173-203 | one pixel of the target is written, the others stay |
| Pixels.Image.FlipRgbaHorizontal | src/capture/screencopy_util.cpp:22-39 | in place, the image is mirrored left to right; an empty image stays as it is |
| Pixels.Image.FlipRgbaVertical | src/capture/screencopy_util.cpp:41-59 | in place, the row exchange is a mirror followed by a half turn |
| Pixels.Image.HalfTurnPixel | src/capture/screencopy_util.cpp:98-111 | a pixel is exchanged with its opposite exactly when neither has been met |
| Pixels.Image.RotateRgba180 | src/capture/screencopy_util.cpp:89-113 | in place, every mirror pair is exchanged once: a half turn |
| Pixels.Image.RotateRgbaCw90 | src/capture/screencopy_util.cpp:61-87 | a clockwise quarter turn with width and height exchanged |
| Pixels.Image.RotateRgbaCw270 | src/capture/screencopy_util.cpp:115-141 | three clockwise quarter turns |
| Pixels.Image.ApplyOutputTransform | src/capture/screencopy_util.cpp:143-171 | each code applies its transform, mirror first; the single vertical flip used for FLIPPED_180 is the mirror followed by the half turn; other codes change nothing |
| Pixels.Image.OrientCaptureToLogical | src/capture/screencopy_util.cpp:187-195 | the output transform if needed, then the overturning of an inverted capture, whose flag is cleared |
| Convert.BytesPerPixelFromStride | src/capture/screencopy_capture.cpp:70-81 | a row of the accepted size fits the stride, and a size is found if and only if three bytes a pixel fit |
| Convert.PackedDecodes | src/capture/screencopy_capture.cpp:100-157 | for all eight packed formats a pixel decodes to the top eight bits of each ten-bit colour, and to its alpha where the format has one |
| Convert.PlainDecodes | src/capture/screencopy_capture.cpp:186-197 | a pixel packed as alpha, red, green and blue, or alpha, blue, green and red, from the top of a little-endian word decodes to these, its alpha 255 if the format has none |
| Convert.BytesDecode | src/capture/screencopy_capture.cpp:176-202 | three bytes are red, green and blue whatever the format, and so are the first three of a format that is not known |
| Convert.ConvertPixel | src/capture/screencopy_capture.cpp:174-203 | a pixel is read inside the frame and written to its place |
| Convert.ConvertToRgba | src/capture/screencopy_capture.cpp:159-207 | succeeds if and only if three bytes a pixel fit the stride, reads only inside `stride * height` bytes, and shows every pixel of the frame, upside down when inverted; a frame without rows gives no bytes |
| Convert.RowsAreShown | src/capture/screencopy_capture.cpp:168-204 | of a source laid out in rows of pixels and padding, the picture shows at each point the pixel of its column and row, counted from the bottom when inverted |
| Convert.InvertedIsOverturned | src/capture/screencopy_capture.cpp:170-172 | a frame converted as inverted is the frame converted as it is and then flipped vertically |
| Canvas.LRound | src/capture/screenshot_service.cpp:418 | rounding moves by at most one half |
| Canvas.ScaledSum | src/capture/screenshot_service.cpp:418 | scaling a sum and adding scaled parts differ by at most one |
| Canvas.BlitOpaqueRgba | src/capture/screenshot_service.cpp:341-360 | the canvas shows the picture on exactly the part of its rectangle that lies on it, and what it showed elsewhere; nothing changes for a place off the left or top edge |
| Canvas.TopIsLast | src/capture/screenshot_service.cpp:341-360 | of the pictures over a point the last one shows, at the distance of the point from its corner |
| Canvas.TopIsBlank | src/capture/screenshot_service.cpp:341-360 | where there is no picture the canvas is transparent |
| Canvas.CropSpan | src/capture/screenshot_service.cpp:114-129 | the pixels kept are exactly those that overlap the scaled stretch, at least one if there are any |
| Canvas.TouchesIs | src/capture/screenshot_service.cpp:126-129 | which pixels overlap a stretch, in whole numbers: those that end after it begins and begin before it ends |
| Canvas.CropFrozenRegion | src/capture/screenshot_service.cpp:108-151 | nothing if and only if the picture is empty or no part of the region is on the output; otherwise exactly the pixels that overlap it, copied in place, all read inside the source |
| Canvas.ClippedIsThePartExactlyWhen | src/capture/screenshot_service.cpp:117-121 | what is cropped is the part of the region on the output if and only if the region does not begin before the output, is empty or reaches to its other end: one that begins before it is moved onto it, not cut |
| Canvas.IntersectGlobalRegion | src/capture/screenshot_service.cpp:362-394 | one target for each usable output that the region meets, in order, whose local rectangle is exactly the common part |
| Canvas.MeetsIs | src/capture/screenshot_service.cpp:362-394 | the region meets an output that is bound and not empty where the two overlap in both directions |
| Canvas.PartIs | src/capture/screenshot_service.cpp:362-394 | the target of an output is the overlap of the two rectangles, in coordinates of the output |
| Canvas.PartIsEnclosed | src/capture/screenshot_service.cpp:374-391 | a target put back into the layout lies inside the region |
| Canvas.CanvasScale | src/capture/screenshot_service.cpp:406-416 | the scale is the density of the sharpest piece, or one if none is sharper |
| Canvas.DensityIs | src/capture/screenshot_service.cpp:406-416 | the density of a piece gives each direction at least its pixels, and one of them just those |
| Canvas.NoTileShrinks | src/capture/screenshot_service.cpp:462-470 | no tile is resampled to fewer pixels than it has |
| Canvas.MeasureScale | src/capture/screenshot_service.cpp:406-416 | the loop computes that scale, or fails on a tile without output or extent |
| Canvas.BlitPieces | src/capture/screenshot_service.cpp:431-442 | the pieces end up one on another, or one of them could not be resampled |
| Canvas.PlaceIs | src/capture/screenshot_service.cpp:431-442 | a piece is put at the scaled place of its rectangle and made its scaled size, to the nearest pixel: as it is if it has that size, resampled otherwise; one that is empty or cannot be resampled has no place |
| Canvas.ComposeGlobalRegion | src/capture/screenshot_service.cpp:396-445 | when there is a result, its size, and that every pixel shows the last piece that covers it, or nothing |
| Canvas.PieceLosesAtMostOne | src/capture/screenshot_service.cpp:420-441 | a piece of the region starts on the canvas and loses at most one row and one column to clipping |
| Canvas.EdgesMeet | src/capture/screenshot_service.cpp:432-437 | where two tiles meet in the layout they meet on the canvas within one pixel |
| Canvas.TopLeft | src/capture/screenshot_service.cpp:472-477 | the smallest coordinates of the layout, each attained |
| Canvas.PlaceFrames | src/capture/screenshot_service.cpp:481-492 | every frame lies wholly on the canvas, which is no larger than it has to be |
| Canvas.StitchOutputFrames | src/capture/screenshot_service.cpp:447-509 | when there is a result, and that it is the smallest canvas that holds every frame unclipped, each pixel showing the last frame that covers it |
| Refresh.OrderIsIrrelevant | src/calendar/calendar_service.cpp:201-204 | in whatever order the accounts are taken, the events are the same, counted with multiplicity |
| Refresh.SortByStart | src/calendar/calendar_service.cpp:205 | a sorted arrangement of the same events |
| Refresh.CalendarService.RebuildSnapshot | src/calendar/calendar_service.cpp:193-208 | accounts no longer configured are forgotten, and the snapshot is the start-sorted union of what is left |
| Refresh.SnapshotHas | src/calendar/calendar_service.cpp:193-208 | a snapshot has the events of the accounts it is made of and no others, in the order of their start |
| Refresh.CalendarService.AccountDone | src/calendar/calendar_service.cpp:177-191 | events are replaced only on success; the refresh ends exactly when the count reaches zero, and then the snapshot is rebuilt |
| Refresh.CalendarService.Finish | src/calendar/calendar_service.cpp:177-191 | an account is done once; the count equals the accounts still outstanding; the last one ends the refresh, with new events for the configured accounts that succeeded, the old ones for those that failed, and none for any that is no longer configured |
| Refresh.CalendarService.Begin | src/calendar/calendar_service.cpp:165-174 | every account sends its first request or is done at once, as its settings say, and no other account is touched |
| Refresh.CalendarService.StartRefresh | src/calendar/calendar_service.cpp:158-175 | one refresh is started, with all accounts counted before any is fetched, each at its first request or done; it may end at once, and then has its snapshot |
| Refresh.CalendarService.CalDavDiscovered | src/calendar/calendar_service.cpp:226-258 | discovery fails the account, or starts one report for each collection |
| Refresh.CalendarService.CalDavReported | src/calendar/calendar_service.cpp:270-283 | the last report ends the account, successfully if any report succeeded |
| Refresh.CalendarService.GoogleListed | src/calendar/google_client.cpp:162-204 | the calendar list ends the fetch, or starts one request for each calendar |
| Refresh.CalendarService.GoogleEvents | src/calendar/google_client.cpp:218-237 | the last calendar ends the fetch, which is unauthorized if any of them was |
| Refresh.CalendarService.GoogleFetched | src/calendar/calendar_service.cpp:317-337 | an unauthorized fetch asks for a token once, if it may and can; every other ends the account |
| Refresh.CalendarService.TokenRefreshed | src/calendar/calendar_service.cpp:355-363 | a new token starts the second and last fetch |
| Refresh.CalendarService.Complete | src/calendar/calendar_service.cpp:210-365 | whatever request is answered next, its account goes on or ends as described, the requests and results of every other account stay as they are, and the counts and bounds are kept: at most two fetches and one token request for a Google account |
| Refresh.CalendarService.Reconfigure | src/calendar/calendar_service.cpp:90-105 | the accounts may change at any time; a disabled calendar forgets its events, and requests in flight stay counted |
| Refresh.CalendarService.Happen | src/calendar/calendar_service.cpp:177-365 | an answer or a change of the configuration takes each account to what the account's own history says |
| Refresh.CalendarService.Run | src/calendar/calendar_service.cpp:177-365 | over any answers and changes of the configuration, in any order, each account comes to what its own answers lead to; when the refresh has ended each was done once, and the events and the snapshot are those of the outcomes |
| Refresh.CalendarService.RefreshAll | src/calendar/calendar_service.cpp:158-365 | a whole refresh from its start, whatever comes in whatever order: it ends once, every account is done once, accounts that failed keep the events from before, and the snapshot is the start-sorted union over the configured accounts |
| Refresh.ReportsGather | src/calendar/calendar_service.cpp:266-285 | after any number of reports the account has the events of those that were good, in order; with the last it ends, without events only if none was good |
| Refresh.CalDavEnds | src/calendar/calendar_service.cpp:210-288 | a whole CalDAV account in any run: it ends with the events of all good reports, in order, and with none if discovery failed or found nothing or no report was good |
| Refresh.FetchEnds | src/calendar/google_client.cpp:162-237 | a Google fetch: refused if the list or any calendar was; failed if the list was; otherwise it yields the events of all calendars that could be read, in order |
| Refresh.GoogleEnds | src/calendar/calendar_service.cpp:317-365 | a whole Google account in any run: a token is asked for only if the stored one is not valid or the first fetch was refused, and the account ends with what the last fetch yields |
| Refresh.NothingToAsk | src/calendar/calendar_service.cpp:210-218 | an account that lacks what it needs ends without events and without a request |
| Refresh.BaseForgets | src/calendar/calendar_service.cpp:90-105 | the events from before are forgotten if and only if a disabled calendar came along |
| Refresh.AccountsAreLatest | src/calendar/calendar_service.cpp:90-105 | the accounts are those of the latest configuration |
| Refresh.InterleavingIsIrrelevant | src/calendar/calendar_service.cpp:210-365 | where an account ends depends on its own answers only, not on how they come among those of the others |
| Refresh.SameOutcomesSameEvents | src/calendar/calendar_service.cpp:177-208 | two refreshes from the same events in which every account came to the same leave the same events |
| Refresh.CalendarService.SomeInFlight | src/calendar/calendar_service.cpp:177-191 | while a refresh goes on some request is in flight: it never waits for nothing |
| Refresh.CalendarService.CompleteNearer | src/calendar/calendar_service.cpp:210-365 | every answer brings the whole refresh nearer to its end, in the order of stages and then of requests in flight |
| Refresh.CalendarService.AnswerAll | src/calendar/calendar_service.cpp:158-365 | if every request is answered, by whatever choice of the next account and of its answer, there are finitely many answers and the refresh ends |
| Refresh.RefreshingWhileOutstanding | src/calendar/calendar_service.cpp:177-191 | a refresh goes on exactly while an account is not done |

## Left out

- Wayland, EGL, D-Bus, HTTP, XML, inotify and process spawning: foreign calls; a write is a boolean outcome and a request an answer that arrives once.
- `parseDateTime` and the time-zone database: a function from properties to instants and a clock, with the assumption that instants increase strictly and stay within a day of the civil day.
- Overflow of `int` and of clock types: integers are unbounded, except where the source clamps or parses with a bound (`toInt`, stored versions, poll timeouts, bytes).
- Sub-second instants: seconds are whole, as the formats read give them.
- `IcalOverrides.OneExdateRemovesAtMostOne`: only for UTC and floating series, because local days can be shorter than the tolerance allows.
- VALARM and other components nested in a VEVENT: the line loop takes their properties for the event's, and so does the model; nothing is claimed about them.
- `IcalRoundTrip.PropertyIsRead`, and the lemmas on parameters and lines beside it: parameter values with a colon, which section 3.2 of RFC 5545 allows in quotes, are split at that colon by the parser.
- The time-of-day and duration of events beyond what expansion copies, and caches of events on disk.
- Sharing of tables in memory: trees are values, so `deepMerge`, `eraseOverridePath` and the migrations return the changed tree where the source changes it in place.
- `Includes.ReadInclude`: an `autoload` that is not a boolean is taken for absent; toml++, whose accessors may convert other kinds, is not part of this model.
- `Migrations.MigrateNegativeRadii`: how toml++ reads a floating-point or boolean value as an integer is a parameter; only integers are fixed.
- Comparison of widget and plugin settings behind `overridePathEffectiveInTable`: a function of the path and the table.
- Schema validation: a function from tables to diagnostics, fixed while the configuration directory is.
- Bar creation, renaming and deletion and the wallpaper setters: they change live state before they can fail and have no invariant of this kind.
- Text of diagnostics and log lines, and the order in which `firstError` is worded.
- `stableIssueHash`: hashes are any numbers of 64 bits; two issues with one hash count as one, as in the source.
- `IncludeProofs.LoadedIsExactlyReachable`: coherence of aliases is sufficient for loading all that is reached; it is not necessary, and which alias hides what depends on the order of the walk.
- `RecurrenceProofs.BudgetReachesWindow`: the reach is in whole days and sufficient only; the exact condition is `RecurrenceLimits.BackstopIsUnseenExactlyWhen`.
- The skipping of one change notice after the program's own write of the overrides: a reading of the file happens or does not.
- `Fingerprints.Fingerprint`: the entries are in some order; the source lists them ascending, which no property here needs.
- Reminder intervals, idle profiling, UI, panels and IPC: no hard property.
- Fatal Wayland and poll errors: they end the main loop by an exception.
- `DeferredCalls.NoLostWakeUp`: creating the wake pipe is taken to succeed; without it the source runs calls only once per iteration.
- Empty `std::function` callbacks: taken and skipped in their turn, here counted as run.
- The loop over rows is a loop over pixels where the source copies a row with `memcpy`.
- Resampling: a function that fails or gives a picture of the size asked for; its colours are not modelled, nor is rounding of `double` (scales are reals).
- The final uprightness of an inverted capture: conversion and orientation both act on the flag, and each is proved on its own.
- `captureNeedsOutputTransform`: its answer is a parameter of the orientation.
- Capture protocol, overlays and saving of screenshots: callbacks without a hard property.
- The Google connect flow: its weak guards against stale answers leave no natural invariant.
- HTTP answers that arrive while `startRefresh` still sends requests: answers are taken to come after it.
- Credentials, the event cache and the refresh timer: inputs of the refresh.

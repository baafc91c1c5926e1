/** The main loop's deadlines: each poll source is dispatched when a descriptor is ready or its deadline has passed. */
module Scheduler {
  import opened Wrappers

  /** A poll source, by its address. */
  type Source = nat

  /** A reading of the steady clock, in nanoseconds. */
  type Time = int

  const MILLISECOND: int := 1_000_000
  const INT_MAX: int := 0x7fff_ffff

  /** What can happen to a source's deadline. `Listed` opens an iteration with the sources there are; a vote below
      zero wants no timed wake. */
  datatype Event = Listed(sources: seq<Source>) | Voted(source: Source, now: Time, timeout: int) | Dispatched(source: Source)

  predicate Drops(e: Event, s: Source) {
    match e
    case Listed(sources) => s !in sources
    case Voted(source, _, timeout) => source == s && timeout < 0
    case Dispatched(source) => source == s
  }

  predicate Asks(e: Event, s: Source) {
    e.Voted? && e.source == s && e.timeout >= 0
  }

  function AskedTime(e: Event): Time
    requires e.Voted?
  {
    e.now + e.timeout * MILLISECOND
  }

  function Earlier(d: Option<Time>, t: Time): Time {
    if d.Some? && d.value < t then d.value else t
  }

  /** The deadline of a source after these events. */
  function Deadline(log: seq<Event>, s: Source): Option<Time> {
    if log == [] then None
    else
      var before, e := Deadline(log[..|log| - 1], s), log[|log| - 1];
      if Drops(e, s) then None
      else if Asks(e, s) then Some(Earlier(before, AskedTime(e)))
      else before
  }

  // ----- one iteration -----

  /** What an iteration meets: the sources and their votes, the clock, and after `poll` the ready descriptors and,
      for each source, the provider's list at the moment of its dispatch. */
  datatype Iteration = Iteration(sources: seq<Source>, votes: seq<int>, nowBeforePoll: Time,
                                 framePending: bool, flushBlocked: bool, interrupted: bool,
                                 nowAfterPoll: Time, fdReady: seq<bool>, latest: seq<seq<Source>>) {
    predicate Valid() {
      |votes| == |sources| && |fdReady| == |sources| && |latest| == |sources|
    }
  }

  function Votes(it: Iteration, n: nat): seq<Event>
    requires it.Valid() && n <= |it.sources|
  {
    if n == 0 then [] else Votes(it, n - 1) + [Voted(it.sources[n - 1], it.nowBeforePoll, it.votes[n - 1])]
  }

  predicate Due(log: seq<Event>, s: Source, now: Time) {
    Deadline(log, s).Some? && now >= Deadline(log, s).value
  }

  /** The dispatches of the first `n` sources, after the events of `log`. */
  function Dispatches(it: Iteration, log: seq<Event>, n: nat): seq<Event>
    requires it.Valid() && n <= |it.sources|
  {
    if n == 0 then []
    else
      var before, s := Dispatches(it, log, n - 1), it.sources[n - 1];
      if (it.fdReady[n - 1] || Due(log + before, s, it.nowAfterPoll)) && s in it.latest[n - 1]
      then before + [Dispatched(s)] else before
  }

  function Armed(log: seq<Event>, it: Iteration): seq<Event>
    requires it.Valid()
  {
    log + [Listed(it.sources)] + Votes(it, |it.sources|)
  }

  /** The events up to the end of an iteration; `EINTR` ends it after `poll`. */
  function AfterIteration(log: seq<Event>, it: Iteration): seq<Event>
    requires it.Valid()
  {
    Armed(log, it) + if it.interrupted then [] else Dispatches(it, Armed(log, it), |it.sources|)
  }

  predicate AllValid(its: seq<Iteration>) {
    forall i :: 0 <= i < |its| ==> its[i].Valid()
  }

  function AfterIterations(its: seq<Iteration>): seq<Event>
    requires AllValid(its)
  {
    if its == [] then [] else AfterIteration(AfterIterations(its[..|its| - 1]), its[|its| - 1])
  }

  /** `duration_cast` to milliseconds rounds toward zero; a deadline in the past leaves nothing. */
  function RemainingMs(d: Time, now: Time): (ms: int)
    ensures 0 <= ms <= INT_MAX
    ensures ms * MILLISECOND <= d - now || (ms == 0 && d < now)
    ensures ms == INT_MAX || d - now < (ms + 1) * MILLISECOND
  {
    if d < now then 0
    else var remaining := (d - now) / MILLISECOND; if remaining < INT_MAX then remaining else INT_MAX
  }

  /** What each of the first `n` sources was left of the time to its deadline when it voted, or -1. */
  ghost function Left(log: seq<Event>, it: Iteration, n: nat): (left: seq<int>)
    requires it.Valid() && n <= |it.sources|
    ensures |left| == n && forall k :: 0 <= k < n ==> (left[k] == -1 <==> it.votes[k] < 0) && -1 <= left[k] <= INT_MAX
  {
    if n == 0 then [] else Left(log, it, n - 1) + [LeftAfter(log + Votes(it, n), it.sources[n - 1], it.nowBeforePoll)]
  }

  ghost function LeftAfter(log: seq<Event>, s: Source, now: Time): int {
    match Deadline(log, s)
    case Some(deadline) => RemainingMs(deadline, now)
    case None => -1
  }

  /** The least of those that are left any, or -1. */
  ghost predicate IsLeast(left: seq<int>, ms: int) {
    && (ms < 0 ==> ms == -1 && forall k :: 0 <= k < |left| ==> left[k] < 0)
    && (ms >= 0 ==> ms in left && forall k :: 0 <= k < |left| && left[k] >= 0 ==> ms <= left[k])
  }

  lemma LeastSoFar(left: seq<int>, ms: int, next: int)
    requires IsLeast(left, ms) && next >= -1
    ensures IsLeast(left + [next], if next >= 0 && (ms < 0 || next < ms) then next else ms)
  {
    assert ms in left ==> ms in left + [next];
    assert (left + [next])[|left|] == next;
  }

  /** No deadline of these sources leaves less than this. */
  ghost predicate NoneSooner(deadlines: map<Source, Time>, sources: seq<Source>, now: Time, timeout: int) {
    forall s <- sources :: s in deadlines ==> 0 <= timeout <= RemainingMs(deadlines[s], now)
  }

  lemma NextNotSooner(before: map<Source, Time>, after: map<Source, Time>, sources: seq<Source>, i: nat, now: Time, timeout: int,
                      remaining: int)
    requires i < |sources| && NoneSooner(before, sources[..i], now, timeout) && remaining >= -1
    requires forall s <- after :: s != sources[i] ==> s in before && after[s] == before[s]
    requires if sources[i] in after then remaining == RemainingMs(after[sources[i]], now) else remaining == -1
    ensures NoneSooner(after, sources[..i + 1], now,
                       if remaining >= 0 && (timeout < 0 || remaining < timeout) then remaining else timeout)
  {
    assert sources[..i + 1] == sources[..i] + [sources[i]];
  }

  // ----- the program -----

  class MainLoop {
    var sourceDeadlines: map<Source, Time>
    ghost var log: seq<Event>

    /** The map holds exactly the deadlines that the events so far have set. */
    ghost predicate Valid()
      reads this
    {
      forall s: Source :: Deadline(log, s) == if s in sourceDeadlines then Some(sourceDeadlines[s]) else None
    }

    constructor ()
      ensures Valid() && log == []
    {
      sourceDeadlines, log := map[], [];
    }

    ghost method Note(e: Event)
      modifies this`log
      ensures log == old(log) + [e]
      ensures forall s: Source :: Deadline(log, s) == if Drops(e, s) then None
                                              else if Asks(e, s) then Some(Earlier(Deadline(old(log), s), AskedTime(e)))
                                              else Deadline(old(log), s)
    {
      log := log + [e];
    }

    /** Deadlines of sources that are gone are forgotten. */
    method Prune(sources: seq<Source>)
      requires Valid()
      modifies this
      ensures Valid() && log == old(log) + [Listed(sources)] && sourceDeadlines.Keys <= set s <- sources
    {
      var keys := sourceDeadlines.Keys;
      while keys != {}
        invariant keys <= sourceDeadlines.Keys <= old(sourceDeadlines.Keys) && log == old(log)
        invariant forall s <- sourceDeadlines.Keys :: sourceDeadlines[s] == old(sourceDeadlines[s])
        invariant forall s <- old(sourceDeadlines.Keys) :: s in keys || (s in sourceDeadlines <==> s in sources)
        decreases keys
      {
        var s :| s in keys;
        keys := keys - {s};
        if s !in sources {
          sourceDeadlines := sourceDeadlines - {s};
        }
      }
      Note(Listed(sources));
    }

    /** One source's vote; what it leaves of the time to its deadline, or -1. */
    method Arm(source: Source, now: Time, timeout: int) returns (remaining: int)
      requires Valid()
      modifies this
      ensures Valid() && log == old(log) + [Voted(source, now, timeout)]
      ensures sourceDeadlines.Keys == if timeout < 0 then old(sourceDeadlines.Keys) - {source}
                                      else old(sourceDeadlines.Keys) + {source}
      ensures forall s <- sourceDeadlines.Keys :: s != source ==> sourceDeadlines[s] == old(sourceDeadlines)[s]
      ensures if timeout < 0 then remaining == -1 else remaining == RemainingMs(sourceDeadlines[source], now)
    {
      if timeout < 0 {
        sourceDeadlines := sourceDeadlines - {source};
        Note(Voted(source, now, timeout));
        return -1;
      }
      var requested := now + timeout * MILLISECOND;
      if source !in sourceDeadlines || requested < sourceDeadlines[source] {
        sourceDeadlines := sourceDeadlines[source := requested];
      }
      Note(Voted(source, now, timeout));
      remaining := RemainingMs(sourceDeadlines[source], now);
    }

    /** The first `n` sources have voted, and the least time left is so far `timeout`. */
    ghost predicate AskedFor(was: seq<Event>, it: Iteration, n: nat, timeout: int)
      reads this
      requires it.Valid() && n <= |it.sources|
    {
      && log == was + Votes(it, n) && sourceDeadlines.Keys <= (set s <- it.sources)
      && IsLeast(Left(was, it, n), timeout)
      && NoneSooner(sourceDeadlines, it.sources[..n], it.nowBeforePoll, timeout)
    }

    method ArmNext(it: Iteration, i: nat, timeout: int, ghost was: seq<Event>) returns (pollTimeout: int)
      requires Valid() && it.Valid() && i < |it.sources| && AskedFor(was, it, i, timeout)
      modifies this
      ensures Valid() && AskedFor(was, it, i + 1, pollTimeout)
    {
      pollTimeout := timeout;
      ghost var before := sourceDeadlines;
      var remainingMs := Arm(it.sources[i], it.nowBeforePoll, it.votes[i]);
      assert log == was + Votes(it, i + 1);
      assert remainingMs == LeftAfter(log, it.sources[i], it.nowBeforePoll);
      LeastSoFar(Left(was, it, i), timeout, remainingMs);
      NextNotSooner(before, sourceDeadlines, it.sources, i, it.nowBeforePoll, timeout, remainingMs);
      if it.votes[i] < 0 {
        return;
      }
      if pollTimeout < 0 || remainingMs < pollTimeout {
        pollTimeout := remainingMs;
      }
    }

    /** Every source votes; the least time left is what `poll` may wait. */
    method ArmAll(it: Iteration) returns (pollTimeout: int)
      requires Valid() && it.Valid() && sourceDeadlines.Keys <= set s <- it.sources
      modifies this
      ensures Valid() && log == old(log) + Votes(it, |it.sources|)
      ensures -1 <= pollTimeout <= INT_MAX && (pollTimeout == -1 <==> forall i :: 0 <= i < |it.votes| ==> it.votes[i] < 0)
      ensures forall s <- sourceDeadlines.Keys ::
        0 <= pollTimeout <= RemainingMs(sourceDeadlines[s], it.nowBeforePoll)
      ensures IsLeast(Left(old(log), it, |it.sources|), pollTimeout)
    {
      pollTimeout := -1;
      var i := 0;
      while i < |it.sources|
        invariant 0 <= i <= |it.sources| && Valid() && AskedFor(old(log), it, i, pollTimeout)
      {
        pollTimeout := ArmNext(it, i, pollTimeout, old(log));
        i := i + 1;
      }
    }

    /** Each woken source that is still there is dispatched, and its clock starts again. */
    method DispatchPass(it: Iteration)
      requires Valid() && it.Valid()
      modifies this
      ensures Valid() && log == old(log) + Dispatches(it, old(log), |it.sources|)
    {
      var i := 0;
      while i < |it.sources|
        invariant 0 <= i <= |it.sources| && Valid() && log == old(log) + Dispatches(it, old(log), i)
      {
        var source, fdReady := it.sources[i], it.fdReady[i];
        var timeoutWake := source in sourceDeadlines && it.nowAfterPoll >= sourceDeadlines[source];
        i := i + 1;
        if !fdReady && !timeoutWake {
          continue;
        }
        if source !in it.latest[i - 1] {
          continue;
        }
        sourceDeadlines := sourceDeadlines - {source};
        ghost var before := Dispatches(it, old(log), i - 1);
        Note(Dispatched(source));
        assert log == old(log) + (before + [Dispatched(source)]);
      }
    }

    /** One iteration. Without a frame and a blocked flush `poll` waits for the least time left to any source when it
        voted; a pending frame makes that nothing, and a blocked flush at least sixteen milliseconds. */
    method Iterate(it: Iteration) returns (pollTimeout: int, ghost least: int)
      requires Valid() && it.Valid()
      modifies this
      ensures Valid() && log == AfterIteration(old(log), it)
      ensures IsLeast(Left(old(log) + [Listed(it.sources)], it, |it.sources|), least)
      ensures !it.framePending && !it.flushBlocked ==> pollTimeout == least
      ensures it.framePending ==> pollTimeout == if it.flushBlocked then 16 else 0
      ensures it.flushBlocked && !it.framePending ==> pollTimeout == if least < 0 || least > 16 then least else 16
      ensures WaitsRightly(old(log), it, pollTimeout)
    {
      Prune(it.sources);
      ghost var listed := log;
      pollTimeout := ArmAll(it);
      least := pollTimeout;
      ghost var armed := log;
      assert armed == Armed(old(log), it);
      assert forall s: Source :: Deadline(armed, s).Some? <==> s in sourceDeadlines;
      if it.framePending {
        pollTimeout := 0;
      }
      if it.flushBlocked && pollTimeout >= 0 && pollTimeout < 16 {
        pollTimeout := 16;
      }
      if it.interrupted {
        return;
      }
      DispatchPass(it);
    }
  }

  /** `poll` waits no longer than any deadline allows, or sixteen milliseconds for a blocked flush; it waits for
      ever only when no source has a deadline and no frame is pending; and it never returns early but for a frame
      or a source that asked for it. */
  ghost predicate WaitsRightly(log: seq<Event>, it: Iteration, pollTimeout: int)
    requires it.Valid()
  {
    && (forall s: Source :: Deadline(Armed(log, it), s).Some? ==>
          0 <= pollTimeout && (pollTimeout <= RemainingMs(Deadline(Armed(log, it), s).value, it.nowBeforePoll)
                               || (it.flushBlocked && pollTimeout == 16)))
    && (pollTimeout < 0 <==> !it.framePending && forall i :: 0 <= i < |it.votes| ==> it.votes[i] < 0)
    && (pollTimeout >= 0 ==> (pollTimeout == 0 && it.framePending) || (pollTimeout == 16 && it.flushBlocked)
                             || pollTimeout in Left(log + [Listed(it.sources)], it, |it.sources|))
  }

  /** What is left to the `k`th source, in its turn: whole milliseconds to its deadline then, and -1 without one. */
  lemma {:induction false} LeftIs(log: seq<Event>, it: Iteration, n: nat, k: nat)
    requires it.Valid() && k < n <= |it.sources|
    ensures |Left(log, it, n)| == n
    ensures var d, left := Deadline(log + Votes(it, k + 1), it.sources[k]), Left(log, it, n)[k];
            && (left == -1 <==> d == None) && -1 <= left <= INT_MAX
            && (d.Some? ==> (1_000_000 * left <= d.value - it.nowBeforePoll || (left == 0 && d.value < it.nowBeforePoll))
                            && (left == INT_MAX || d.value - it.nowBeforePoll < 1_000_000 * (left + 1)))
    decreases n
  {
    if k < n - 1 {
      LeftIs(log, it, n - 1, k);
    }
  }

  // ----- what a deadline is -----

  /** The event asks for a wake of `s` and nothing after it drops the deadline. */
  ghost predicate Standing(log: seq<Event>, s: Source, i: int) {
    0 <= i < |log| && Asks(log[i], s) && forall j :: i < j < |log| ==> !Drops(log[j], s)
  }

  lemma {:induction false} EarliestOfStanding(log: seq<Event>, s: Source)
    ensures forall i :: Standing(log, s, i) ==> Deadline(log, s).Some? && Deadline(log, s).value <= AskedTime(log[i])
    ensures Deadline(log, s).Some? ==> exists i :: Standing(log, s, i) && Deadline(log, s).value == AskedTime(log[i])
    decreases log
  {
    if log != [] {
      var before, last := log[..|log| - 1], |log| - 1;
      EarliestOfStanding(before, s);
      forall i | Standing(log, s, i)
        ensures Deadline(log, s).Some? && Deadline(log, s).value <= AskedTime(log[i])
      {
        if i < last {
          assert !Drops(log[last], s);
          assert Standing(before, s, i);
        }
      }
      if Deadline(log, s).Some? {
        EarliestStands(log, s);
      }
    }
  }

  lemma EarliestStands(log: seq<Event>, s: Source)
    requires log != [] && Deadline(log, s).Some?
    requires var before := log[..|log| - 1];
             Deadline(before, s).Some? ==> exists i :: Standing(before, s, i) && Deadline(before, s).value == AskedTime(before[i])
    ensures exists i :: Standing(log, s, i) && Deadline(log, s).value == AskedTime(log[i])
  {
    var before, last := log[..|log| - 1], |log| - 1;
    if Asks(log[last], s) && Deadline(log, s).value == AskedTime(log[last]) {
      assert Standing(log, s, last);
    } else {
      var i :| Standing(before, s, i) && Deadline(before, s).value == AskedTime(before[i]);
      assert Standing(log, s, i);
    }
  }

  /** At index `i` the source asks to be woken in so many milliseconds, and since then it was neither dispatched, nor has it
      declined, nor was it missing from the sources. */
  ghost predicate Requested(log: seq<Event>, s: Source, i: int, wake: Time) {
    && 0 <= i < |log| && log[i].Voted? && log[i].source == s && log[i].timeout >= 0
    && wake == log[i].now + 1_000_000 * log[i].timeout
    && forall j :: i < j < |log| ==>
         log[j] != Dispatched(s) && (log[j].Voted? && log[j].source == s ==> log[j].timeout >= 0)
         && (log[j].Listed? ==> s in log[j].sources)
  }

  lemma RequestStands(log: seq<Event>, s: Source, i: int, wake: Time)
    ensures Requested(log, s, i, wake) <==> Standing(log, s, i) && AskedTime(log[i]) == wake
  {
    if Requested(log, s, i, wake) {
      forall j | i < j < |log|
        ensures !Drops(log[j], s)
      {
      }
    }
  }

  /** The deadline is the earliest of the times asked for since it was last dropped, and there is none if none was. */
  lemma DeadlineIsEarliest(log: seq<Event>, s: Source)
    ensures forall i, wake :: Requested(log, s, i, wake) ==> Deadline(log, s).Some? && Deadline(log, s).value <= wake
    ensures Deadline(log, s).Some? ==> exists i :: Requested(log, s, i, Deadline(log, s).value)
  {
    EarliestOfStanding(log, s);
    forall i, wake | Requested(log, s, i, wake)
      ensures Deadline(log, s).Some? && Deadline(log, s).value <= wake
    {
      RequestStands(log, s, i, wake);
    }
    if Deadline(log, s).Some? {
      var i :| Standing(log, s, i) && Deadline(log, s).value == AskedTime(log[i]);
      RequestStands(log, s, i, Deadline(log, s).value);
    }
  }

  /** Until it is dropped, a deadline never moves later. */
  lemma {:induction false} DeadlineNeverLater(log: seq<Event>, more: seq<Event>, s: Source)
    requires Deadline(log, s).Some? && forall e <- more :: !Drops(e, s)
    ensures Deadline(log + more, s).Some? && Deadline(log + more, s).value <= Deadline(log, s).value
    decreases more
  {
    if more == [] {
      assert log + more == log;
    } else {
      var fewer := more[..|more| - 1];
      DeadlineNeverLater(log, fewer, s);
      assert (log + more)[..|log + more| - 1] == log + fewer;
      assert more[|more| - 1] in more;
    }
  }

  // ----- which sources a pass dispatches -----

  /** The source is at index `i`, was found there by the provider, and was woken. */
  predicate Woken(it: Iteration, log: seq<Event>, s: Source, i: int)
    requires it.Valid()
  {
    && 0 <= i < |it.sources| && it.sources[i] == s && s in it.latest[i]
    && (it.fdReady[i] || (Deadline(log, s).Some? && Deadline(log, s).value <= it.nowAfterPoll))
  }

  lemma {:induction false} OthersDispatched(log: seq<Event>, more: seq<Event>, s: Source)
    requires forall e <- more :: e.Dispatched?
    ensures Deadline(log + more, s) == if Dispatched(s) in more then None else Deadline(log, s)
    decreases more
  {
    if more == [] {
      assert log + more == log;
    } else {
      var fewer := more[..|more| - 1];
      OthersDispatched(log, fewer, s);
      assert (log + more)[..|log + more| - 1] == log + fewer;
      assert more == fewer + [more[|more| - 1]];
      assert more[|more| - 1] in more;
    }
  }

  lemma {:induction false} OnlyDispatches(it: Iteration, log: seq<Event>, n: nat)
    requires it.Valid() && n <= |it.sources|
    ensures forall e <- Dispatches(it, log, n) :: e.Dispatched?
    decreases n
  {
    if n > 0 {
      OnlyDispatches(it, log, n - 1);
    }
  }

  lemma {:induction false} DispatchedWhenWoken(it: Iteration, log: seq<Event>, n: nat, s: Source)
    requires it.Valid() && n <= |it.sources|
    ensures Dispatched(s) in Dispatches(it, log, n) <==> exists i :: i < n && Woken(it, log, s, i)
    decreases n
  {
    if n > 0 {
      DispatchedWhenWoken(it, log, n - 1, s);
      var before := Dispatches(it, log, n - 1);
      OnlyDispatches(it, log, n - 1);
      OthersDispatched(log, before, s);
      assert Dispatched(s) in Dispatches(it, log, n) <==> Dispatched(s) in before || Woken(it, log, s, n - 1);
    }
  }

  /** The votes are those of the sources in their order, at the clock read before `poll`. */
  lemma {:induction false} VotesAre(it: Iteration, n: nat)
    requires it.Valid() && n <= |it.sources|
    ensures |Votes(it, n)| == n
    ensures forall i :: 0 <= i < n ==> Votes(it, n)[i] == Voted(it.sources[i], it.nowBeforePoll, it.votes[i])
  {
    if n > 0 {
      VotesAre(it, n - 1);
    }
  }

  lemma {:induction false} VotesOfOthers(log: seq<Event>, it: Iteration, n: nat, s: Source)
    requires it.Valid() && n <= |it.sources| && forall k :: 0 <= k < n ==> it.sources[k] != s
    ensures Deadline(log + Votes(it, n), s) == Deadline(log, s)
    decreases n
  {
    if n == 0 {
      assert log + Votes(it, n) == log;
    } else {
      VotesOfOthers(log, it, n - 1, s);
      OneMoreVote(log, it, n - 1, s);
    }
  }

  lemma OneMoreVote(log: seq<Event>, it: Iteration, n: nat, s: Source)
    requires it.Valid() && n < |it.sources|
    ensures log + Votes(it, n + 1) == (log + Votes(it, n)) + [Voted(it.sources[n], it.nowBeforePoll, it.votes[n])]
    ensures Deadline(log + Votes(it, n + 1), s)
         == if it.sources[n] != s then Deadline(log + Votes(it, n), s)
            else if it.votes[n] < 0 then None
            else Some(Earlier(Deadline(log + Votes(it, n), s), it.nowBeforePoll + 1_000_000 * it.votes[n]))
  {
    var before, e := log + Votes(it, n), Voted(it.sources[n], it.nowBeforePoll, it.votes[n]);
    assert log + Votes(it, n + 1) == before + [e];
    assert (before + [e])[..|before|] == before;
  }

  lemma {:induction false} VotesUpTo(log: seq<Event>, it: Iteration, n: nat, s: Source, i: nat)
    requires it.Valid() && i < n <= |it.sources| && it.sources[i] == s && forall k :: 0 <= k < n && k != i ==> it.sources[k] != s
    ensures var was, asked := Deadline(log, s), it.nowBeforePoll + 1_000_000 * it.votes[i];
            Deadline(log + Votes(it, n), s)
            == if it.votes[i] < 0 then None else if was.Some? && was.value < asked then was else Some(asked)
    decreases n
  {
    OneMoreVote(log, it, n - 1, s);
    if i == n - 1 {
      VotesOfOthers(log, it, n - 1, s);
    } else {
      VotesUpTo(log, it, n - 1, s, i);
    }
  }

  /** What an iteration makes of the deadlines before it waits: a source that is gone has none, and one that is listed once
      has the earlier of its old one and the one it asks for, or none if it asks for none. */
  lemma ArmedDeadlines(log: seq<Event>, it: Iteration, s: Source, i: nat)
    requires it.Valid()
    ensures s !in it.sources ==> Deadline(Armed(log, it), s) == None
    ensures i < |it.sources| && it.sources[i] == s && (forall k :: 0 <= k < |it.sources| && k != i ==> it.sources[k] != s) ==>
      var was, asked := Deadline(log, s), it.nowBeforePoll + 1_000_000 * it.votes[i];
      Deadline(Armed(log, it), s)
      == if it.votes[i] < 0 then None else if was.Some? && was.value < asked then was else Some(asked)
  {
    var listed, n := log + [Listed(it.sources)], |it.sources|;
    assert listed[..|log|] == log;
    if s !in it.sources {
      VotesOfOthers(listed, it, n, s);
    } else if i < n && it.sources[i] == s && forall k :: 0 <= k < n && k != i ==> it.sources[k] != s {
      VotesUpTo(listed, it, n, s, i);
    }
  }

  /** The dispatches of the first sources come first. */
  lemma {:induction false} DispatchesInOrder(it: Iteration, log: seq<Event>, m: nat, n: nat)
    requires it.Valid() && m <= n <= |it.sources|
    ensures Dispatches(it, log, m) <= Dispatches(it, log, n)
    decreases n
  {
    if m < n {
      DispatchesInOrder(it, log, m, n - 1);
    }
  }

  /** A deadline serves for one dispatch: a source listed once more is not dispatched again unless its descriptor is ready. */
  lemma DueOnce(it: Iteration, log: seq<Event>, i: nat, j: nat)
    requires it.Valid() && i < j < |it.sources| && it.sources[i] == it.sources[j]
    requires Woken(it, log, it.sources[i], i) && !it.fdReady[j]
    ensures Dispatches(it, log, j + 1) == Dispatches(it, log, j)
  {
    var s := it.sources[i];
    DispatchedWhenWoken(it, log, j, s);
    OnlyDispatches(it, log, j);
    OthersDispatched(log, Dispatches(it, log, j), s);
  }

  /** A pass dispatches exactly the sources that are ready or due, and still in the provider's list when their
      turn comes; after it no live source is overdue. */
  lemma PassDispatchesWoken(log: seq<Event>, it: Iteration, s: Source)
    requires it.Valid() && !it.interrupted
    ensures Dispatched(s) in Dispatches(it, Armed(log, it), |it.sources|)
            <==> exists i :: Woken(it, Armed(log, it), s, i)
    ensures (exists i :: 0 <= i < |it.sources| && it.sources[i] == s && s in it.latest[i]) ==>
              var d := Deadline(AfterIteration(log, it), s); d.None? || it.nowAfterPoll < d.value
  {
    var armed, n := Armed(log, it), |it.sources|;
    DispatchedWhenWoken(it, armed, n, s);
    OnlyDispatches(it, armed, n);
    OthersDispatched(armed, Dispatches(it, armed, n), s);
    if i :| 0 <= i < n && it.sources[i] == s && s in it.latest[i] {
      assert Due(armed, s, it.nowAfterPoll) ==> Woken(it, armed, s, i);
    }
  }

  // ----- whole runs -----

  /** The events up to `poll` in iteration `k`. */
  function ArmedAt(its: seq<Iteration>, k: nat): seq<Event>
    requires k < |its| && AllValid(its)
  {
    Armed(AfterIterations(its[..k]), its[k])
  }

  lemma IterationExtends(its: seq<Iteration>, n: nat)
    requires n < |its| && AllValid(its)
    ensures AfterIterations(its[..n + 1]) == AfterIteration(AfterIterations(its[..n]), its[n])
    ensures AfterIterations(its[..n]) <= ArmedAt(its, n) <= AfterIterations(its[..n + 1])
  {
    assert its[..n + 1][..n] == its[..n];
  }

  lemma PrefixOfPrefix<T>(a: seq<T>, b: seq<T>, c: seq<T>)
    requires a <= b <= c
    ensures a <= c
  {
  }

  lemma IterationGrows(its: seq<Iteration>, early: seq<Event>, n: nat)
    requires n < |its| && AllValid(its) && early <= AfterIterations(its[..n])
    ensures early <= AfterIterations(its[..n + 1])
  {
    IterationExtends(its, n);
    PrefixOfPrefix(early, AfterIterations(its[..n]), ArmedAt(its, n));
    PrefixOfPrefix(early, ArmedAt(its, n), AfterIterations(its[..n + 1]));
  }

  lemma {:induction false} RunsExtend(its: seq<Iteration>, k: nat, m: nat)
    requires k < m <= |its| && AllValid(its)
    ensures ArmedAt(its, k) <= AfterIterations(its[..m])
    decreases m
  {
    IterationExtends(its, m - 1);
    if k < m - 1 {
      RunsExtend(its, k, m - 1);
      IterationGrows(its, ArmedAt(its, k), m - 1);
    }
  }

  /** Once a source has a deadline, keeps asking to be woken and stays listed, the first pass at or after the
      deadline that finds it live dispatches it, if no earlier one has. */
  lemma DeadlineIsMet(its: seq<Iteration>, k: nat, m: nat, s: Source, i: nat)
    requires k <= m < |its| && AllValid(its) && !its[m].interrupted
    requires Deadline(ArmedAt(its, k), s).Some? && its[m].nowAfterPoll >= Deadline(ArmedAt(its, k), s).value
    requires i < |its[m].sources| && its[m].sources[i] == s && s in its[m].latest[i]
    requires forall j :: |ArmedAt(its, k)| <= j < |ArmedAt(its, m)| && Drops(ArmedAt(its, m)[j], s) ==>
      ArmedAt(its, m)[j] == Dispatched(s)
    ensures ArmedAt(its, k) <= AfterIterations(its[..m + 1])
    ensures Dispatched(s) in AfterIterations(its[..m + 1])[|ArmedAt(its, k)|..]
  {
    var early, late := ArmedAt(its, k), ArmedAt(its, m);
    assert its[..m + 1][..m] == its[..m];
    var passes := Dispatches(its[m], late, |its[m].sources|);
    assert AfterIterations(its[..m + 1]) == late + passes;
    if k < m {
      RunsExtend(its, k, m);
      IterationExtends(its, m);
      PrefixOfPrefix(early, AfterIterations(its[..m]), late);
    }
    var more := late[|early|..];
    assert late == early + more;
    assert (late + passes)[|early|..] == more + passes;
    if Dispatched(s) !in more {
      DeadlineKept(early, late, s);
      assert Woken(its[m], late, s, i);
      PassDispatchesWoken(AfterIterations(its[..m]), its[m], s);
    }
  }

  lemma DeadlineKept(early: seq<Event>, late: seq<Event>, s: Source)
    requires early <= late && Deadline(early, s).Some? && Dispatched(s) !in late[|early|..]
    requires forall j :: |early| <= j < |late| && Drops(late[j], s) ==> late[j] == Dispatched(s)
    ensures Deadline(late, s).Some? && Deadline(late, s).value <= Deadline(early, s).value
  {
    var more := late[|early|..];
    assert late == early + more;
    forall e | e in more
      ensures !Drops(e, s)
    {
      var j :| 0 <= j < |more| && more[j] == e;
      assert late[|early| + j] == e;
    }
    DeadlineNeverLater(early, more, s);
  }

  method Run(its: seq<Iteration>) returns (loop: MainLoop)
    requires AllValid(its)
    ensures fresh(loop) && loop.Valid() && loop.log == AfterIterations(its)
  {
    loop := new MainLoop();
    var i := 0;
    while i < |its|
      invariant 0 <= i <= |its| && loop.Valid() && loop.log == AfterIterations(its[..i])
    {
      assert its[..i + 1][..i] == its[..i];
      var pollTimeout, least := loop.Iterate(its[i]);
      i := i + 1;
    }
    assert its[..i] == its;
  }
}

/** `DeferredCall`: a queue of callbacks for the main loop, filled from any thread, and the pipe that wakes it. */
module DeferredCalls {
  import opened Wrappers

  /** A callback, by number. */
  type Call = nat

  /** What the threads share: the queue and the bytes in the wake pipe. */
  datatype Shared = Shared(queue: seq<Call>, bytes: nat)

  function Pushed(s: Shared, call: Call): Shared {
    s.(queue := s.queue + [call])
  }

  /** One byte more, unless the pipe is full. */
  function Woken(s: Shared, capacity: nat): (woken: Shared)
    ensures woken.queue == s.queue && s.bytes <= woken.bytes <= s.bytes + 1
    ensures woken.bytes == s.bytes <==> s.bytes >= capacity
  {
    if s.bytes < capacity then s.(bytes := s.bytes + 1) else s
  }

  function Emptied(s: Shared): Shared {
    s.(queue := [])
  }

  // ----- the program, one critical section or system call at a time -----

  const READ_SIZE: nat := 64

  class DeferredCall {
    var queue: seq<Call>
    var bytes: nat
    const capacity: nat
    /** What the main loop has run. */
    ghost var executed: seq<Call>

    constructor (capacity: nat)
      requires capacity > 0
      ensures this.capacity == capacity && Now() == Shared([], 0) && executed == []
    {
      this.capacity := capacity;
      queue, bytes, executed := [], 0, [];
    }

    function Now(): Shared
      reads this
    {
      Shared(queue, bytes)
    }

    /** The first critical section of `callLater`. */
    method PushBack(fn: Call)
      modifies this`queue
      ensures Now() == Pushed(old(Now()), fn)
    {
      queue := queue + [fn];
    }

    /** The second: a full pipe (`EAGAIN`) has a byte in it already. */
    method WakeMainLoop()
      modifies this`bytes
      ensures Now() == Woken(old(Now()), capacity)
      ensures capacity > 0 ==> bytes > 0
    {
      if bytes < capacity {
        bytes := bytes + 1;
      }
    }

    method CallLater(fn: Call)
      modifies this`queue, this`bytes
      ensures Now() == Woken(Pushed(old(Now()), fn), capacity)
    {
      PushBack(fn);
      WakeMainLoop();
    }

    method TakePending() returns (pending: seq<Call>)
      modifies this`queue
      ensures pending == old(queue) && Now() == Emptied(old(Now()))
    {
      pending := queue;
      queue := [];
    }

    /** `read` of at most 64 bytes, which fails with `EAGAIN` on an empty pipe. */
    method Read() returns (n: nat)
      modifies this`bytes
      ensures n <= old(bytes) && n <= READ_SIZE && bytes == old(bytes) - n && (n == 0 <==> old(bytes) == 0)
    {
      n := if bytes < READ_SIZE then bytes else READ_SIZE;
      bytes := bytes - n;
    }

    method DrainWakeFd()
      modifies this`bytes
      ensures bytes == 0
    {
      while true
        decreases bytes
      {
        var n := Read();
        if n == 0 {
          return;
        }
      }
    }

    method RunAll(pending: seq<Call>)
      modifies this`executed
      ensures executed == old(executed) + pending
    {
      var i := 0;
      while i < |pending|
        invariant 0 <= i <= |pending| && executed == old(executed) + pending[..i]
      {
        executed := executed + [pending[i]];
        i := i + 1;
      }
    }

    /** `DeferredCallPollSource::dispatch`. */
    method Dispatch(ready: bool)
      modifies this
      ensures queue == [] && executed == old(executed) + old(queue) && bytes == if ready then 0 else old(bytes)
    {
      if ready {
        DrainWakeFd();
      }
      var pending := TakePending();
      RunAll(pending);
    }
  }

  // ----- the threads together -----

  type Thread = nat

  /** Where the main loop is: taking and running a batch at the top of an iteration, in `poll`, or in the
      dispatch of its source: draining, taking and running. */
  datatype Location = TopTake | TopRun | Poll | Drain | Take | Running

  /** `writers` are the threads between pushing and writing their byte; `calling` says that a callback, on the
      main thread, is. `pushed` is every call in the order of the pushes, and `due` counts those pushed when
      `poll` last returned. */
  datatype System = System(shared: Shared, writers: set<Thread>, calling: bool, at: Location, batch: seq<Call>,
                           executed: seq<Call>, pushed: seq<Call>, due: nat)

  const START := System(Shared([], 0), {}, false, TopTake, [], [], [], 0)

  datatype Step =
    | PushStep(thread: Thread, call: Call)
    | WakeStep(thread: Thread)
    | CallbackPush(call: Call)
    | CallbackWake
    | TakeStep
    | RunStep
    | RunDone
    | PollReturns(dispatched: bool)
    | ReadStep(n: nat)
    | ReadFails

  predicate InBatch(s: System) {
    s.at == TopRun || s.at == Running
  }

  predicate Enabled(s: System, step: Step) {
    match step
    case PushStep(thread, _) => thread !in s.writers
    case WakeStep(thread) => thread in s.writers
    case CallbackPush(_) => InBatch(s) && !s.calling
    case CallbackWake => s.calling
    case TakeStep => s.at == TopTake || s.at == Take
    case RunStep => InBatch(s) && !s.calling && s.batch != []
    case RunDone => InBatch(s) && !s.calling && s.batch == []
    // The source is dispatched only when its descriptor is readable; it may be gone by then.
    case PollReturns(dispatched) => s.at == Poll && (dispatched ==> s.shared.bytes > 0)
    case ReadStep(n) => s.at == Drain && 0 < n <= READ_SIZE && n <= s.shared.bytes
    case ReadFails => s.at == Drain && s.shared.bytes == 0
  }

  function After(s: System, step: Step, capacity: nat): System
    requires Enabled(s, step)
  {
    match step
    case PushStep(thread, call) =>
      s.(shared := Pushed(s.shared, call), writers := s.writers + {thread}, pushed := s.pushed + [call])
    case WakeStep(thread) => s.(shared := Woken(s.shared, capacity), writers := s.writers - {thread})
    case CallbackPush(call) => s.(shared := Pushed(s.shared, call), calling := true, pushed := s.pushed + [call])
    case CallbackWake => s.(shared := Woken(s.shared, capacity), calling := false)
    case TakeStep =>
      s.(shared := Emptied(s.shared), batch := s.shared.queue, at := if s.at == TopTake then TopRun else Running)
    case RunStep => s.(batch := s.batch[1..], executed := s.executed + [s.batch[0]])
    case RunDone => s.(at := if s.at == TopRun then Poll else TopTake)
    case PollReturns(dispatched) => s.(at := if dispatched then Drain else TopTake, due := |s.pushed|)
    case ReadStep(n) => s.(shared := s.shared.(bytes := s.shared.bytes - n))
    case ReadFails => s.(at := Take)
  }

  /** The system after these steps, if each can be taken when it comes. */
  function Reached(steps: seq<Step>, capacity: nat): Option<System> {
    if steps == [] then Some(START)
    else
      var before := Reached(steps[..|steps| - 1], capacity);
      if before.Some? && Enabled(before.value, steps[|steps| - 1])
      then Some(After(before.value, steps[|steps| - 1], capacity))
      else None
  }

  // ----- what every interleaving keeps -----

  /** A call in the queue has a byte in the pipe, or a thread about to write one, or the main loop about to take it. */
  predicate WakeUpKept(s: System) {
    s.shared.queue == [] || s.shared.bytes > 0 || s.writers != {} || s.calling || s.at == Drain || s.at == Take
  }

  /** Every call pushed is, in order, run, or in the batch, or in the queue. */
  predicate InOrder(s: System) {
    s.executed + s.batch + s.shared.queue == s.pushed
  }

  predicate Orderly(s: System) {
    && (s.calling ==> InBatch(s)) && (s.batch != [] ==> InBatch(s))
    && s.due <= |s.pushed|
    && (s.at == TopRun ==> s.due <= |s.executed| + |s.batch|)
    && (s.at == Poll ==> s.due <= |s.executed|)
  }

  predicate Invariant(s: System) {
    WakeUpKept(s) && InOrder(s) && Orderly(s)
  }

  lemma StepKeepsInvariant(s: System, step: Step, capacity: nat)
    requires capacity > 0 && Invariant(s) && Enabled(s, step)
    ensures Invariant(After(s, step, capacity))
  {
    var s' := After(s, step, capacity);
    match step {
      case PushStep(thread, call) =>
        assert thread in s'.writers;
        assert s'.executed + s'.batch + s'.shared.queue == s.executed + s.batch + s.shared.queue + [call];
      case CallbackPush(call) =>
        assert s'.executed + s'.batch + s'.shared.queue == s.executed + s.batch + s.shared.queue + [call];
      case TakeStep =>
        assert s'.executed + s'.batch + s'.shared.queue == s.executed + s.batch + s.shared.queue;
      case RunStep =>
        assert s'.executed + s'.batch + s'.shared.queue == s.executed + s.batch + s.shared.queue;
      case _ =>
    }
  }

  lemma {:induction false} EveryRunKeepsInvariant(steps: seq<Step>, capacity: nat)
    requires capacity > 0 && Reached(steps, capacity).Some?
    ensures Invariant(Reached(steps, capacity).value)
    decreases steps
  {
    if steps != [] {
      EveryRunKeepsInvariant(steps[..|steps| - 1], capacity);
      StepKeepsInvariant(Reached(steps[..|steps| - 1], capacity).value, steps[|steps| - 1], capacity);
    }
  }

  /** The main loop never sleeps on a call that nobody will wake it for. */
  lemma NoLostWakeUp(steps: seq<Step>, capacity: nat)
    requires capacity > 0 && Reached(steps, capacity).Some?
    ensures var s := Reached(steps, capacity).value;
            s.at == Poll && s.shared.queue != [] && s.writers == {} ==> Enabled(s, PollReturns(true))
  {
    EveryRunKeepsInvariant(steps, capacity);
  }

  /** Calls run once each, in the order they were pushed; back in `poll`, all those pushed before it last returned
      have been run. */
  lemma RunInPushOrder(steps: seq<Step>, capacity: nat)
    requires capacity > 0 && Reached(steps, capacity).Some?
    ensures var s := Reached(steps, capacity).value;
            s.executed <= s.pushed && s.due <= |s.pushed| && (s.at == Poll ==> s.pushed[..s.due] <= s.executed)
  {
    EveryRunKeepsInvariant(steps, capacity);
    var s := Reached(steps, capacity).value;
    assert s.pushed == s.executed + (s.batch + s.shared.queue);
  }

  // ----- runs are what they are meant to be -----

  /** The states of a run, from the start on. */
  ghost predicate Trace(states: seq<System>, steps: seq<Step>, capacity: nat) {
    && |states| == |steps| + 1 && states[0] == START
    && forall i :: 0 <= i < |steps| ==> Enabled(states[i], steps[i]) && states[i + 1] == After(states[i], steps[i], capacity)
  }

  lemma TracePrefix(states: seq<System>, steps: seq<Step>, capacity: nat)
    requires Trace(states, steps, capacity) && steps != []
    ensures var n := |steps| - 1;
            Trace(states[..n + 1], steps[..n], capacity) && Enabled(states[n], steps[n])
            && states[n + 1] == After(states[n], steps[n], capacity)
  {
    var n := |steps| - 1;
    var shorter, fewer := states[..n + 1], steps[..n];
    forall i | 0 <= i < n
      ensures Enabled(shorter[i], fewer[i]) && shorter[i + 1] == After(shorter[i], fewer[i], capacity)
    {
      assert shorter[i] == states[i] && fewer[i] == steps[i] && shorter[i + 1] == states[i + 1];
    }
  }

  lemma {:induction false} TraceReaches(states: seq<System>, steps: seq<Step>, capacity: nat)
    requires Trace(states, steps, capacity)
    ensures Reached(steps, capacity) == Some(states[|steps|])
    decreases steps
  {
    if steps != [] {
      var n := |steps| - 1;
      TracePrefix(states, steps, capacity);
      TraceReaches(states[..n + 1], steps[..n], capacity);
    }
  }

  lemma {:induction false} ReachedHasTrace(steps: seq<Step>, capacity: nat) returns (states: seq<System>)
    requires Reached(steps, capacity).Some?
    ensures Trace(states, steps, capacity) && states[|steps|] == Reached(steps, capacity).value
    decreases steps
  {
    if steps == [] {
      states := [START];
    } else {
      var before := ReachedHasTrace(steps[..|steps| - 1], capacity);
      states := before + [Reached(steps, capacity).value];
    }
  }

  // ----- every call is run -----

  /** Neither a new call nor a return of `poll` for another source. */
  predicate IsWork(step: Step) {
    !step.PushStep? && !step.CallbackPush? && step != PollReturns(false)
  }

  /** In `poll`, with nothing to do. */
  predicate Quiet(s: System) {
    s.at == Poll && s.shared == Shared([], 0) && s.writers == {}
  }

  function Rank(s: System): nat {
    match s.at
    case Drain => if s.shared.bytes == 0 then 6 else 0
    case Take => 5
    case Running => 4
    case TopTake => 3
    case TopRun => 2
    case Poll => 1
  }

  /** The threads that still write a byte. */
  function Wakes(s: System): nat {
    |s.writers| + if s.calling then 1 else 0
  }

  predicate Nearer(now: System, was: System) {
    || Wakes(now) < Wakes(was)
    || (Wakes(now) == Wakes(was)
        && (now.shared.bytes < was.shared.bytes
            || (now.shared.bytes == was.shared.bytes
                && (Rank(now) < Rank(was) || (Rank(now) == Rank(was) && |now.batch| < |was.batch|)))))
  }

  /** Whatever work is done next brings the quiet nearer: a run that only works ends. */
  lemma WorkBringsNearer(s: System, step: Step, capacity: nat)
    requires Enabled(s, step) && IsWork(step)
    ensures Nearer(After(s, step, capacity), s) && After(s, step, capacity).pushed == s.pushed
  {
  }

  /** As long as it is not quiet, there is work that can be done. */
  lemma NeverStuck(s: System) returns (step: Step)
    requires Invariant(s) && !Quiet(s)
    ensures Enabled(s, step) && IsWork(step)
  {
    if s.writers != {} {
      var thread :| thread in s.writers;
      step := WakeStep(thread);
    } else if s.calling {
      step := CallbackWake;
    } else {
      match s.at {
        case TopTake => step := TakeStep;
        case Take => step := TakeStep;
        case Drain => step := if s.shared.bytes == 0 then ReadFails else ReadStep(1);
        case Poll => step := PollReturns(true);
        case _ => step := if s.batch == [] then RunDone else RunStep;
      }
    }
  }

  lemma QuietIsDone(s: System)
    requires Invariant(s) && Quiet(s)
    ensures s.executed == s.pushed
  {
    assert s.executed + s.batch + s.shared.queue == s.executed;
  }

  /** The system after some more steps. */
  function Onward(s: System, steps: seq<Step>, capacity: nat): Option<System>
    decreases steps
  {
    if steps == [] then Some(s)
    else if Enabled(s, steps[0]) then Onward(After(s, steps[0], capacity), steps[1..], capacity)
    else None
  }

  lemma {:induction false} ReachedOnward(steps: seq<Step>, more: seq<Step>, capacity: nat)
    requires Reached(steps, capacity).Some?
    ensures Reached(steps + more, capacity) == Onward(Reached(steps, capacity).value, more, capacity)
    decreases more
  {
    if more == [] {
      assert steps + more == steps;
    } else {
      var next := steps + [more[0]];
      assert next[..|steps|] == steps && steps + more == next + more[1..];
      if Reached(next, capacity).Some? {
        ReachedOnward(next, more[1..], capacity);
      } else {
        StuckStays(next, more[1..], capacity);
      }
    }
  }

  lemma {:induction false} StuckStays(steps: seq<Step>, more: seq<Step>, capacity: nat)
    requires Reached(steps, capacity).None?
    ensures Reached(steps + more, capacity).None?
    decreases more
  {
    if more == [] {
      assert steps + more == steps;
    } else {
      assert (steps + more)[..|steps + more| - 1] == steps + more[..|more| - 1];
      StuckStays(steps, more[..|more| - 1], capacity);
    }
  }

  lemma WorkStep(s: System, capacity: nat) returns (step: Step, next: System)
    requires capacity > 0 && Invariant(s) && !Quiet(s)
    ensures IsWork(step) && Enabled(s, step) && next == After(s, step, capacity)
    ensures Invariant(next) && Nearer(next, s) && next.pushed == s.pushed
  {
    step := NeverStuck(s);
    next := After(s, step, capacity);
    WorkBringsNearer(s, step, capacity);
    StepKeepsInvariant(s, step, capacity);
  }

  lemma OnwardFirst(s: System, step: Step, next: System, more: seq<Step>, capacity: nat)
    requires Enabled(s, step) && next == After(s, step, capacity)
    ensures Onward(s, [step] + more, capacity) == Onward(next, more, capacity)
  {
    assert ([step] + more)[1..] == more;
  }

  lemma {:induction false} WorkGoesOn(s: System, capacity: nat) returns (work: seq<Step>, end: System)
    requires capacity > 0 && Invariant(s)
    ensures forall step <- work :: IsWork(step)
    ensures Onward(s, work, capacity) == Some(end) && Quiet(end) && Invariant(end) && end.pushed == s.pushed
    decreases Wakes(s), s.shared.bytes, Rank(s), |s.batch|
  {
    if Quiet(s) {
      work, end := [], s;
    } else {
      var step, next := WorkStep(s, capacity);
      var more;
      more, end := WorkGoesOn(next, capacity);
      work := [step] + more;
      OnwardFirst(s, step, next, more, capacity);
    }
  }

  /** From everywhere a run gets, work alone leads to the quiet, and then every call has been run. */
  lemma EveryCallIsRun(steps: seq<Step>, capacity: nat) returns (work: seq<Step>)
    requires capacity > 0 && Reached(steps, capacity).Some?
    ensures forall step <- work :: IsWork(step)
    ensures var s := Reached(steps + work, capacity);
            s.Some? && Quiet(s.value) && s.value.executed == s.value.pushed == Reached(steps, capacity).value.pushed
  {
    EveryRunKeepsInvariant(steps, capacity);
    var end;
    work, end := WorkGoesOn(Reached(steps, capacity).value, capacity);
    ReachedOnward(steps, work, capacity);
    QuietIsDone(end);
  }
}

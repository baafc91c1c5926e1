/** A refresh of the online calendars: every account is fetched at once, and the answers come in any order. */
module Refresh {
  import opened Wrappers

  type AccountId = string

  datatype Event = Event(id: string, start: int)

  /** What an account has to go on: CalDAV needs a server and a login, Google a refresh token and perhaps a valid
      access token. */
  datatype Kind = CalDav(ready: bool) | Google(connected: bool, tokenValid: bool) | Unknown

  datatype Account = Account(id: AccountId, kind: Kind)

  // ----- one account's requests -----

  /** What an account is waiting for. `retry` allows one token refresh. */
  datatype Flow =
    | Waiting
    | Discovering
    | Reporting(pending: nat, anyOk: bool, events: seq<Event>)
    | Listing(retry: bool)
    | Fetching(retry: bool, pending: nat, unauthorized: bool, events: seq<Event>)
    | RefreshingToken
    | Done

  /** The answer to a request; `connected` is whether there is still a refresh token. */
  datatype Answer =
    | Discovery(ok: bool, collections: nat)
    | Report(ok: bool, events: seq<Event>)
    | CalendarList(ok: bool, unauthorized: bool, calendars: nat, connected: bool)
    | CalendarEvents(ok: bool, unauthorized: bool, events: seq<Event>, connected: bool)
    | Token(ok: bool)

  predicate Answers(flow: Flow, a: Answer) {
    match flow
    case Discovering => a.Discovery?
    case Reporting(_, _, _) => a.Report?
    case Listing(_) => a.CalendarList?
    case Fetching(_, _, _, _) => a.CalendarEvents?
    case RefreshingToken => a.Token?
    case _ => false
  }

  /** Requests that have been sent and not answered. */
  function InFlight(flow: Flow): nat {
    match flow
    case Reporting(pending, _, _) => pending
    case Fetching(_, pending, _, _) => pending
    case Waiting => 0
    case Done => 0
    case _ => 1
  }

  /** How far an account is from done: a stage, and the answers it waits for in it. */
  function Stage(flow: Flow): nat {
    match flow
    case Done => 0
    case Fetching(retry, _, _, _) => if retry then 4 else 1
    case Listing(retry) => if retry then 5 else 2
    case RefreshingToken => 3
    case Reporting(_, _, _) => 6
    case Discovering => 7
    case Waiting => 8
  }

  predicate Nearer(now: Flow, was: Flow) {
    Stage(now) < Stage(was) || (Stage(now) == Stage(was) && InFlight(now) < InFlight(was))
  }

  // ----- all accounts -----

  function Outstanding(flows: seq<Flow>): nat {
    if flows == [] then 0
    else Outstanding(flows[..|flows| - 1]) + if flows[|flows| - 1].Done? then 0 else 1
  }

  lemma {:induction false} OutstandingChanges(flows: seq<Flow>, i: nat, flow: Flow)
    requires i < |flows| && !flows[i].Done?
    ensures Outstanding(flows[i := flow]) == if flow.Done? then Outstanding(flows) - 1 else Outstanding(flows)
    ensures Outstanding(flows) > 0
    decreases flows
  {
    var n := |flows| - 1;
    if i == n {
      assert flows[i := flow][..n] == flows[..n];
    } else {
      assert flows[i := flow][..n] == flows[..n][i := flow];
      OutstandingChanges(flows[..n], i, flow);
    }
  }

  lemma {:induction false} NoneOutstanding(flows: seq<Flow>)
    ensures Outstanding(flows) == 0 <==> forall i :: 0 <= i < |flows| ==> flows[i].Done?
    decreases flows
  {
    if flows != [] {
      NoneOutstanding(flows[..|flows| - 1]);
    }
  }

  function AllWaiting(n: nat): (flows: seq<Flow>)
    ensures |flows| == n && Outstanding(flows) == n && forall i :: 0 <= i < n ==> flows[i] == Waiting
  {
    if n == 0 then [] else var fewer := AllWaiting(n - 1); assert (fewer + [Waiting])[..n - 1] == fewer; fewer + [Waiting]
  }

  // ----- the snapshot -----

  predicate Sorted(events: seq<Event>) {
    forall i, j :: 0 <= i < j < |events| ==> events[i].start <= events[j].start
  }

  function Concat(order: seq<AccountId>, events: map<AccountId, seq<Event>>): seq<Event>
    requires forall id <- order :: id in events
  {
    if order == [] then [] else Concat(order[..|order| - 1], events) + events[order[|order| - 1]]
  }

  /** The keys, each once. */
  ghost predicate Enumerates(order: seq<AccountId>, keys: set<AccountId>) {
    (forall id :: id in order <==> id in keys) && forall i, j :: 0 <= i < j < |order| ==> order[i] != order[j]
  }

  lemma {:induction false} ConcatSplits(a: seq<AccountId>, b: seq<AccountId>, events: map<AccountId, seq<Event>>)
    requires forall id <- a + b :: id in events
    ensures (forall id <- a :: id in events) && (forall id <- b :: id in events)
    ensures Concat(a + b, events) == Concat(a, events) + Concat(b, events)
    decreases b
  {
    assert (forall id <- a :: id in a + b) && (forall id <- b :: id in a + b);
    if b == [] {
      assert a + b == a;
    } else {
      var fewer, last := b[..|b| - 1], b[|b| - 1];
      assert (a + b)[..|a + b| - 1] == a + fewer;
      ConcatSplits(a, fewer, events);
    }
  }

  lemma ConcatWithout(order: seq<AccountId>, events: map<AccountId, seq<Event>>, i: nat)
    requires i < |order| && forall id <- order :: id in events
    ensures forall id <- order[..i] + order[i + 1..] :: id in events
    ensures multiset(Concat(order, events)) == multiset(Concat(order[..i] + order[i + 1..], events)) + multiset(events[order[i]])
  {
    var a, one, b := order[..i], [order[i]], order[i + 1..];
    assert order == a + (one + b);
    ConcatSplits(a, one + b, events);
    ConcatSplits(one, b, events);
    assert one[..0] == [];
    assert Concat(one, events) == events[order[i]];
    ConcatSplits(a, b, events);
  }

  lemma NoMembers(order: seq<AccountId>)
    ensures order != [] ==> exists id :: id in order
  {
    if order != [] {
      assert order[0] in order;
    }
  }

  lemma EnumeratesWithout(order: seq<AccountId>, keys: set<AccountId>, i: nat)
    requires i < |order| && Enumerates(order, keys)
    ensures Enumerates(order[..i] + order[i + 1..], keys - {order[i]})
  {
    var rest := order[..i] + order[i + 1..];
    forall x
      ensures x in rest <==> x in keys - {order[i]}
    {
      assert order == order[..i] + [order[i]] + order[i + 1..];
      assert x in order <==> x in order[..i] || x == order[i] || x in order[i + 1..];
    }
  }

  /** In whatever order the accounts are taken, their events are the same. */
  lemma {:induction false} OrderIsIrrelevant(a: seq<AccountId>, b: seq<AccountId>, events: map<AccountId, seq<Event>>, keys: set<AccountId>)
    requires Enumerates(a, keys) && Enumerates(b, keys) && keys <= events.Keys
    ensures multiset(Concat(a, events)) == multiset(Concat(b, events))
    decreases a
  {
    if a == [] {
      NoMembers(b);
    } else {
      var n := |a| - 1;
      var id := a[n];
      assert id in a;
      var i :| 0 <= i < |b| && b[i] == id;
      ConcatWithout(b, events, i);
      EnumeratesWithout(b, keys, i);
      EnumeratesWithout(a, keys, n);
      assert a[..n] + a[n + 1..] == a[..n];
      OrderIsIrrelevant(a[..n], b[..i] + b[i + 1..], events, keys - {id});
    }
  }

  method InsertSorted(events: seq<Event>, e: Event) returns (sorted: seq<Event>)
    requires Sorted(events)
    ensures Sorted(sorted) && multiset(sorted) == multiset(events) + multiset{e}
  {
    var i := |events|;
    while i > 0 && events[i - 1].start > e.start
      invariant 0 <= i <= |events| && forall k :: i <= k < |events| ==> e.start < events[k].start
    {
      i := i - 1;
    }
    sorted := events[..i] + [e] + events[i..];
    InsertionSorted(events, e, i);
    InsertionAdds(events, e, i);
  }

  lemma InsertionAdds<T>(s: seq<T>, e: T, i: nat)
    requires i <= |s|
    ensures multiset(s[..i] + [e] + s[i..]) == multiset(s) + multiset{e}
  {
    assert s == s[..i] + s[i..];
  }

  lemma InsertionSorted(events: seq<Event>, e: Event, i: nat)
    requires Sorted(events) && i <= |events| && (i > 0 ==> events[i - 1].start <= e.start)
    requires forall k :: i <= k < |events| ==> e.start <= events[k].start
    ensures Sorted(events[..i] + [e] + events[i..])
  {
    var sorted := events[..i] + [e] + events[i..];
    forall j, k | 0 <= j < k < |sorted|
      ensures sorted[j].start <= sorted[k].start
    {
      assert sorted[j] == if j < i then events[j] else if j == i then e else events[j - 1];
      assert sorted[k] == if k < i then events[k] else if k == i then e else events[k - 1];
    }
  }

  /** `std::ranges::sort`: some sorted arrangement. */
  method SortByStart(events: seq<Event>) returns (sorted: seq<Event>)
    ensures Sorted(sorted) && multiset(sorted) == multiset(events)
  {
    sorted := [];
    var i := 0;
    while i < |events|
      invariant 0 <= i <= |events| && Sorted(sorted) && multiset(sorted) == multiset(events[..i])
    {
      assert events[..i + 1] == events[..i] + [events[i]];
      sorted := InsertSorted(sorted, events[i]);
      i := i + 1;
    }
    assert events[..i] == events;
  }

  function IdsOf(accounts: seq<Account>): (ids: seq<AccountId>)
    ensures |ids| == |accounts| && forall i :: 0 <= i < |ids| ==> ids[i] == accounts[i].id
  {
    if accounts == [] then [] else IdsOf(accounts[..|accounts| - 1]) + [accounts[|accounts| - 1].id]
  }

  function Ids(accounts: seq<Account>): (ids: set<AccountId>)
    ensures forall id :: id in ids <==> exists i :: 0 <= i < |accounts| && accounts[i].id == id
  {
    set a | a in accounts :: a.id
  }

  /** The snapshot is the events of these accounts, sorted by start. */
  ghost predicate IsSnapshot(snapshot: seq<Event>, events: map<AccountId, seq<Event>>) {
    Sorted(snapshot)
    && forall order :: Enumerates(order, events.Keys) ==> multiset(snapshot) == multiset(Concat(order, events))
  }

  lemma EnumerateKeys(keys: set<AccountId>) returns (order: seq<AccountId>)
    ensures Enumerates(order, keys)
    decreases keys
  {
    if keys == {} {
      order := [];
    } else {
      var id :| id in keys;
      var fewer := EnumerateKeys(keys - {id});
      order := fewer + [id];
    }
  }

  lemma {:induction false} InConcat(order: seq<AccountId>, events: map<AccountId, seq<Event>>, e: Event)
    requires forall id <- order :: id in events
    ensures e in Concat(order, events) <==> exists id :: id in order && e in events[id]
    decreases order
  {
    if order != [] {
      var fewer, last := order[..|order| - 1], order[|order| - 1];
      assert order == fewer + [last] && forall id <- fewer :: id in order;
      InConcat(fewer, events, e);
    }
  }

  /** A snapshot has the events of these accounts and no others, each no earlier than the one before it. */
  lemma SnapshotHas(snapshot: seq<Event>, events: map<AccountId, seq<Event>>, e: Event)
    requires IsSnapshot(snapshot, events)
    ensures e in snapshot <==> exists id :: id in events && e in events[id]
    ensures forall i :: 0 < i < |snapshot| ==> snapshot[i - 1].start <= snapshot[i].start
  {
    var order := EnumerateKeys(events.Keys);
    InConcat(order, events, e);
    assert e in snapshot <==> e in multiset(snapshot);
    assert e in Concat(order, events) <==> e in multiset(Concat(order, events));
  }

  // ----- what an answer does -----

  /** The account waits on, or is done: with its events, or without any when it failed. */
  datatype Outcome = Waits(flow: Flow) | Ends(result: Option<seq<Event>>)

  /** All of a Google account's calendars have been fetched, or none could be. */
  function GoogleOutcome(retry: bool, ok: bool, unauthorized: bool, events: seq<Event>, connected: bool): Outcome {
    if unauthorized && retry then (if connected then Waits(RefreshingToken) else Ends(None))
    else Ends(if ok && !unauthorized then Some(events) else None)
  }

  function React(flow: Flow, a: Answer): Outcome
    requires Answers(flow, a)
  {
    match flow
    case Discovering => if a.ok && a.collections > 0 then Waits(Reporting(a.collections, false, [])) else Ends(None)
    case Reporting(pending, anyOk, events) =>
      var anyOk', events' := anyOk || a.ok, if a.ok then events + a.events else events;
      if pending > 1 then Waits(Reporting(pending - 1, anyOk', events')) else Ends(if anyOk' then Some(events') else None)
    case Listing(retry) =>
      if a.unauthorized then GoogleOutcome(retry, false, true, [], a.connected)
      else if !a.ok then GoogleOutcome(retry, false, false, [], a.connected)
      else if a.calendars == 0 then GoogleOutcome(retry, true, false, [], a.connected)
      else Waits(Fetching(retry, a.calendars, false, []))
    case Fetching(retry, pending, unauthorized, events) =>
      var unauthorized' := unauthorized || a.unauthorized;
      var events' := if !a.unauthorized && a.ok then events + a.events else events;
      if pending > 1 then Waits(Fetching(retry, pending - 1, unauthorized', events'))
      else GoogleOutcome(retry, !unauthorized', unauthorized', events', a.connected)
    case RefreshingToken => if a.ok then Waits(Listing(false)) else Ends(None)
  }

  /** What an account has done in a refresh. */
  datatype Ledger = Ledger(dones: nat, fetches: nat, tokenRequests: nat, result: Option<seq<Event>>)

  /** One Google fetch, and a second only after the one token request; each account is done once. */
  predicate Bounded(flow: Flow, l: Ledger) {
    && l.fetches <= 2 && l.tokenRequests <= 1
    && (l.dones == if flow.Done? then 1 else 0)
    && (!flow.Done? ==> l.result == None)
    && match flow
       case Listing(retry) => if retry then l.fetches == 1 && l.tokenRequests == 0 else l.tokenRequests == 1
       case Fetching(retry, pending, _, _) =>
         pending > 0 && if retry then l.fetches == 1 && l.tokenRequests == 0 else l.tokenRequests == 1
       case RefreshingToken => l.fetches <= 1 && l.tokenRequests == 1
       case Reporting(pending, _, _) => pending > 0
       case Waiting => l.fetches == 0 && l.tokenRequests == 0
       case _ => true
  }

  predicate AllBounded(flows: seq<Flow>, ledger: seq<Ledger>) {
    |flows| == |ledger| && forall i :: 0 <= i < |flows| ==> Bounded(flows[i], ledger[i])
  }

  lemma StillBounded(flows: seq<Flow>, ledger: seq<Ledger>, i: nat, flow: Flow, l: Ledger)
    requires AllBounded(flows, ledger) && i < |flows| && Bounded(flow, l)
    ensures AllBounded(flows[i := flow], ledger[i := l])
  {
  }

  function Lookup(events: map<AccountId, seq<Event>>, id: AccountId): Option<seq<Event>> {
    if id in events then Some(events[id]) else None
  }

  predicate Distinct(ids: seq<AccountId>) {
    forall i, j :: 0 <= i < j < |ids| ==> ids[i] != ids[j]
  }

  /** The accounts done successfully have their new events, all others what they had before. */
  ghost predicate Merged(base: map<AccountId, seq<Event>>, ids: seq<AccountId>, ledger: seq<Ledger>, events: map<AccountId, seq<Event>>)
    requires |ids| == |ledger|
  {
    && (forall i :: 0 <= i < |ids| ==>
          Lookup(events, ids[i]) == if ledger[i].result.Some? then ledger[i].result else Lookup(base, ids[i]))
    && (forall id :: id !in ids ==> Lookup(events, id) == Lookup(base, id))
  }

  lemma MergesOn(base: map<AccountId, seq<Event>>, ids: seq<AccountId>, ledger: seq<Ledger>, events: map<AccountId, seq<Event>>,
                 i: nat, l: Ledger)
    requires |ids| == |ledger| && Distinct(ids) && i < |ids| && Merged(base, ids, ledger, events) && ledger[i].result == None
    ensures Merged(base, ids, ledger[i := l], if l.result.Some? then events[ids[i] := l.result.value] else events)
  {
  }

  ghost function Blank(n: nat): (ledger: seq<Ledger>)
    ensures |ledger| == n && forall i :: 0 <= i < n ==> ledger[i] == Ledger(0, 0, 0, None)
  {
    if n == 0 then [] else Blank(n - 1) + [Ledger(0, 0, 0, None)]
  }

  method NewFlows(n: nat) returns (flows: seq<Flow>)
    ensures |flows| == n && Outstanding(flows) == n && forall i :: 0 <= i < n ==> flows[i] == Waiting
  {
    flows := AllWaiting(n);
  }

  lemma NewLedger(flows: seq<Flow>, ids: seq<AccountId>, events: map<AccountId, seq<Event>>) returns (ledger: seq<Ledger>)
    requires |flows| == |ids| && forall i :: 0 <= i < |flows| ==> flows[i] == Waiting
    ensures AllBounded(flows, ledger) && Merged(events, ids, ledger, events)
  {
    ledger := Blank(|flows|);
    NothingYet(flows, ids, ledger, events);
  }

  lemma NothingYet(flows: seq<Flow>, ids: seq<AccountId>, ledger: seq<Ledger>, events: map<AccountId, seq<Event>>)
    requires |flows| == |ids| == |ledger|
    requires forall i :: 0 <= i < |flows| ==> flows[i] == Waiting && ledger[i] == Ledger(0, 0, 0, None)
    ensures AllBounded(flows, ledger) && Merged(events, ids, ledger, events)
  {
  }

  function Restricted(events: map<AccountId, seq<Event>>, ids: set<AccountId>): map<AccountId, seq<Event>> {
    map id | id in events && id in ids :: events[id]
  }

  lemma RestrictedMerge(base: map<AccountId, seq<Event>>, ids: seq<AccountId>, ledger: seq<Ledger>, stored: map<AccountId, seq<Event>>,
                        configured: set<AccountId>)
    requires |ids| == |ledger| && Merged(base, ids, ledger, stored)
    ensures Settled(base, ids, ledger, configured, Restricted(stored, configured))
  {
  }

  /** What a refresh leaves: a configured account that was fetched has its new events, one that failed or was not part
      of it what it had before, and an account that is not configured has none. */
  ghost predicate Settled(base: map<AccountId, seq<Event>>, ids: seq<AccountId>, ledger: seq<Ledger>, configured: set<AccountId>,
                          events: map<AccountId, seq<Event>>)
    requires |ids| == |ledger|
  {
    && (forall i :: 0 <= i < |ids| && ids[i] in configured ==>
          Lookup(events, ids[i]) == if ledger[i].result.Some? then ledger[i].result else Lookup(base, ids[i]))
    && (forall id :: id in configured && id !in ids ==> Lookup(events, id) == Lookup(base, id))
    && (forall id :: id !in configured ==> Lookup(events, id) == None)
  }

  // ----- runs -----

  /** An answer to account `i`, or a change of the configuration. */
  datatype Happening = Answered(i: nat, a: Answer) | Configured(accounts: seq<Account>, enabled: bool)

  /** Where one account stands: what it waits for, and the events it has come to. */
  datatype Progress = Progress(flow: Flow, result: Option<seq<Event>>)

  function Started(account: Account): Progress {
    match account.kind
    case CalDav(ready) => Progress(if ready then Discovering else Done, None)
    case Google(connected, tokenValid) =>
      Progress(if !connected then Done else if tokenValid then Listing(true) else RefreshingToken, None)
    case Unknown => Progress(Done, None)
  }

  /** One answer; it is nothing to an account that does not wait for it. */
  function Step(p: Progress, a: Answer): Progress {
    if !Answers(p.flow, a) then p
    else
      match React(p.flow, a)
      case Waits(flow) => p.(flow := flow)
      case Ends(result) => Progress(Done, result)
  }

  /** What a happening does to the `i`th account: its own answers bring it on, and a disabled calendar forgets. */
  function Next(p: Progress, i: nat, h: Happening): Progress {
    match h
    case Answered(j, a) => if j == i then Step(p, a) else p
    case Configured(_, enabled) => if enabled then p else p.(result := None)
  }

  function After(p: Progress, i: nat, hs: seq<Happening>): Progress {
    if hs == [] then p else Next(After(p, i, hs[..|hs| - 1]), i, hs[|hs| - 1])
  }

  /** The events from before the refresh, unless a disabled calendar has forgotten them. */
  function BaseAfter(base: map<AccountId, seq<Event>>, hs: seq<Happening>): map<AccountId, seq<Event>> {
    if hs == [] then base
    else
      var h := hs[|hs| - 1];
      if h.Configured? && !h.enabled then map[] else BaseAfter(base, hs[..|hs| - 1])
  }

  function AccountsAfter(accounts: seq<Account>, hs: seq<Happening>): seq<Account> {
    if hs == [] then accounts
    else if hs[|hs| - 1].Configured? then hs[|hs| - 1].accounts
    else AccountsAfter(accounts, hs[..|hs| - 1])
  }

  /** What concerns the `i`th account. */
  function Own(i: nat, hs: seq<Happening>): seq<Happening> {
    if hs == [] then []
    else
      var h := hs[|hs| - 1];
      Own(i, hs[..|hs| - 1]) + if h.Answered? && h.i != i then [] else [h]
  }

  lemma {:induction false} OwnDecides(p: Progress, i: nat, hs: seq<Happening>)
    ensures After(p, i, hs) == After(p, i, Own(i, hs))
    decreases hs
  {
    if hs != [] {
      var before, h := hs[..|hs| - 1], hs[|hs| - 1];
      OwnDecides(p, i, before);
      if h.Answered? && h.i != i {
        assert Own(i, before) + [] == Own(i, before);
      } else {
        assert (Own(i, before) + [h])[..|Own(i, before)|] == Own(i, before);
      }
    }
  }

  /** Where an account ends depends on its own answers in their order, not on how they come among those of others. */
  lemma InterleavingIsIrrelevant(p: Progress, i: nat, hs: seq<Happening>, gs: seq<Happening>)
    requires Own(i, hs) == Own(i, gs)
    ensures After(p, i, hs) == After(p, i, gs)
  {
    OwnDecides(p, i, hs);
    OwnDecides(p, i, gs);
  }

  // ----- what an account ends with, told from its answers alone -----

  /** The answers to the `i`th account, in their order. */
  function AnswersOf(i: nat, hs: seq<Happening>): seq<Answer> {
    if hs == [] then []
    else
      var h := hs[|hs| - 1];
      AnswersOf(i, hs[..|hs| - 1]) + if h.Answered? && h.i == i then [h.a] else []
  }

  function Through(p: Progress, answers: seq<Answer>): Progress {
    if answers == [] then p else Step(Through(p, answers[..|answers| - 1]), answers[|answers| - 1])
  }

  predicate Forgets(hs: seq<Happening>) {
    exists h :: h in hs && h.Configured? && !h.enabled
  }

  /** The happenings end with the answer that the account is done by. */
  predicate EndsWithAnswer(i: nat, hs: seq<Happening>) {
    hs != [] && hs[|hs| - 1].Answered? && hs[|hs| - 1].i == i
  }

  lemma {:induction false} FlowThrough(p: Progress, i: nat, hs: seq<Happening>)
    requires p.result == None
    ensures After(p, i, hs).flow == Through(p, AnswersOf(i, hs)).flow
    ensures !After(p, i, hs).flow.Done? ==> After(p, i, hs) == Through(p, AnswersOf(i, hs)) && After(p, i, hs).result == None
    decreases hs
  {
    if hs != [] {
      var before, h := hs[..|hs| - 1], hs[|hs| - 1];
      FlowThrough(p, i, before);
      if h.Answered? && h.i == i {
        assert (AnswersOf(i, before) + [h.a])[..|AnswersOf(i, before)|] == AnswersOf(i, before);
      } else {
        assert AnswersOf(i, before) + [] == AnswersOf(i, before);
      }
    }
  }

  lemma {:induction false} DoneStays(p: Progress, i: nat, hs: seq<Happening>)
    requires p.flow.Done?
    ensures After(p, i, hs) == Progress(Done, if Forgets(hs) then None else p.result)
    decreases hs
  {
    if hs != [] {
      DoneStays(p, i, hs[..|hs| - 1]);
      assert hs == hs[..|hs| - 1] + [hs[|hs| - 1]];
    }
  }

  lemma {:induction false} AfterMore(p: Progress, i: nat, hs: seq<Happening>, rest: seq<Happening>)
    ensures After(p, i, hs + rest) == After(After(p, i, hs), i, rest)
    decreases rest
  {
    if rest == [] {
      assert hs + rest == hs;
    } else {
      assert (hs + rest)[..|hs + rest| - 1] == hs + rest[..|rest| - 1];
      AfterMore(p, i, hs, rest[..|rest| - 1]);
    }
  }

  lemma {:induction false} ThroughMore(p: Progress, a: seq<Answer>, b: seq<Answer>)
    ensures Through(p, a + b) == Through(Through(p, a), b)
    decreases b
  {
    if b == [] {
      assert a + b == a;
    } else {
      assert (a + b)[..|a + b| - 1] == a + b[..|b| - 1];
      ThroughMore(p, a, b[..|b| - 1]);
    }
  }

  lemma ThroughFirst(p: Progress, a: Answer, rest: seq<Answer>)
    ensures Through(p, [a] + rest) == Through(Through(p, [a]), rest)
  {
    ThroughMore(p, [a], rest);
  }

  /** Whatever comes between the answers, the account ends with what they bring it to, until a disabled calendar forgets. */
  lemma EndsThrough(p: Progress, i: nat, hs: seq<Happening>, rest: seq<Happening>)
    requires p.result == None && EndsWithAnswer(i, hs)
    requires var answers := AnswersOf(i, hs);
             !Through(p, answers[..|answers| - 1]).flow.Done? && Through(p, answers).flow.Done?
    ensures After(p, i, hs + rest) == Progress(Done, if Forgets(rest) then None else Through(p, AnswersOf(i, hs)).result)
  {
    var before, h := hs[..|hs| - 1], hs[|hs| - 1];
    assert (AnswersOf(i, before) + [h.a])[..|AnswersOf(i, before)|] == AnswersOf(i, before);
    FlowThrough(p, i, before);
    AfterMore(p, i, hs, rest);
    DoneStays(After(p, i, hs), i, rest);
  }

  predicate AllReports(answers: seq<Answer>) {
    forall a <- answers :: a.Report?
  }

  predicate AllCalendarEvents(answers: seq<Answer>) {
    forall a <- answers :: a.CalendarEvents?
  }

  predicate SomeOk(reports: seq<Answer>)
    requires AllReports(reports)
  {
    exists a :: a in reports && a.ok
  }

  predicate SomeRefused(answers: seq<Answer>)
    requires AllCalendarEvents(answers)
  {
    exists a :: a in answers && a.unauthorized
  }

  /** The events of the answers that were good, in the order of the answers. */
  function Good(answers: seq<Answer>): seq<Event>
    requires AllReports(answers) || AllCalendarEvents(answers)
  {
    if answers == [] then []
    else if answers[0].ok then answers[0].events + Good(answers[1..])
    else Good(answers[1..])
  }

  lemma {:induction false} GoodLast(answers: seq<Answer>)
    requires answers != [] && (AllReports(answers) || AllCalendarEvents(answers))
    ensures var n := |answers| - 1;
            Good(answers) == if answers[n].ok then Good(answers[..n]) + answers[n].events else Good(answers[..n])
    decreases answers
  {
    var n := |answers| - 1;
    if n > 0 {
      GoodLast(answers[1..]);
      assert answers[1..][..n - 1] == answers[..n][1..];
    }
  }

  /** The reports of `n` collections are gathered: the account waits for the others, then ends with the events of all that
      were good, and with none only if no report was. */
  lemma {:induction false} ReportsGather(n: nat, reports: seq<Answer>)
    requires AllReports(reports) && |reports| <= n && n > 0
    ensures Through(Progress(Reporting(n, false, []), None), reports)
         == if |reports| < n then Progress(Reporting(n - |reports|, SomeOk(reports), Good(reports)), None)
            else Progress(Done, if SomeOk(reports) then Some(Good(reports)) else None)
    decreases reports
  {
    if reports != [] {
      var fewer, last := reports[..|reports| - 1], reports[|reports| - 1];
      ReportsGather(n, fewer);
      GoodLast(reports);
      assert reports == fewer + [last];
      assert SomeOk(reports) <==> SomeOk(fewer) || last.ok;
    }
  }

  /** A whole CalDAV account: a discovery that fails or finds nothing ends it without events, otherwise it has the good
      reports of its collections. */
  lemma CalDavEnds(account: Account, i: nat, hs: seq<Happening>, rest: seq<Happening>, found: Answer, reports: seq<Answer>)
    requires account.kind == CalDav(true) && found.Discovery? && AllReports(reports)
    requires |reports| == if found.ok then found.collections else 0
    requires AnswersOf(i, hs) == [found] + reports && EndsWithAnswer(i, hs)
    ensures After(Started(account), i, hs + rest)
         == Progress(Done, if !Forgets(rest) && SomeOk(reports) then Some(Good(reports)) else None)
  {
    var p, answers := Started(account), AnswersOf(i, hs);
    assert [found][..0] == [];
    if reports == [] {
      assert answers == [found] && answers[..|answers| - 1] == [];
      EndsThrough(p, i, hs, rest);
    } else {
      var n := |reports|;
      assert answers[..|answers| - 1] == [found] + reports[..n - 1];
      ThroughFirst(p, found, reports);
      ThroughFirst(p, found, reports[..n - 1]);
      ReportsGather(n, reports);
      ReportsGather(n, reports[..n - 1]);
      EndsThrough(p, i, hs, rest);
    }
  }

  /** The answers to one fetch of a Google account: the list of its calendars, then the events of each of them. */
  datatype Fetch = Fetch(list: Answer, events: seq<Answer>) {
    predicate Complete() {
      list.CalendarList? && AllCalendarEvents(events) && |events| == if list.ok && !list.unauthorized then list.calendars else 0
    }

    function Replies(): seq<Answer> {
      [list] + events
    }

    /** Somewhere the access token was not accepted. */
    predicate Refused()
      requires Complete()
    {
      list.unauthorized || SomeRefused(events)
    }

    /** Whether there was still a refresh token when the last answer came. */
    predicate Connected()
      requires Complete()
    {
      if events == [] then list.connected else events[|events| - 1].connected
    }

    /** Calendars that cannot be read are skipped, and only a list that cannot be read or a token that is not accepted is
        a failure. */
    function Yield(): Option<seq<Event>>
      requires Complete()
    {
      if Refused() || !list.ok then None else Some(Good(events))
    }
  }

  /** The events of `n` calendars are gathered until the last answer decides. */
  lemma {:induction false} CalendarsGather(retry: bool, n: nat, events: seq<Answer>)
    requires AllCalendarEvents(events) && |events| < n
    ensures var p := Through(Progress(Fetching(retry, n, false, []), None), events);
            && p.result == None && p.flow.Fetching? && p.flow.retry == retry && p.flow.pending == n - |events|
            && p.flow.unauthorized == SomeRefused(events)
            && (!SomeRefused(events) ==> p.flow.events == Good(events))
    decreases events
  {
    if events != [] {
      var fewer, last := events[..|events| - 1], events[|events| - 1];
      CalendarsGather(retry, n, fewer);
      GoodLast(events);
      assert events == fewer + [last];
      assert SomeRefused(events) <==> SomeRefused(fewer) || last.unauthorized;
    }
  }

  lemma LastCalendar(p: Progress, a: Answer)
    requires p.flow.Fetching? && p.flow.pending == 1 && p.result == None && a.CalendarEvents?
    ensures var refused := p.flow.unauthorized || a.unauthorized;
            Step(p, a)
            == if p.flow.retry && refused && a.connected then Progress(RefreshingToken, None)
               else Progress(Done, if refused then None else Some(if a.ok then p.flow.events + a.events else p.flow.events))
  {
  }

  lemma CalendarsEnd(retry: bool, events: seq<Answer>)
    requires AllCalendarEvents(events) && events != []
    ensures var p, n := Progress(Fetching(retry, |events|, false, []), None), |events| - 1;
            && !Through(p, events[..n]).flow.Done?
            && Through(p, events)
            == if retry && SomeRefused(events) && events[n].connected then Progress(RefreshingToken, None)
               else Progress(Done, if SomeRefused(events) then None else Some(Good(events)))
  {
    var fewer, last := events[..|events| - 1], events[|events| - 1];
    CalendarsGather(retry, |events|, fewer);
    LastCalendar(Through(Progress(Fetching(retry, |events|, false, []), None), fewer), last);
    GoodLast(events);
    assert events == fewer + [last];
    assert SomeRefused(events) <==> SomeRefused(fewer) || last.unauthorized;
  }

  lemma ListEnds(retry: bool, list: Answer)
    requires list.CalendarList?
    ensures Through(Progress(Listing(retry), None), [list])
         == if retry && list.unauthorized && list.connected then Progress(RefreshingToken, None)
            else if list.unauthorized || !list.ok then Progress(Done, None)
            else if list.calendars == 0 then Progress(Done, Some([]))
            else Progress(Fetching(retry, list.calendars, false, []), None)
  {
    assert [list][..0] == [];
  }

  /** Where a fetch leads: to the token request if it was the first, was refused and there is a refresh token, otherwise to
      the end with what it yields. */
  lemma FetchEnds(retry: bool, f: Fetch)
    requires f.Complete()
    ensures Through(Progress(Listing(retry), None), f.Replies())
         == if retry && f.Refused() && f.Connected() then Progress(RefreshingToken, None) else Progress(Done, f.Yield())
    ensures !Through(Progress(Listing(retry), None), f.Replies()[..|f.events|]).flow.Done?
  {
    var p, n := Progress(Listing(retry), None), |f.events|;
    ListEnds(retry, f.list);
    if n == 0 {
      assert f.Replies() == [f.list] && f.Replies()[..0] == [];
    } else {
      CalendarsEnd(retry, f.events);
      ThroughFirst(p, f.list, f.events);
      ThroughFirst(p, f.list, f.events[..n - 1]);
      assert f.Replies()[..n] == [f.list] + f.events[..n - 1];
    }
  }

  /** Everything the servers say to a Google account. */
  datatype Talk = Talk(tokenValid: bool, first: Fetch, token: bool, second: Fetch) {
    predicate Complete() {
      first.Complete() && second.Complete()
    }

    /** A new token is asked for if the old one is not valid, or not accepted by the first fetch. */
    predicate AsksForToken()
      requires Complete()
    {
      !tokenValid || (first.Refused() && first.Connected())
    }

    function Replies(): seq<Answer>
      requires Complete()
    {
      (if tokenValid then first.Replies() else [])
      + (if AsksForToken() then [Token(token)] + (if token then second.Replies() else []) else [])
    }

    /** The events of the last fetch there was. */
    function Result(): Option<seq<Event>>
      requires Complete()
    {
      if !AsksForToken() then first.Yield() else if token then second.Yield() else None
    }
  }

  lemma TokenEnds(token: bool, second: Fetch)
    requires second.Complete()
    ensures var p, replies := Progress(RefreshingToken, None), [Token(token)] + if token then second.Replies() else [];
            && Through(p, replies) == Progress(Done, if token then second.Yield() else None)
            && !Through(p, replies[..|replies| - 1]).flow.Done?
  {
    var p, a := Progress(RefreshingToken, None), Token(token);
    assert [a][..0] == [];
    if token {
      var replies := second.Replies();
      FetchEnds(false, second);
      ThroughFirst(p, a, replies);
      ThroughFirst(p, a, replies[..|replies| - 1]);
      assert ([a] + replies)[..|replies|] == [a] + replies[..|replies| - 1];
    } else {
      assert [a] + [] == [a];
    }
  }

  /** One answer after another: if `a` leads to `q`, and `b` from there to an end with its last answer, so does `a + b`. */
  lemma EndsJoined(p: Progress, q: Progress, a: seq<Answer>, b: seq<Answer>)
    requires b != [] && Through(p, a) == q && !Through(q, b[..|b| - 1]).flow.Done?
    ensures Through(p, a + b) == Through(q, b) && !Through(p, (a + b)[..|a + b| - 1]).flow.Done?
  {
    ThroughMore(p, a, b);
    ThroughMore(p, a, b[..|b| - 1]);
    assert (a + b)[..|a + b| - 1] == a + b[..|b| - 1];
  }

  ghost predicate EndsBy(p: Progress, replies: seq<Answer>, result: Option<seq<Event>>) {
    replies != [] && Through(p, replies) == Progress(Done, result) && !Through(p, replies[..|replies| - 1]).flow.Done?
  }

  lemma AskedAgain(first: Fetch, token: bool, second: Fetch)
    requires first.Complete() && second.Complete() && first.Refused() && first.Connected()
    ensures EndsBy(Progress(Listing(true), None), first.Replies() + ([Token(token)] + if token then second.Replies() else []),
                   if token then second.Yield() else None)
  {
    FetchEnds(true, first);
    TokenEnds(token, second);
    EndsJoined(Progress(Listing(true), None), Progress(RefreshingToken, None), first.Replies(),
               [Token(token)] + if token then second.Replies() else []);
  }

  lemma FirstSuffices(first: Fetch)
    requires first.Complete() && !(first.Refused() && first.Connected())
    ensures EndsBy(Progress(Listing(true), None), first.Replies(), first.Yield())
  {
    FetchEnds(true, first);
  }

  lemma TalkEnds(t: Talk)
    requires t.Complete()
    ensures EndsBy(Progress(if t.tokenValid then Listing(true) else RefreshingToken, None), t.Replies(), t.Result())
  {
    var later := [Token(t.token)] + if t.token then t.second.Replies() else [];
    if !t.tokenValid {
      TokenEnds(t.token, t.second);
      assert t.Replies() == later;
    } else if t.AsksForToken() {
      AskedAgain(t.first, t.token, t.second);
      assert t.Replies() == t.first.Replies() + later;
    } else {
      FirstSuffices(t.first);
      assert t.Replies() == t.first.Replies();
    }
  }

  /** A whole Google account. */
  lemma GoogleEnds(account: Account, i: nat, hs: seq<Happening>, rest: seq<Happening>, t: Talk)
    requires account.kind == Google(true, t.tokenValid) && t.Complete()
    requires AnswersOf(i, hs) == t.Replies() && EndsWithAnswer(i, hs)
    ensures After(Started(account), i, hs + rest) == Progress(Done, if Forgets(rest) then None else t.Result())
  {
    TalkEnds(t);
    EndsThrough(Started(account), i, hs, rest);
  }

  /** What was known before the refresh is forgotten once a disabled calendar comes along. */
  lemma {:induction false} BaseForgets(base: map<AccountId, seq<Event>>, hs: seq<Happening>)
    ensures BaseAfter(base, hs) == if Forgets(hs) then map[] else base
    decreases hs
  {
    if hs != [] {
      BaseForgets(base, hs[..|hs| - 1]);
      assert hs == hs[..|hs| - 1] + [hs[|hs| - 1]];
    }
  }

  /** The accounts are those of the latest configuration. */
  lemma {:induction false} AccountsAreLatest(accounts: seq<Account>, hs: seq<Happening>, latest: seq<Account>, enabled: bool,
                                             answers: seq<Happening>)
    requires forall h <- answers :: h.Answered?
    ensures AccountsAfter(accounts, answers) == accounts
    ensures AccountsAfter(accounts, hs + [Configured(latest, enabled)] + answers) == latest
    decreases answers
  {
    var front, n := hs + [Configured(latest, enabled)], |answers| - 1;
    if answers == [] {
      assert front + answers == front;
    } else {
      assert (front + answers)[..|front + answers| - 1] == front + answers[..n] && answers[n] in answers;
      AccountsAreLatest(accounts, hs, latest, enabled, answers[..n]);
    }
  }

  /** An account that cannot be asked has no events. */
  lemma NothingToAsk(account: Account, i: nat, hs: seq<Happening>)
    requires account.kind == CalDav(false) || (account.kind.Google? && !account.kind.connected) || account.kind == Unknown
    ensures After(Started(account), i, hs) == Progress(Done, None)
  {
    DoneStays(Started(account), i, hs);
  }

  /** Two refreshes from the same events and configuration in which every account came to the same leave the same events. */
  lemma SameOutcomesSameEvents(base: map<AccountId, seq<Event>>, ids: seq<AccountId>, a: seq<Ledger>, b: seq<Ledger>,
                               configured: set<AccountId>, x: map<AccountId, seq<Event>>, y: map<AccountId, seq<Event>>)
    requires |ids| == |a| == |b| && forall i :: 0 <= i < |ids| ==> a[i].result == b[i].result
    requires Settled(base, ids, a, configured, x) && Settled(base, ids, b, configured, y)
    ensures x == y
  {
    forall id
      ensures Lookup(x, id) == Lookup(y, id)
    {
      if id in configured && id in ids {
        var i :| 0 <= i < |ids| && ids[i] == id;
      }
    }
    assert forall id :: id in x <==> Lookup(x, id).Some?;
    assert forall id :: id in y <==> Lookup(y, id).Some?;
  }

  /** The events once an account is done with new ones, or without. */
  function Stored(events: map<AccountId, seq<Event>>, id: AccountId, result: Option<seq<Event>>): map<AccountId, seq<Event>> {
    if result.Some? then events[id := result.value] else events
  }

  /** The requests in flight, the counts and the events agree. */
  ghost predicate Consistent(flows: seq<Flow>, ledger: seq<Ledger>, ids: seq<AccountId>, base: map<AccountId, seq<Event>>,
                             events: map<AccountId, seq<Event>>, pending: nat, refreshing: bool)
  {
    && |flows| == |ids| && AllBounded(flows, ledger) && Distinct(ids)
    && pending == Outstanding(flows) && (refreshing <==> pending > 0)
    && (refreshing ==> Merged(base, ids, ledger, events))
  }

  function Closed(l: Ledger, result: Option<seq<Event>>): Ledger {
    l.(dones := l.dones + 1, result := result)
  }

  /** An account is done: its entry is closed, and the events are those of the entries. */
  lemma AccountCloses(flows: seq<Flow>, ledger: seq<Ledger>, ids: seq<AccountId>, base: map<AccountId, seq<Event>>,
                      events: map<AccountId, seq<Event>>, pending: nat, refreshing: bool, i: nat, result: Option<seq<Event>>)
    requires Consistent(flows, ledger, ids, base, events, pending, refreshing) && i < |flows| && !flows[i].Done?
    ensures refreshing && pending > 0 && Closed(ledger[i], result).dones == 1
    ensures var closed := ledger[i := Closed(ledger[i], result)];
            && AllBounded(flows[i := Done], closed) && Outstanding(flows[i := Done]) == pending - 1
            && Merged(base, ids, closed, Stored(events, ids[i], result))
  {
    var entry := Closed(ledger[i], result);
    OutstandingChanges(flows, i, Done);
    StillBounded(flows, ledger, i, Done, entry);
    MergesOn(base, ids, ledger, events, i, entry);
  }

  // ----- how long a refresh can take -----

  function Total(measure: Flow -> nat, flows: seq<Flow>): nat {
    if flows == [] then 0 else Total(measure, flows[..|flows| - 1]) + measure(flows[|flows| - 1])
  }

  lemma {:induction false} TotalChanges(measure: Flow -> nat, flows: seq<Flow>, i: nat, flow: Flow)
    requires i < |flows|
    ensures Total(measure, flows[i := flow]) == Total(measure, flows) - measure(flows[i]) + measure(flow)
    decreases flows
  {
    var n := |flows| - 1;
    if i == n {
      assert flows[i := flow][..n] == flows[..n];
    } else {
      assert flows[i := flow][..n] == flows[..n][i := flow];
      TotalChanges(measure, flows[..n], i, flow);
    }
  }

  // ----- the service -----

  class CalendarService {
    var accounts: seq<Account>
    var refreshing: bool
    var pendingAccounts: nat
    var eventsByAccount: map<AccountId, seq<Event>>
    var snapshot: Option<seq<Event>>

    /** What the callbacks of the requests in flight hold, account by account. */
    var ids: seq<AccountId>
    var flows: seq<Flow>

    ghost var ledger: seq<Ledger>
    ghost var base: map<AccountId, seq<Event>>
    ghost var starts: nat
    ghost var ends: nat

    ghost predicate Valid()
      reads this
    {
      && Consistent(flows, ledger, ids, base, eventsByAccount, pendingAccounts, refreshing)
      && starts == ends + (if refreshing then 1 else 0)
    }

    constructor ()
      ensures Valid() && !refreshing && eventsByAccount == map[] && snapshot == None
    {
      accounts, refreshing, pendingAccounts, eventsByAccount, snapshot := [], false, 0, map[], None;
      ids, flows, ledger, base, starts, ends := [], [], [], map[], 0, 0;
    }

    method RebuildSnapshot()
      modifies this`eventsByAccount, this`snapshot
      ensures eventsByAccount == Restricted(old(eventsByAccount), Ids(accounts))
      ensures snapshot.Some? && IsSnapshot(snapshot.value, eventsByAccount)
    {
      eventsByAccount := Restricted(eventsByAccount, Ids(accounts));
      var merged: seq<Event> := [];
      ghost var order: seq<AccountId> := [];
      var keys := eventsByAccount.Keys;
      while keys != {}
        invariant keys <= eventsByAccount.Keys && Enumerates(order, eventsByAccount.Keys - keys)
        invariant merged == Concat(order, eventsByAccount)
        decreases keys
      {
        var id :| id in keys;
        keys := keys - {id};
        merged := merged + eventsByAccount[id];
        assert (order + [id])[..|order|] == order;
        order := order + [id];
      }
      var sorted := SortByStart(merged);
      snapshot := Some(sorted);
      forall other | Enumerates(other, eventsByAccount.Keys)
        ensures multiset(sorted) == multiset(Concat(other, eventsByAccount))
      {
        OrderIsIrrelevant(order, other, eventsByAccount, eventsByAccount.Keys);
      }
    }

    method AccountDone(accountId: AccountId, ok: bool, events: seq<Event>)
      modifies this`eventsByAccount, this`pendingAccounts, this`refreshing, this`snapshot, this`ends
      ensures pendingAccounts == if old(pendingAccounts) > 0 then old(pendingAccounts) - 1 else 0
      ensures var stored := Stored(old(eventsByAccount), accountId, if ok then Some(events) else None);
              if pendingAccounts > 0 then
                eventsByAccount == stored && refreshing == old(refreshing) && snapshot == old(snapshot) && ends == old(ends)
              else
                eventsByAccount == Restricted(stored, Ids(accounts)) && !refreshing && ends == old(ends) + 1
                && snapshot.Some? && IsSnapshot(snapshot.value, eventsByAccount)
    {
      if ok {
        eventsByAccount := eventsByAccount[accountId := events];
      }
      if pendingAccounts > 0 {
        pendingAccounts := pendingAccounts - 1;
      }
      if pendingAccounts == 0 {
        refreshing := false;
        ends := ends + 1;
        RebuildSnapshot();
      }
    }

    /** An account is done. The refresh ends with the last one, and the snapshot is made. */
    method Finish(i: nat, ok: bool, events: seq<Event>)
      requires Valid() && i < |flows| && !flows[i].Done?
      modifies this`flows, this`ledger, this`eventsByAccount, this`pendingAccounts, this`refreshing, this`snapshot, this`ends
      ensures Valid() && flows == old(flows)[i := Done]
      ensures ledger == old(ledger)[i := old(ledger[i]).(dones := 1, result := if ok then Some(events) else None)]
      ensures !refreshing ==> Ended()
    {
      ghost var result := if ok then Some(events) else None;
      ghost var stored := Stored(eventsByAccount, ids[i], result);
      AccountCloses(flows, ledger, ids, base, eventsByAccount, pendingAccounts, refreshing, i, result);
      flows := flows[i := Done];
      ledger := ledger[i := Closed(ledger[i], result)];
      AccountDone(ids[i], ok, events);
      if pendingAccounts == 0 {
        RestrictedMerge(base, ids, ledger, stored, Ids(accounts));
      }
    }

    /** The configured accounts have what the refresh left them, and the snapshot is theirs. */
    ghost predicate Ended()
      reads this
    {
      && |ids| == |ledger| && Settled(base, ids, ledger, Ids(accounts), eventsByAccount)
      && snapshot.Some? && IsSnapshot(snapshot.value, eventsByAccount)
    }

    ghost function At(i: nat): Progress
      reads this
      requires i < |flows| == |ledger|
    {
      Progress(flows[i], ledger[i].result)
    }

    /** The other accounts stay as they are. */
    ghost predicate Others(was: seq<Flow>, entries: seq<Ledger>, i: nat)
      reads this
      requires |was| == |entries|
    {
      && |flows| == |ledger| == |was|
      && forall k :: 0 <= k < |was| && k != i ==> flows[k] == was[k] && ledger[k] == entries[k]
    }

    /** A request was sent, or answered, and the account waits on. */
    method WaitOn(i: nat, flow: Flow, ghost entry: Ledger)
      requires Valid() && i < |flows| && !flows[i].Done? && !flow.Done? && Bounded(flow, entry)
      modifies this`flows, this`ledger
      ensures Valid() && refreshing && flows == old(flows)[i := flow] && ledger == old(ledger)[i := entry]
    {
      OutstandingChanges(flows, i, flow);
      StillBounded(flows, ledger, i, flow, entry);
      MergesOn(base, ids, ledger, eventsByAccount, i, entry);
      flows := flows[i := flow];
      ledger := ledger[i := entry];
    }

    /** `fetchCalDav`, `fetchGoogle` or a warning. */
    method Begin(i: nat, account: Account)
      requires Valid() && i < |flows| && flows[i].Waiting?
      modifies this`flows, this`ledger, this`eventsByAccount, this`pendingAccounts, this`refreshing, this`snapshot, this`ends
      ensures Valid() && Others(old(flows), old(ledger), i) && At(i) == Started(account)
      ensures !refreshing ==> Ended()
    {
      match account.kind {
        case CalDav(ready) =>
          if !ready {
            Finish(i, false, []);
          } else {
            WaitOn(i, Discovering, ledger[i]);
          }
        case Google(connected, tokenValid) =>
          if !connected {
            Finish(i, false, []);
          } else if tokenValid {
            WaitOn(i, Listing(true), ledger[i].(fetches := ledger[i].fetches + 1));
          } else {
            WaitOn(i, RefreshingToken, ledger[i].(tokenRequests := ledger[i].tokenRequests + 1));
          }
        case Unknown => Finish(i, false, []);
      }
    }

    /** All accounts are counted before any is fetched. */
    method Open()
      requires Valid() && !refreshing && accounts != [] && Distinct(IdsOf(accounts))
      modifies this
      ensures Valid() && refreshing && accounts == old(accounts) && ids == IdsOf(accounts)
      ensures base == old(eventsByAccount) && starts == old(starts) + 1
      ensures forall k :: 0 <= k < |flows| ==> flows[k].Waiting?
    {
      var waiting := NewFlows(|accounts|);
      ghost var blank := NewLedger(waiting, IdsOf(accounts), eventsByAccount);
      refreshing, pendingAccounts := true, |accounts|;
      ids, flows := IdsOf(accounts), waiting;
      ledger, base, starts := blank, eventsByAccount, starts + 1;
    }

    method StartRefresh()
      requires Valid() && !refreshing && Distinct(IdsOf(accounts))
      modifies this
      ensures Valid() && accounts == old(accounts)
      ensures starts == old(starts) + if accounts == [] then 0 else 1
      ensures accounts != [] ==> base == old(eventsByAccount) && ids == IdsOf(accounts)
      ensures accounts != [] ==> |flows| == |ledger| == |accounts| && (!refreshing ==> Ended())
                                 && forall i :: 0 <= i < |flows| ==> At(i) == Started(accounts[i])
    {
      if accounts == [] {
        return;
      }
      Open();
      var i := 0;
      while i < |accounts|
        invariant 0 <= i <= |accounts| == |flows| && Valid() && accounts == old(accounts) && ids == IdsOf(accounts)
        invariant base == old(eventsByAccount) && starts == old(starts) + 1
        invariant forall k :: i <= k < |flows| ==> flows[k].Waiting?
        invariant forall k :: 0 <= k < i ==> At(k) == Started(accounts[k])
        invariant !refreshing ==> Ended()
      {
        Begin(i, accounts[i]);
        i := i + 1;
      }
    }

    /** The account has come to what the answer leads to, the others have stayed; the last one ends the refresh. */
    ghost predicate Reacted(outcome: Outcome, was: seq<Flow>, entries: seq<Ledger>, i: nat)
      reads this
      requires i < |was| == |entries|
    {
      && Others(was, entries, i)
      && match outcome
         case Waits(flow) => At(i) == Progress(flow, None) && refreshing
         case Ends(result) => At(i) == Progress(Done, result) && (!refreshing ==> Ended())
    }

    /** The callback of `discoverCalDavCollections`. */
    method CalDavDiscovered(i: nat, a: Answer)
      requires Valid() && i < |flows| && flows[i].Discovering? && a.Discovery?
      modifies this`flows, this`ledger, this`eventsByAccount, this`pendingAccounts, this`refreshing, this`snapshot, this`ends
      ensures Valid() && Reacted(React(old(flows)[i], a), old(flows), old(ledger), i)
    {
      if !a.ok || a.collections == 0 {
        Finish(i, false, []);
        return;
      }
      WaitOn(i, Reporting(a.collections, false, []), ledger[i]);
    }

    /** The callback of `fetchCalDavEvents`. */
    method CalDavReported(i: nat, a: Answer)
      requires Valid() && i < |flows| && flows[i].Reporting? && a.Report?
      modifies this`flows, this`ledger, this`eventsByAccount, this`pendingAccounts, this`refreshing, this`snapshot, this`ends
      ensures Valid() && Reacted(React(old(flows)[i], a), old(flows), old(ledger), i)
    {
      var pending, anyOk, events := flows[i].pending, flows[i].anyOk, flows[i].events;
      if a.ok {
        anyOk, events := true, events + a.events;
      }
      pending := pending - 1;
      if pending == 0 {
        Finish(i, anyOk, events);
      } else {
        WaitOn(i, Reporting(pending, anyOk, events), ledger[i]);
      }
    }

    /** The callback of the calendar list in `fetchEvents`. */
    method GoogleListed(i: nat, a: Answer)
      requires Valid() && i < |flows| && flows[i].Listing? && a.CalendarList?
      modifies this`flows, this`ledger, this`eventsByAccount, this`pendingAccounts, this`refreshing, this`snapshot, this`ends
      ensures Valid() && Reacted(React(old(flows)[i], a), old(flows), old(ledger), i)
    {
      var retry := flows[i].retry;
      if a.unauthorized {
        GoogleFetched(i, retry, false, true, [], a.connected);
      } else if !a.ok {
        GoogleFetched(i, retry, false, false, [], a.connected);
      } else if a.calendars == 0 {
        GoogleFetched(i, retry, true, false, [], a.connected);
      } else {
        WaitOn(i, Fetching(retry, a.calendars, false, []), ledger[i]);
      }
    }

    /** The callback of one calendar's events in `fetchEvents`. */
    method GoogleEvents(i: nat, a: Answer)
      requires Valid() && i < |flows| && flows[i].Fetching? && a.CalendarEvents?
      modifies this`flows, this`ledger, this`eventsByAccount, this`pendingAccounts, this`refreshing, this`snapshot, this`ends
      ensures Valid() && Reacted(React(old(flows)[i], a), old(flows), old(ledger), i)
    {
      var retry, pending, unauthorized, events := flows[i].retry, flows[i].pending, flows[i].unauthorized, flows[i].events;
      if a.unauthorized {
        unauthorized := true;
      } else if a.ok {
        events := events + a.events;
      }
      pending := pending - 1;
      if pending == 0 {
        GoogleFetched(i, retry, !unauthorized, unauthorized, events, a.connected);
      } else {
        WaitOn(i, Fetching(retry, pending, unauthorized, events), ledger[i]);
      }
    }

    /** The callback of `refreshGoogleToken`. */
    method TokenRefreshed(i: nat, a: Answer)
      requires Valid() && i < |flows| && flows[i].RefreshingToken? && a.Token?
      modifies this`flows, this`ledger, this`eventsByAccount, this`pendingAccounts, this`refreshing, this`snapshot, this`ends
      ensures Valid() && Reacted(React(old(flows)[i], a), old(flows), old(ledger), i)
    {
      if !a.ok {
        Finish(i, false, []);
        return;
      }
      WaitOn(i, Listing(false), ledger[i].(fetches := ledger[i].fetches + 1));
    }

    /** A request is answered, in whatever order the answers come. */
    method Complete(i: nat, a: Answer)
      requires Valid() && i < |flows| && Answers(flows[i], a)
      modifies this`flows, this`ledger, this`eventsByAccount, this`pendingAccounts, this`refreshing, this`snapshot, this`ends
      ensures Valid() && Reacted(React(old(flows)[i], a), old(flows), old(ledger), i)
    {
      match flows[i] {
        case Discovering => CalDavDiscovered(i, a);
        case Reporting(_, _, _) => CalDavReported(i, a);
        case Listing(_) => GoogleListed(i, a);
        case Fetching(_, _, _, _) => GoogleEvents(i, a);
        case RefreshingToken => TokenRefreshed(i, a);
      }
    }

    /** The callback of `fetchEvents` in `googleFetchWithToken`. */
    method GoogleFetched(i: nat, retry: bool, ok: bool, unauthorized: bool, events: seq<Event>, connected: bool)
      requires Valid() && i < |flows| && !flows[i].Done?
      requires retry ==> ledger[i].fetches == 1 && ledger[i].tokenRequests == 0
      modifies this`flows, this`ledger, this`eventsByAccount, this`pendingAccounts, this`refreshing, this`snapshot, this`ends
      ensures Valid() && Reacted(GoogleOutcome(retry, ok, unauthorized, events, connected), old(flows), old(ledger), i)
    {
      if unauthorized && retry {
        if !connected {
          Finish(i, false, []);
        } else {
          WaitOn(i, RefreshingToken, ledger[i].(tokenRequests := ledger[i].tokenRequests + 1));
        }
        return;
      }
      Finish(i, ok && !unauthorized, events);
    }

    /** The configuration changes at any time; a disabled calendar forgets its events. */
    method Reconfigure(next: seq<Account>, enabled: bool)
      requires Valid()
      modifies this`accounts, this`eventsByAccount, this`snapshot, this`base, this`ledger
      ensures Valid() && accounts == next && |ledger| == |old(ledger)|
      ensures enabled ==> eventsByAccount == old(eventsByAccount) && snapshot == old(snapshot)
                          && base == old(base) && ledger == old(ledger)
      ensures !enabled ==> eventsByAccount == map[] && snapshot == None && base == map[]
                           && forall i :: 0 <= i < |ledger| ==> ledger[i] == old(ledger)[i].(result := None)
    {
      accounts := next;
      if !enabled {
        eventsByAccount, snapshot := map[], None;
        base := map[];
        ledger := Forgotten(ledger);
      }
    }

    /** A happening that can happen does; one account's answer leaves the others as they are. */
    method Happen(h: Happening)
      requires Valid() && refreshing
      modifies this`flows, this`ledger, this`eventsByAccount, this`pendingAccounts, this`refreshing, this`snapshot, this`ends,
               this`accounts, this`base
      ensures Valid() && |flows| == |ledger| == |old(flows)|
      ensures forall i :: 0 <= i < |flows| ==> At(i) == Next(old(At(i)), i, h)
      ensures base == BaseAfter(old(base), [h]) && accounts == AccountsAfter(old(accounts), [h])
      ensures !refreshing ==> Ended()
    {
      assert [h][..0] == [];
      match h {
        case Answered(i, a) =>
          if i < |flows| && Answers(flows[i], a) {
            Complete(i, a);
          }
        case Configured(next, enabled) => Reconfigure(next, enabled);
      }
    }

    /** Any answers and changes of the configuration, in any order, until the refresh ends. `used` of them happen. */
    method Run(hs: seq<Happening>) returns (used: nat)
      requires Valid() && (!refreshing ==> Ended())
      modifies this`flows, this`ledger, this`eventsByAccount, this`pendingAccounts, this`refreshing, this`snapshot, this`ends,
               this`accounts, this`base
      ensures used <= |hs| && (refreshing ==> used == |hs|)
      ensures Valid() && |flows| == |ledger| == |old(flows)|
      ensures forall i :: 0 <= i < |flows| ==> At(i) == After(old(At(i)), i, hs[..used])
      ensures base == BaseAfter(old(base), hs[..used]) && accounts == AccountsAfter(old(accounts), hs[..used])
      ensures !refreshing ==> Ended() && forall i :: 0 <= i < |ledger| ==> ledger[i].dones == 1
    {
      used := 0;
      while used < |hs| && refreshing
        invariant used <= |hs| && Valid() && |flows| == |ledger| == |old(flows)|
        invariant forall i :: 0 <= i < |flows| ==> At(i) == After(old(At(i)), i, hs[..used])
        invariant base == BaseAfter(old(base), hs[..used]) && accounts == AccountsAfter(old(accounts), hs[..used])
        invariant !refreshing ==> Ended()
      {
        assert hs[..used + 1][..used] == hs[..used];
        Happen(hs[used]);
        used := used + 1;
      }
      if !refreshing {
        NoneOutstanding(flows);
      }
    }

    /** A whole refresh, whatever comes in whatever order: once it is over every account was done once, and the events
        and the snapshot are those of the outcomes that each account's own answers lead to. */
    method RefreshAll(hs: seq<Happening>) returns (used: nat)
      requires Valid() && !refreshing && accounts != [] && Distinct(IdsOf(accounts))
      modifies this
      ensures used <= |hs| && (refreshing ==> used == |hs|)
      ensures Valid() && |flows| == |ledger| == |ids| && ids == IdsOf(old(accounts))
      ensures forall i :: 0 <= i < |ids| ==> At(i) == After(Started(old(accounts)[i]), i, hs[..used])
      ensures base == BaseAfter(old(eventsByAccount), hs[..used]) && accounts == AccountsAfter(old(accounts), hs[..used])
      ensures ends == old(ends) + if refreshing then 0 else 1
      ensures !refreshing ==> Ended() && forall i :: 0 <= i < |ids| ==> ledger[i].dones == 1
    {
      StartRefresh();
      used := Run(hs);
    }

    /** While a refresh goes on some request is in flight. */
    lemma SomeInFlight()
      requires Valid() && refreshing && NoneWaiting()
      ensures SomeRequest(flows)
    {
      NoneOutstanding(flows);
      var i :| 0 <= i < |flows| && !flows[i].Done?;
      assert Bounded(flows[i], ledger[i]);
      assert InFlight(flows[i]) > 0;
    }

    ghost predicate NoneWaiting()
      reads this
    {
      forall i :: 0 <= i < |flows| ==> !flows[i].Waiting?
    }

    /** An answer brings the whole refresh nearer to its end. */
    method CompleteNearer(i: nat, a: Answer)
      requires Valid() && i < |flows| && Answers(flows[i], a) && NoneWaiting()
      modifies this`flows, this`ledger, this`eventsByAccount, this`pendingAccounts, this`refreshing, this`snapshot, this`ends
      ensures Valid() && NoneWaiting() && (!refreshing ==> Ended())
      ensures Total(Stage, flows) < Total(Stage, old(flows))
              || (Total(Stage, flows) == Total(Stage, old(flows)) && Total(InFlight, flows) < Total(InFlight, old(flows)))
    {
      ghost var was := flows;
      AnswersBringNearer(flows[i], a, ledger[i]);
      Complete(i, a);
      assert flows == was[i := flows[i]];
      TotalChanges(Stage, was, i, flows[i]);
      TotalChanges(InFlight, was, i, flows[i]);
    }

    /** Every request is answered, in any order and with any answer: `choose` says which account is next, `answer` what
        it is told. However they choose, there are finitely many answers, and the refresh ends. */
    method AnswerAll(choose: (nat, seq<Flow>) -> nat, answer: (nat, Flow) -> Answer)
      requires Valid() && NoneWaiting() && (!refreshing ==> Ended())
      requires Fair(choose) && Truthful(answer)
      modifies this`flows, this`ledger, this`eventsByAccount, this`pendingAccounts, this`refreshing, this`snapshot, this`ends
      ensures Valid() && !refreshing && Ended()
    {
      var n := 0;
      while refreshing
        invariant Valid() && NoneWaiting() && (!refreshing ==> Ended())
        decreases Total(Stage, flows), Total(InFlight, flows)
      {
        SomeInFlight();
        var i := choose(n, flows);
        CompleteNearer(i, answer(n, flows[i]));
        n := n + 1;
      }
    }
  }

  ghost predicate SomeRequest(flows: seq<Flow>) {
    exists i :: 0 <= i < |flows| && InFlight(flows[i]) > 0
  }

  /** An account that waits for an answer is chosen, as long as there is one. */
  ghost predicate Fair(choose: (nat, seq<Flow>) -> nat) {
    forall n, flows :: SomeRequest(flows) ==> choose(n, flows) < |flows| && InFlight(flows[choose(n, flows)]) > 0
  }

  /** The answer is one to the request. */
  ghost predicate Truthful(answer: (nat, Flow) -> Answer) {
    forall n, flow :: InFlight(flow) > 0 ==> Answers(flow, answer(n, flow))
  }

  ghost function Forgotten(ledger: seq<Ledger>): (forgotten: seq<Ledger>)
    ensures |forgotten| == |ledger|
    ensures forall i :: 0 <= i < |ledger| ==> forgotten[i] == ledger[i].(result := None)
  {
    if ledger == [] then [] else Forgotten(ledger[..|ledger| - 1]) + [ledger[|ledger| - 1].(result := None)]
  }

  /** Every answer brings its account nearer to being done, and leaves it with requests in flight until it is. */
  lemma AnswersBringNearer(flow: Flow, a: Answer, l: Ledger)
    requires Answers(flow, a) && Bounded(flow, l)
    ensures match React(flow, a)
            case Waits(next) => Nearer(next, flow) && InFlight(next) > 0
            case Ends(_) => Nearer(Done, flow)
  {
  }

  /** A refresh goes on exactly while an account is not done. */
  lemma RefreshingWhileOutstanding(service: CalendarService)
    requires service.Valid()
    ensures service.refreshing <==> exists i :: 0 <= i < |service.flows| && !service.flows[i].Done?
  {
    NoneOutstanding(service.flows);
  }
}

/** The scheduler of the pool's reorganisation runs: an event loop that merges requests into
    the next run while one run is active. The loop's variables are the state, its select
    cases are the steps, and the runs, heads and requests seen so far are kept as history. */
module ReorgScheduler {
  import opened Transactions
  import opened NonceMap
  import opened PoolSpec

  type Head = Hash

  /** A reset from one head to another, and which head changes it stands for. */
  datatype Reset = Reset(oldHead: Head, newHead: Head, first: nat, last: nat)

  /** A launched run, identified by the channel it closes when it is done, with the range of
      the queued events that it took over. */
  datatype Run = Run(done: nat, reset: Option<Reset>, dirty: Option<set<Address>>, events: Lists, finished: bool,
                     first: nat, last: nat)

  /** A request and the channel it was answered with. */
  datatype Request =
    | HeadChange(index: nat, done: nat)
    | Promotion(accounts: set<Address>, done: nat)

  datatype Loop = Loop(
    curDone: Option<nat>,
    nextDone: nat,
    launchNextRun: bool,
    reset: Option<Reset>,
    dirty: Option<set<Address>>,
    events: Lists,
    stopped: bool,
    runs: seq<Run>,
    heads: seq<Head>,
    requests: seq<Request>,
    queued: seq<Tx>)

  datatype Event =
    | NewHead(head: Head)               // requestReset
    | Promote(accounts: set<Address>)   // requestPromoteExecutables
    | QueueTx(tx: Tx)                   // queueTxEvent
    | RunFinishes                       // runReorg closes its channel
    | SeesDone                          // the loop receives from curDone
    | Shutdown

  function Initial(head: Head): Loop {
    Loop(None, 0, false, None, None, map[], false, [], [head], [], [])
  }

  predicate Active(s: Loop) {
    s.runs != [] && !s.runs[|s.runs| - 1].finished
  }

  /** How many queued events the runs took over. */
  function Taken(runs: seq<Run>): nat {
    if runs == [] then 0 else runs[|runs| - 1].last
  }

  /** An event goes into its account's sorted map, over an earlier one of the same nonce. */
  function PutEvent(events: Lists, tx: Tx): Lists {
    events[tx.sender := With(Get(events, tx.sender), tx)]
  }

  /** The top of the loop: launch the next run if none is active and one is wanted. */
  function Launch(s: Loop): Loop {
    if s.curDone.None? && s.launchNextRun && !s.stopped then
      s.(curDone := Some(s.nextDone), nextDone := s.nextDone + 1, launchNextRun := false,
      reset := None, dirty := None, events := map[],
      runs := s.runs + [Run(s.nextDone, s.reset, s.dirty, s.events, false, Taken(s.runs), |s.queued|)])
    else s
  }

  /** The active run closes its channel. */
  function FinishRun(s: Loop): Loop
    requires Active(s)
  {
    s.(runs := s.runs[|s.runs| - 1 := s.runs[|s.runs| - 1].(finished := true)])
  }

  predicate Enabled(s: Loop, e: Event) {
    match e
    case RunFinishes => Active(Launch(s))
    case SeesDone => !s.stopped && Launch(s).curDone.Some? && !Active(Launch(s))
    case Shutdown => !s.stopped && !Active(Launch(s))
    case _ => !s.stopped
  }

  function Step(s: Loop, e: Event): (r: Loop)
    requires Enabled(s, e) && s.heads != []
    ensures r.heads != []
  {
    match e
    case RunFinishes => FinishRun(Launch(s))
    case NewHead(h) =>
      var t := Launch(s);
      var k := |t.heads| - 1;
      t.(reset := Some(if t.reset.None? then Reset(t.heads[k], h, k, k + 1)
                       else t.reset.value.(newHead := h, last := k + 1)),
      launchNextRun := true, heads := t.heads + [h], requests := t.requests + [HeadChange(k, t.nextDone)])
    case Promote(accounts) =>
      var t := Launch(s);
      t.(dirty := Some(if t.dirty.None? then accounts else t.dirty.value + accounts),
      launchNextRun := true, requests := t.requests + [Promotion(accounts, t.nextDone)])
    case QueueTx(tx) =>
      var t := Launch(s);
      t.(events := PutEvent(t.events, tx), queued := t.queued + [tx])
    case SeesDone => Launch(s).(curDone := None)
    case Shutdown => Launch(s).(stopped := true)
  }

  /** The state after a sequence of events, if each was possible when it came. */
  function After(head: Head, trace: seq<Event>): (s: Option<Loop>)
    ensures s.Some? ==> s.value.heads != []
  {
    if trace == [] then Some(Initial(head))
    else
      var e := trace[|trace| - 1];
      var before := After(head, trace[..|trace| - 1]);
      if before.Some? && Enabled(before.value, e) then Some(Step(before.value, e)) else None
  }

  /** The state after serving events in order, where one that is not possible is passed over. */
  function Served(s: Loop, events: seq<Event>): (r: Loop)
    requires s.heads != []
    ensures r.heads != []
  {
    if events == [] then s
    else
      var e, before := events[|events| - 1], Served(s, events[..|events| - 1]);
      if Enabled(before, e) then Step(before, e) else before
  }

  /** Those of the events that were possible when they came. */
  function Possible(s: Loop, events: seq<Event>): (r: seq<Event>)
    requires s.heads != []
    ensures forall e :: e in r ==> e in events
  {
    if events == [] then []
    else
      var e, before := events[|events| - 1], events[..|events| - 1];
      Possible(s, before) + if Enabled(Served(s, before), e) then [e] else []
  }

  /** Whatever is served, the state is one that a sequence of possible events reaches. */
  lemma {:induction false} ServedIsReachable(head: Head, trace: seq<Event>, events: seq<Event>)
    requires After(head, trace).Some?
    ensures After(head, trace + Possible(After(head, trace).value, events)) ==
            Some(Served(After(head, trace).value, events))
    decreases |events|
  {
    hide Step, Enabled;
    var s := After(head, trace).value;
    if events == [] {
      assert trace + Possible(s, events) == trace;
    } else {
      var e, front := events[|events| - 1], events[..|events| - 1];
      ServedIsReachable(head, trace, front);
      var before := trace + Possible(s, front);
      if Enabled(Served(s, front), e) {
        assert trace + Possible(s, events) == before + [e];
        assert (before + [e])[..|before|] == before;
      } else {
        assert trace + Possible(s, events) == before;
      }
    }
  }

  /** Has channel c been closed? */
  predicate Closed(s: Loop, c: nat) {
    (exists i :: 0 <= i < |s.runs| && s.runs[i].done == c && s.runs[i].finished) || (s.stopped && c == s.nextDone)
  }

  predicate Contains(reset: Option<Reset>, dirty: Option<set<Address>>, r: Request) {
    match r
    case HeadChange(k, _) => reset.Some? && reset.value.first <= k < reset.value.last
    case Promotion(accounts, _) => dirty.Some? && accounts <= dirty.value
  }

  /** How many head changes the runs cover. */
  function Covered(runs: seq<Run>): nat {
    if runs == [] then 0
    else
      var r := runs[|runs| - 1];
      if r.reset.Some? then r.reset.value.last else Covered(runs[..|runs| - 1])
  }

  /** A reset names the heads at the ends of the range it stands for. */
  predicate Spans(r: Reset, heads: seq<Head>) {
    r.first < r.last < |heads| && r.oldHead == heads[r.first] && r.newHead == heads[r.last]
  }

  /** Each run's reset starts where the previous ones stopped. */
  ghost predicate Telescopes(runs: seq<Run>, heads: seq<Head>) {
    forall i :: 0 <= i < |runs| && runs[i].reset.Some? ==>
                  Spans(runs[i].reset.value, heads) && runs[i].reset.value.first == Covered(runs[..i])
  }

  predicate SameSlot(t: Tx, u: Tx) {
    t.sender == u.sender && t.nonce == u.nonce
  }

  /** Event i is the last one of its account and nonce among those from lo up to hi. */
  ghost predicate Latest(queued: seq<Tx>, lo: nat, hi: nat, i: nat) {
    lo <= i < hi <= |queued| && forall j :: i < j < hi ==> !SameSlot(queued[i], queued[j])
  }

  /** events holds exactly the latest of the events from lo up to hi, account by account. */
  ghost predicate Collected(queued: seq<Tx>, lo: nat, hi: nat, events: Lists) {
    && WellListed(events) && lo <= hi <= |queued|
    && (forall i: nat :: Latest(queued, lo, hi, i) ==> Holds(events, queued[i]))
    && (forall tx :: Holds(events, tx) ==> exists i: nat :: Latest(queued, lo, hi, i) && queued[i] == tx)
  }

  /** Every run took over the events since the one before it, and the rest is waiting. */
  ghost predicate EventsCollected(s: Loop) {
    && Collected(s.queued, Taken(s.runs), |s.queued|, s.events)
    && forall i :: 0 <= i < |s.runs| ==> RunCollected(s.runs, s.queued, i)
  }

  ghost predicate RunCollected(runs: seq<Run>, queued: seq<Tx>, i: nat)
    requires i < |runs|
  {
    runs[i].first == Taken(runs[..i]) && Collected(queued, runs[i].first, runs[i].last, runs[i].events)
  }

  ghost predicate RunsOrdered(s: Loop) {
    && (forall i :: 0 <= i < |s.runs| ==> s.runs[i].done < s.nextDone)
    && (forall i, j :: 0 <= i < j < |s.runs| ==> s.runs[i].done < s.runs[j].done && s.runs[i].finished)
    && (s.curDone.None? ==> !Active(s))
    && (s.curDone.Some? ==> s.runs != [] && s.runs[|s.runs| - 1].done == s.curDone.value)
  }

  /** Some run that answers with the request's channel contains it. */
  ghost predicate InARun(runs: seq<Run>, q: Request) {
    exists i ::
      0 <= i < |runs| && runs[i].done == q.done && Contains(runs[i].reset, runs[i].dirty, q)
  }

  ghost predicate RequestsKept(s: Loop) {
    && (s.launchNextRun <==> s.reset.Some? || s.dirty.Some?)
    && forall q :: q in s.requests ==> (q.done == s.nextDone && Contains(s.reset, s.dirty, q)) || InARun(s.runs, q)
  }

  ghost predicate HeadsCovered(s: Loop) {
    && s.heads != []
    && Telescopes(s.runs, s.heads)
    && (s.reset.Some? ==> Spans(s.reset.value, s.heads) && s.reset.value.first == Covered(s.runs)
                          && s.reset.value.last == |s.heads| - 1)
    && (s.reset.None? ==> Covered(s.runs) == |s.heads| - 1)
  }

  ghost predicate Invariant(s: Loop) {
    RunsOrdered(s) && RequestsKept(s) && HeadsCovered(s) && EventsCollected(s)
  }

  lemma LaunchKeeps(s: Loop)
    requires Invariant(s)
    ensures Invariant(Launch(s))
  {
    LaunchKeepsHeads(s);
    LaunchKeepsRequests(s);
    LaunchKeepsRuns(s);
    LaunchKeepsEvents(s);
    hide RunsOrdered, RequestsKept, HeadsCovered, EventsCollected;
  }

  lemma LaunchKeepsEvents(s: Loop)
    requires EventsCollected(s)
    ensures EventsCollected(Launch(s))
  {
    hide Collected;
    var t := Launch(s);
    if t != s {
      var last := |t.runs| - 1;
      forall i | 0 <= i <= last ensures RunCollected(t.runs, s.queued, i) {
        if i < last {
          assert RunCollected(s.runs, s.queued, i);
        }
        assert t.runs[..i] == s.runs[..i] && s.runs[..|s.runs|] == s.runs;
      }
      NothingCollected(s.queued);
    }
  }

  lemma NothingCollected(queued: seq<Tx>)
    ensures Collected(queued, |queued|, |queued|, map[])
  {
  }

  /** One more event: it replaces an earlier one of its slot and leaves the others alone. */
  lemma CollectsNext(queued: seq<Tx>, lo: nat, events: Lists, tx: Tx)
    requires Collected(queued, lo, |queued|, events)
    ensures Collected(queued + [tx], lo, |queued| + 1, PutEvent(events, tx))
  {
    var more, hi, events' := queued + [tx], |queued|, PutEvent(events, tx);
    assert tx.nonce in With(Get(events, tx.sender), tx);
    forall t ensures Holds(events', t) <==> t == tx || (Holds(events, t) && !SameSlot(t, tx)) {
    }
    forall i: nat | Latest(more, lo, hi + 1, i) ensures Holds(events', more[i]) {
      if i < hi {
        assert Latest(queued, lo, hi, i) by {
          assert forall j :: i < j < hi ==> more[j] == queued[j];
        }
        assert !SameSlot(more[i], more[hi]);
      }
    }
    forall t | Holds(events', t) ensures exists i: nat :: Latest(more, lo, hi + 1, i) && more[i] == t {
      if t == tx {
        assert Latest(more, lo, hi + 1, hi) && more[hi] == t;
      } else {
        var i: nat :| Latest(queued, lo, hi, i) && queued[i] == t;
        assert more[i] == t && more[hi] == tx && forall j :: i < j < hi ==> more[j] == queued[j];
        assert Latest(more, lo, hi + 1, i) && more[i] == t;
      }
    }
  }

  /** Events queued later do not change what an earlier range holds. */
  lemma CollectedStays(queued: seq<Tx>, lo: nat, hi: nat, events: Lists, tx: Tx)
    requires Collected(queued, lo, hi, events)
    ensures Collected(queued + [tx], lo, hi, events)
  {
    hide Latest, Holds, WellListed;
    var more := queued + [tx];
    forall i: nat
      ensures Latest(more, lo, hi, i) <==> Latest(queued, lo, hi, i)
      ensures Latest(queued, lo, hi, i) ==> i < |queued| && more[i] == queued[i]
    {
      LatestStays(queued, lo, hi, i, tx);
    }
  }

  lemma LatestStays(queued: seq<Tx>, lo: nat, hi: nat, i: nat, tx: Tx)
    requires hi <= |queued|
    ensures Latest(queued + [tx], lo, hi, i) <==> Latest(queued, lo, hi, i)
    ensures Latest(queued, lo, hi, i) ==> i < |queued| && (queued + [tx])[i] == queued[i]
  {
    var more := queued + [tx];
    assert forall j :: 0 <= j < hi ==> more[j] == queued[j];
  }

  lemma LaunchKeepsRuns(s: Loop)
    requires RunsOrdered(s)
    ensures RunsOrdered(Launch(s))
  {
  }

  lemma LaunchKeepsHeads(s: Loop)
    requires HeadsCovered(s)
    ensures HeadsCovered(Launch(s))
  {
    var t := Launch(s);
    if t != s {
      var last := |t.runs| - 1;
      assert t.runs[..last] == s.runs;
      forall i | 0 <= i < |t.runs| && t.runs[i].reset.Some?
        ensures Spans(t.runs[i].reset.value, t.heads) && t.runs[i].reset.value.first == Covered(t.runs[..i])
      {
        assert i < last ==> t.runs[..i] == s.runs[..i];
      }
    }
  }

  lemma LaunchKeepsRequests(s: Loop)
    requires RequestsKept(s)
    ensures RequestsKept(Launch(s))
  {
    var t := Launch(s);
    if t != s {
      var last := |t.runs| - 1;
      forall q | q in t.requests
        ensures InARun(t.runs, q)
      {
        if q.done == s.nextDone && Contains(s.reset, s.dirty, q) {
          assert t.runs[last].done == q.done;
        } else {
          var i :| 0 <= i < |s.runs| && s.runs[i].done == q.done && Contains(s.runs[i].reset, s.runs[i].dirty, q);
          assert t.runs[i] == s.runs[i];
        }
      }
    }
  }

  lemma FinishKeeps(s: Loop)
    requires Invariant(s) && Active(s)
    ensures Invariant(FinishRun(s))
  {
    FinishKeepsRuns(s);
    FinishKeepsHeads(s);
    FinishKeepsRequests(s);
    FinishKeepsEvents(s);
    hide RunsOrdered, RequestsKept, HeadsCovered, EventsCollected, FinishRun;
  }

  lemma FinishKeepsRuns(s: Loop)
    requires RunsOrdered(s) && Active(s)
    ensures RunsOrdered(FinishRun(s))
  {
  }

  lemma FinishKeepsHeads(s: Loop)
    requires HeadsCovered(s) && Active(s)
    ensures HeadsCovered(FinishRun(s))
  {
    var t := FinishRun(s);
    assert t.runs[..|s.runs| - 1] == s.runs[..|s.runs| - 1];
    CoveredSame(s.runs, t.runs);
    forall i | 0 <= i < |t.runs| && t.runs[i].reset.Some?
      ensures Spans(t.runs[i].reset.value, t.heads) && t.runs[i].reset.value.first == Covered(t.runs[..i])
    {
      assert t.runs[..i] == s.runs[..i];
    }
  }

  lemma FinishKeepsRequests(s: Loop)
    requires RequestsKept(s) && Active(s)
    ensures RequestsKept(FinishRun(s))
  {
    var t := FinishRun(s);
    forall q | q in t.requests && InARun(s.runs, q) ensures InARun(t.runs, q) {
      var i :| 0 <= i < |s.runs| && s.runs[i].done == q.done && Contains(s.runs[i].reset, s.runs[i].dirty, q);
      assert t.runs[i].done == q.done;
    }
  }

  lemma FinishKeepsEvents(s: Loop)
    requires EventsCollected(s) && Active(s)
    ensures EventsCollected(FinishRun(s))
  {
    hide Collected;
    var t := FinishRun(s);
    forall i | 0 <= i < |t.runs| ensures RunCollected(t.runs, t.queued, i) {
      assert RunCollected(s.runs, s.queued, i);
      assert t.runs[..i] == s.runs[..i];
    }
  }

  lemma CoveredSame(a: seq<Run>, b: seq<Run>)
    requires |a| == |b| > 0 && a[..|a| - 1] == b[..|b| - 1] && a[|a| - 1].reset == b[|b| - 1].reset
    ensures Covered(a) == Covered(b)
  {
  }

  lemma StepKeeps(s: Loop, e: Event)
    requires Invariant(s) && Enabled(s, e)
    ensures Invariant(Step(s, e))
  {
    LaunchKeeps(s);
    if e.RunFinishes? {
      FinishKeeps(Launch(s));
    } else {
      RequestKeeps(Launch(s), s, e);
    }
  }

  lemma RequestKeeps(t: Loop, s: Loop, e: Event)
    requires t == Launch(s) && Invariant(t) && Enabled(s, e) && !e.RunFinishes? && s.heads != []
    ensures Invariant(Step(s, e))
  {
    RequestKeepsRequests(t, s, e);
    RequestKeepsHeads(t, s, e);
    RequestKeepsEvents(t, s, e);
    RequestKeepsRuns(t, s, e);
    hide RunsOrdered, RequestsKept, HeadsCovered, EventsCollected, Launch;
  }

  lemma RequestKeepsRuns(t: Loop, s: Loop, e: Event)
    requires t == Launch(s) && RunsOrdered(t) && Enabled(s, e) && !e.RunFinishes? && s.heads != []
    ensures RunsOrdered(Step(s, e))
  {
    hide Launch;
  }

  lemma RequestKeepsEvents(t: Loop, s: Loop, e: Event)
    requires t == Launch(s) && EventsCollected(t) && Enabled(s, e) && !e.RunFinishes? && s.heads != []
    ensures EventsCollected(Step(s, e))
  {
    hide Launch, Collected;
    if e.QueueTx? {
      CollectsNext(t.queued, Taken(t.runs), t.events, e.tx);
      forall i | 0 <= i < |t.runs| ensures RunCollected(t.runs, t.queued + [e.tx], i) {
        assert RunCollected(t.runs, t.queued, i);
        CollectedStays(t.queued, t.runs[i].first, t.runs[i].last, t.runs[i].events, e.tx);
      }
    }
  }

  lemma RequestKeepsHeads(t: Loop, s: Loop, e: Event)
    requires t == Launch(s) && HeadsCovered(t) && Enabled(s, e) && !e.RunFinishes? && s.heads != []
    ensures HeadsCovered(Step(s, e))
  {
    hide Launch, Covered;
  }

  lemma RequestKeepsRequests(t: Loop, s: Loop, e: Event)
    requires t == Launch(s) && RequestsKept(t) && Enabled(s, e) && !e.RunFinishes? && s.heads != [] && HeadsCovered(t)
    ensures RequestsKept(Step(s, e))
  {
    hide Launch, Covered;
    var r := Step(s, e);
    forall q | q in r.requests
      ensures || (q.done == r.nextDone && Contains(r.reset, r.dirty, q))
              || InARun(r.runs, q)
    {
      if q in t.requests && q.done == t.nextDone && Contains(t.reset, t.dirty, q) {
      } else if q in t.requests {
        var i :| 0 <= i < |t.runs| && t.runs[i].done == q.done && Contains(t.runs[i].reset, t.runs[i].dirty, q);
        assert r.runs[i] == t.runs[i];
      }
    }
  }

  /** Every reachable state satisfies the invariant. */
  lemma {:induction false} EveryRun(head: Head, trace: seq<Event>)
    requires After(head, trace).Some?
    ensures Invariant(After(head, trace).value)
    decreases |trace|
  {
    if trace != [] {
      var before := trace[..|trace| - 1];
      EveryRun(head, before);
      StepKeeps(After(head, before).value, trace[|trace| - 1]);
    }
  }

  /** At most one run is active at any time. */
  lemma AtMostOneActive(head: Head, trace: seq<Event>, i: nat, j: nat)
    requires After(head, trace).Some?
    requires var s := After(head, trace).value; i < |s.runs| && j < |s.runs| && !s.runs[i].finished
                                                && !s.runs[j].finished
    ensures i == j
  {
    EveryRun(head, trace);
  }

  /** Short of a shutdown, a requester's channel is closed only by a finished run that
      contained the request. */
  lemma ClosedMeansServed(head: Head, trace: seq<Event>, q: Request)
    requires After(head, trace).Some?
    requires var s := After(head, trace).value; q in s.requests && Closed(s, q.done) && !s.stopped
    ensures var s := After(head, trace).value;
            exists i :: 0 <= i < |s.runs| && s.runs[i].done == q.done && s.runs[i].finished
                        && Contains(s.runs[i].reset, s.runs[i].dirty, q)
  {
    EveryRun(head, trace);
    var s := After(head, trace).value;
    var i :| 0 <= i < |s.runs| && s.runs[i].done == q.done && s.runs[i].finished;
    var j :| 0 <= j < |s.runs| && s.runs[j].done == q.done && Contains(s.runs[j].reset, s.runs[j].dirty, q);
    assert i == j;
  }

  /** A request that no run contains yet is in one after the next turn of the loop, whatever event
      that turn handles, unless a run is current. */
  lemma WaitingRuns(head: Head, trace: seq<Event>, e: Event, q: Request)
    requires After(head, trace).Some? && After(head, trace + [e]).Some?
    requires var s := After(head, trace).value; q in s.requests && !s.stopped && s.curDone.None?
    ensures var t := After(head, trace + [e]).value;
            exists i :: 0 <= i < |t.runs| && t.runs[i].done == q.done && Contains(t.runs[i].reset, t.runs[i].dirty, q)
  {
    EveryRun(head, trace);
    hide Step, Enabled, RunsOrdered, HeadsCovered, EventsCollected, Contains, RequestsKept;
    assert (trace + [e])[..|trace|] == trace;
    StepServes(After(head, trace).value, e, q);
  }

  lemma StepServes(s: Loop, e: Event, q: Request)
    requires RequestsKept(s) && q in s.requests && !s.stopped && s.curDone.None? && Enabled(s, e) && s.heads != []
    ensures InARun(Step(s, e).runs, q)
  {
    var t, u := Step(s, e), Launch(s);
    LaunchKeepsRequests(s);
    assert u.reset.None? && u.dirty.None?;
    hide Launch;
    var i :| 0 <= i < |u.runs| && u.runs[i].done == q.done && Contains(u.runs[i].reset, u.runs[i].dirty, q);
    assert t.runs[i].done == q.done && t.runs[i].reset == u.runs[i].reset && t.runs[i].dirty == u.runs[i].dirty;
  }

  /** The events that clear the way for the next run: the active run finishes, the loop sees it. */
  function Clearing(s: Loop): seq<Event> {
    (if s.curDone.Some? && s.runs != [] && !s.runs[|s.runs| - 1].finished then [RunFinishes] else [])
    + if s.curDone.Some? then [SeesDone] else []
  }

  /** From every reachable state short of a shutdown these events are possible, and after one more
      turn every request made so far is in a run.  A new head, a promotion request and an event are
      always possible. */
  lemma EveryRequestRuns(head: Head, trace: seq<Event>, e: Event)
    requires After(head, trace).Some? && !After(head, trace).value.stopped
    ensures var s := After(head, trace).value;
            && After(head, trace + Clearing(s)).Some? && !After(head, trace + Clearing(s)).value.stopped
            && (e.NewHead? || e.Promote? || e.QueueTx? ==> After(head, trace + Clearing(s) + [e]).Some?)
            && (After(head, trace + Clearing(s) + [e]).Some? ==>
                  var t := After(head, trace + Clearing(s) + [e]).value;
                  forall q :: q in s.requests ==>
                                exists i :: 0 <= i < |t.runs| && t.runs[i].done == q.done
                                            && Contains(t.runs[i].reset, t.runs[i].dirty, q))
  {
    var s := After(head, trace).value;
    var cleared := trace + Clearing(s);
    ClearingWorks(head, trace);
    var c := After(head, cleared).value;
    assert (cleared + [e])[..|cleared|] == cleared;
    if After(head, cleared + [e]).Some? {
      forall q | q in s.requests ensures InARun(After(head, cleared + [e]).value.runs, q) {
        WaitingRuns(head, cleared, e, q);
      }
    }
  }

  lemma ClearingWorks(head: Head, trace: seq<Event>)
    requires After(head, trace).Some? && !After(head, trace).value.stopped
    ensures var s := After(head, trace).value;
            && After(head, trace + Clearing(s)).Some?
            && var c := After(head, trace + Clearing(s)).value;
            !c.stopped && c.curDone.None? && c.requests == s.requests
  {
    EveryRun(head, trace);
    var s := After(head, trace).value;
    ClearingSteps(s);
    hide Step, Enabled, Invariant, After;
    if s.curDone.None? {
      assert trace + Clearing(s) == trace;
    } else if Active(s) {
      Extend(head, trace, RunFinishes);
      Extend(head, trace + [RunFinishes], SeesDone);
      assert trace + Clearing(s) == trace + [RunFinishes] + [SeesDone];
    } else {
      Extend(head, trace, SeesDone);
      assert trace + Clearing(s) == trace + [SeesDone];
    }
  }

  lemma Extend(head: Head, trace: seq<Event>, e: Event)
    requires After(head, trace).Some? && Enabled(After(head, trace).value, e)
    ensures After(head, trace + [e]) == Some(Step(After(head, trace).value, e))
  {
    hide Step, Enabled;
    assert (trace + [e])[..|trace|] == trace;
  }

  lemma ClearingSteps(s: Loop)
    requires RunsOrdered(s) && s.heads != [] && !s.stopped
    ensures s.curDone.Some? && Active(s) ==> Enabled(s, RunFinishes)
    ensures s.curDone.Some? ==> var t := if Active(s) then Step(s, RunFinishes) else s;
                                && t.heads != [] && Enabled(t, SeesDone)
                                && var c := Step(t, SeesDone);
                                !c.stopped && c.curDone.None? && c.requests == s.requests
  {
  }

  /** Somebody who was given the channel asked for the account. */
  ghost predicate Asked(requests: seq<Request>, done: nat, a: Address) {
    exists k :: 0 <= k < |requests| && requests[k].Promotion? && requests[k].done == done && a in requests[k].accounts
  }

  ghost predicate DirtyAsked(requests: seq<Request>, dirty: Option<set<Address>>, done: nat) {
    dirty.Some? ==> forall a :: a in dirty.value ==> Asked(requests, done, a)
  }

  ghost predicate AllAsked(s: Loop) {
    && DirtyAsked(s.requests, s.dirty, s.nextDone)
    && forall i :: 0 <= i < |s.runs| ==> DirtyAsked(s.requests, s.runs[i].dirty, s.runs[i].done)
  }

  /** A run promotes no account but those asked for by the requests it answers. */
  lemma RunIsAskedFor(head: Head, trace: seq<Event>, i: nat, a: Address)
    requires After(head, trace).Some? && i < |After(head, trace).value.runs|
    requires var run := After(head, trace).value.runs[i]; run.dirty.Some? && a in run.dirty.value
    ensures var s := After(head, trace).value;
            exists k :: 0 <= k < |s.requests| && s.requests[k].Promotion? && s.requests[k].done == s.runs[i].done
                        && a in s.requests[k].accounts
  {
    EveryAsked(head, trace);
    var s := After(head, trace).value;
    assert DirtyAsked(s.requests, s.runs[i].dirty, s.runs[i].done);
    assert Asked(s.requests, s.runs[i].done, a);
  }

  lemma {:induction false} EveryAsked(head: Head, trace: seq<Event>)
    requires After(head, trace).Some?
    ensures AllAsked(After(head, trace).value)
    decreases |trace|
  {
    hide Step, Enabled, AllAsked;
    if trace == [] {
      NobodyAsked(head);
    } else {
      var before := trace[..|trace| - 1];
      EveryAsked(head, before);
      StepAsked(After(head, before).value, trace[|trace| - 1]);
    }
  }

  lemma NobodyAsked(head: Head)
    ensures AllAsked(Initial(head))
  {
  }

  lemma StepAsked(s: Loop, e: Event)
    requires AllAsked(s) && Enabled(s, e) && s.heads != []
    ensures AllAsked(Step(s, e))
  {
    var u, t := Launch(s), Step(s, e);
    forall i | 0 <= i < |u.runs| ensures DirtyAsked(u.requests, u.runs[i].dirty, u.runs[i].done) {
      assert i < |s.runs| ==> DirtyAsked(s.requests, s.runs[i].dirty, s.runs[i].done);
    }
    assert DirtyAsked(u.requests, u.dirty, u.nextDone);
    hide Launch, DirtyAsked;
    forall i | 0 <= i < |t.runs| ensures DirtyAsked(t.requests, t.runs[i].dirty, t.runs[i].done) {
      assert DirtyAsked(u.requests, u.runs[i].dirty, u.runs[i].done);
      StillAsked(u.requests, t.requests, u.runs[i].dirty, u.runs[i].done);
    }
    StillAsked(u.requests, t.requests, u.dirty, u.nextDone);
    if e.Promote? {
      NewlyAsked(u.requests, u.dirty, u.nextDone, e.accounts);
    }
  }

  lemma StillAsked(requests: seq<Request>, more: seq<Request>, dirty: Option<set<Address>>, done: nat)
    requires DirtyAsked(requests, dirty, done) && requests <= more
    ensures DirtyAsked(more, dirty, done)
  {
    if dirty.Some? {
      forall a | a in dirty.value ensures Asked(more, done, a) {
        var k :| 0 <= k < |requests| && requests[k].Promotion? && requests[k].done == done && a in requests[k].accounts;
        assert more[k] == requests[k];
      }
    }
  }

  lemma NewlyAsked(requests: seq<Request>, dirty: Option<set<Address>>, done: nat, accounts: set<Address>)
    requires DirtyAsked(requests, dirty, done)
    ensures DirtyAsked(requests + [Promotion(accounts, done)],
                       Some(if dirty.None? then accounts else dirty.value + accounts), done)
  {
    var more := requests + [Promotion(accounts, done)];
    StillAsked(requests, more, dirty, done);
    assert more[|requests|] == Promotion(accounts, done);
    forall a | a in accounts ensures Asked(more, done, a) {
    }
  }

  /** Nothing is active after a shutdown, and every requester's channel is closed. */
  lemma {:induction false} StoppedAnswersAll(head: Head, trace: seq<Event>)
    requires After(head, trace).Some? && After(head, trace).value.stopped
    ensures var s := After(head, trace).value; !Active(s) && forall q :: q in s.requests ==> Closed(s, q.done)
    decreases |trace|
  {
    EveryRun(head, trace);
    hide Step, Enabled, Active, HeadsCovered, EventsCollected, RunsOrdered, RequestsKept, Closed;
    var before := After(head, trace[..|trace| - 1]).value;
    if before.stopped {
      StoppedAnswersAll(head, trace[..|trace| - 1]);
    }
    StopsIdle(before, trace[|trace| - 1]);
    AllClosed(After(head, trace).value);
  }

  lemma StopsIdle(s: Loop, e: Event)
    requires Enabled(s, e) && s.heads != [] && (s.stopped ==> !Active(s))
    ensures Step(s, e).stopped ==> !Active(Step(s, e))
  {
  }

  lemma AllClosed(s: Loop)
    requires RunsOrdered(s) && RequestsKept(s) && s.stopped && !Active(s)
    ensures forall q :: q in s.requests ==> Closed(s, q.done)
  {
    forall q | q in s.requests && q.done != s.nextDone ensures Closed(s, q.done) {
      assert InARun(s.runs, q);
      var i :| 0 <= i < |s.runs| && s.runs[i].done == q.done && Contains(s.runs[i].reset, s.runs[i].dirty, q);
      assert s.runs[i].finished;
    }
  }

  /** A shutdown is possible in every reachable state short of one, once the run that is wanted or
      active has finished. */
  lemma ShutdownPossible(head: Head, trace: seq<Event>)
    requires After(head, trace).Some? && !After(head, trace).value.stopped
    ensures var s := After(head, trace).value;
            var busy := (s.curDone.None? && (s.reset.Some? || s.dirty.Some?))
                        || (s.runs != [] && !s.runs[|s.runs| - 1].finished);
            After(head, trace + (if busy then [RunFinishes] else []) + [Shutdown]).Some?
  {
    EveryRun(head, trace);
    var s := After(head, trace).value;
    ShutdownSteps(s);
    hide Step, Enabled, Invariant, After;
    if (s.curDone.None? && (s.reset.Some? || s.dirty.Some?)) || Active(s) {
      Extend(head, trace, RunFinishes);
      Extend(head, trace + [RunFinishes], Shutdown);
    } else {
      Extend(head, trace, Shutdown);
      assert trace + [] == trace;
    }
  }

  lemma ShutdownSteps(s: Loop)
    requires RunsOrdered(s) && RequestsKept(s) && s.heads != [] && !s.stopped
    ensures if (s.curDone.None? && (s.reset.Some? || s.dirty.Some?)) || Active(s)
            then Enabled(s, RunFinishes) && Enabled(Step(s, RunFinishes), Shutdown)
            else Enabled(s, Shutdown)
  {
  }

  /** When nothing is waiting, the runs' resets lead from the first head to the latest one,
      each starting where the one before stopped, and every head change is in exactly one. */
  lemma ResetsTelescope(head: Head, trace: seq<Event>, k: nat)
    requires After(head, trace).Some?
    requires var s := After(head, trace).value; s.reset.None? && k < |s.heads| - 1
    ensures var s := After(head, trace).value;
            && Telescopes(s.runs, s.heads)
            && Covered(s.runs) == |s.heads| - 1
            && exists i ::
                 && 0 <= i < |s.runs| && InReset(s.runs[i], k)
                 && forall j :: 0 <= j < |s.runs| && InReset(s.runs[j], k) ==> j == i
  {
    EveryRun(head, trace);
    var s := After(head, trace).value;
    var i := CoverOf(s.runs, s.heads, k);
    forall j | 0 <= j < |s.runs| && InReset(s.runs[j], k)
      ensures j == i
    {
      if j < i {
        CoveredGrows(s.runs, s.heads, j, i);
      } else if i < j {
        CoveredGrows(s.runs, s.heads, i, j);
      }
    }
  }

  predicate InReset(r: Run, k: nat) {
    r.reset.Some? && r.reset.value.first <= k < r.reset.value.last
  }

  lemma {:induction false} CoverOf(runs: seq<Run>, heads: seq<Head>, k: nat) returns (i: nat)
    requires Telescopes(runs, heads) && k < Covered(runs)
    ensures i < |runs| && InReset(runs[i], k)
    decreases |runs|
  {
    var last := |runs| - 1;
    var front := runs[..last];
    forall i | 0 <= i < |front| && front[i].reset.Some?
      ensures Spans(front[i].reset.value, heads) && front[i].reset.value.first == Covered(front[..i])
    {
      assert front[..i] == runs[..i];
    }
    if runs[last].reset.Some? && runs[last].reset.value.first <= k {
      i := last;
    } else {
      assert runs[last].reset.Some? ==> runs[last].reset.value.first == Covered(runs[..last]);
      i := CoverOf(front, heads, k);
    }
  }

  /** The runs before j cover at least what run i covers. */
  lemma {:induction false} CoveredGrows(runs: seq<Run>, heads: seq<Head>, i: nat, j: nat)
    requires Telescopes(runs, heads) && i < j <= |runs| && runs[i].reset.Some?
    ensures runs[i].reset.value.last <= Covered(runs[..j])
    decreases j
  {
    var front := runs[..j];
    assert front[..j - 1] == runs[..j - 1];
    if i < j - 1 {
      CoveredGrows(runs, heads, i, j - 1);
      assert runs[j - 1].reset.Some? ==> runs[j - 1].reset.value.first == Covered(runs[..j - 1]);
    }
  }

  /** A run holds, at each account and nonce, the last event queued since the previous launch,
      and nothing else. */
  lemma RunHoldsLatest(head: Head, trace: seq<Event>, k: nat, tx: Tx)
    requires After(head, trace).Some? && k < |After(head, trace).value.runs|
    ensures var s := After(head, trace).value;
            && s.runs[k].first == Taken(s.runs[..k])
            && (Holds(s.runs[k].events, tx) <==>
                exists i: nat :: Latest(s.queued, s.runs[k].first, s.runs[k].last, i) && s.queued[i] == tx)
  {
    EveryRun(head, trace);
    var s := After(head, trace).value;
    assert RunCollected(s.runs, s.queued, k);
  }

  /** Every queued event waits for the next run, or exactly one run took it over. */
  lemma EventHasRun(head: Head, trace: seq<Event>, i: nat)
    requires After(head, trace).Some? && i < |After(head, trace).value.queued|
    ensures var s := After(head, trace).value;
            && Taken(s.runs) <= |s.queued|
            && (i >= Taken(s.runs) ==> Collected(s.queued, Taken(s.runs), |s.queued|, s.events))
            && (i < Taken(s.runs) <==> exists k :: 0 <= k < |s.runs| && TookOver(s.runs, k, i))
            && (forall j, k ::
                  0 <= j < |s.runs| && 0 <= k < |s.runs| && TookOver(s.runs, j, i) && TookOver(s.runs, k, i) ==> j == k)
  {
    EveryRun(head, trace);
    hide RunsOrdered, RequestsKept, HeadsCovered, After;
    var s := After(head, trace).value;
    CollectedWithin(s.queued, Taken(s.runs), |s.queued|, s.events);
    hide Collected;
    if i < Taken(s.runs) {
      var k := RangeHasRun(s.runs, s.queued, i);
      assert TookOver(s.runs, k, i);
    } else {
      NotTaken(s.runs, s.queued, i);
    }
  }

  lemma CollectedWithin(queued: seq<Tx>, lo: nat, hi: nat, events: Lists)
    requires Collected(queued, lo, hi, events)
    ensures lo <= hi <= |queued|
  {
  }

  lemma NotTaken(runs: seq<Run>, queued: seq<Tx>, i: nat)
    requires (forall j :: 0 <= j < |runs| ==> RunCollected(runs, queued, j)) && i >= Taken(runs)
    ensures forall k :: 0 <= k < |runs| ==> !TookOver(runs, k, i)
  {
    hide Collected;
    var last := |runs| - 1;
    forall k | 0 <= k < |runs| ensures !TookOver(runs, k, i) {
      if k < last {
        TakenGrows(runs, queued, k, last);
        LastTakes(runs, queued);
      }
    }
  }

  lemma LastTakes(runs: seq<Run>, queued: seq<Tx>)
    requires runs != [] && forall j :: 0 <= j < |runs| ==> RunCollected(runs, queued, j)
    ensures runs[|runs| - 1].first <= runs[|runs| - 1].last
  {
    assert RunCollected(runs, queued, |runs| - 1);
  }

  predicate TookOver(runs: seq<Run>, k: nat, i: nat)
    requires k < |runs|
  {
    runs[k].first <= i < runs[k].last
  }

  lemma {:induction false} RangeHasRun(runs: seq<Run>, queued: seq<Tx>, i: nat) returns (k: nat)
    requires (forall j :: 0 <= j < |runs| ==> RunCollected(runs, queued, j)) && i < Taken(runs)
    ensures k < |runs| && runs[k].first <= i < runs[k].last
    ensures forall j :: 0 <= j < |runs| && runs[j].first <= i < runs[j].last ==> j == k
    decreases |runs|
  {
    var last := |runs| - 1;
    var front := runs[..last];
    assert RunCollected(runs, queued, last);
    forall j | 0 <= j < |front| ensures RunCollected(front, queued, j) {
      assert RunCollected(runs, queued, j) && front[..j] == runs[..j];
    }
    if i >= runs[last].first {
      k := last;
      forall j | 0 <= j < last ensures runs[j].last <= i {
        TakenGrows(runs, queued, j, last);
      }
    } else {
      k := RangeHasRun(front, queued, i);
    }
  }

  lemma {:induction false} TakenGrows(runs: seq<Run>, queued: seq<Tx>, j: nat, k: nat)
    requires (forall i :: 0 <= i < |runs| ==> RunCollected(runs, queued, i)) && j < k < |runs|
    ensures runs[j].last <= runs[k].first
    decreases k
  {
    assert RunCollected(runs, queued, k) && RunCollected(runs, queued, k - 1);
    if j < k - 1 {
      TakenGrows(runs, queued, j, k - 1);
    }
  }

  /** From any event, the latest one of its slot before hi. */
  lemma {:induction false} LatestFrom(queued: seq<Tx>, lo: nat, hi: nat, i: nat) returns (j: nat)
    requires lo <= i < hi <= |queued|
    ensures i <= j && Latest(queued, lo, hi, j) && SameSlot(queued[i], queued[j])
    decreases hi - i
  {
    if k :| i < k < hi && SameSlot(queued[i], queued[k]) {
      j := LatestFrom(queued, lo, hi, k);
    } else {
      j := i;
    }
  }

  /** An event is missing from the run that took over its range if and only if the last event of
      the same account and nonce in that range is another one; so an event that was queued once
      is lost exactly when a later one of its slot was queued before the same launch. */
  lemma EventLost(head: Head, trace: seq<Event>, k: nat, i: nat)
    requires After(head, trace).Some? && k < |After(head, trace).value.runs|
    requires var run := After(head, trace).value.runs[k]; run.first <= i < run.last
    ensures var s := After(head, trace).value;
            && s.runs[k].last <= |s.queued|
            && (!Holds(s.runs[k].events, s.queued[i]) <==>
                exists j: nat :: i < j && Latest(s.queued, s.runs[k].first, s.runs[k].last, j)
                                 && SameSlot(s.queued[i], s.queued[j]) && s.queued[j] != s.queued[i])
    ensures var s := After(head, trace).value;
            (forall j :: s.runs[k].first <= j < s.runs[k].last && j != i ==> s.queued[j] != s.queued[i]) ==>
              (!Holds(s.runs[k].events, s.queued[i]) <==>
               exists j: nat :: i < j < s.runs[k].last && SameSlot(s.queued[i], s.queued[j]))
  {
    EveryRun(head, trace);
    var s := After(head, trace).value;
    var run := s.runs[k];
    assert RunCollected(s.runs, s.queued, k);
    hide After, Invariant, RunCollected;
    var j := LatestFrom(s.queued, run.first, run.last, i);
    assert Holds(run.events, s.queued[j]);
  }

  /** Two events of one account and nonce before a launch: only the second reaches the run. */
  lemma EventReplaced(head: Head, a: Address, t: Tx, u: Tx)
    requires SameSlot(t, u) && t != u
    ensures var s := After(head, [QueueTx(t), QueueTx(u), Promote({a}), Promote({a})]);
            s.Some? && |s.value.runs| == 1 && !Holds(s.value.runs[0].events, t) && Holds(s.value.runs[0].events, u)
  {
    var trace := [QueueTx(t), QueueTx(u), Promote({a}), Promote({a})];
    assert trace[..3][..2][..1][..0] == [];
    assert trace[..3] == [QueueTx(t), QueueTx(u), Promote({a})];
    assert trace[..3][..2] == [QueueTx(t), QueueTx(u)];
    assert trace[..3][..2][..1] == [QueueTx(t)];
    var s1 := Step(Initial(head), QueueTx(t));
    assert After(head, [QueueTx(t)]) == Some(s1);
    var s2 := Step(s1, QueueTx(u));
    assert After(head, [QueueTx(t), QueueTx(u)]) == Some(s2);
    var s3 := Step(s2, Promote({a}));
    assert After(head, trace[..3]) == Some(s3);
    assert After(head, trace) == Some(Step(s3, Promote({a})));
  }

  /** The loop itself: its variables as fields, a method for the top of the loop and for each
      select case.  Runs, heads and answered requests are history only. */
  class Scheduler {
    var curDone: Option<nat>
    var nextDone: nat
    var launchNextRun: bool
    var reset: Option<Reset>
    var dirtyAccounts: Option<set<Address>>
    var queuedEvents: Lists
    var stopped: bool
    var runs: seq<Run>
    var heads: seq<Head>
    ghost var requests: seq<Request>
    var queued: seq<Tx>

    ghost function View(): Loop
      reads this
    {
      Loop(curDone, nextDone, launchNextRun, reset, dirtyAccounts, queuedEvents, stopped, runs, heads, requests, queued)
    }

    constructor (head: Head)
      ensures View() == Initial(head) && Invariant(View())
    {
      curDone, nextDone, launchNextRun, reset, dirtyAccounts, queuedEvents := None, 0, false, None, None, map[];
      stopped, runs, heads, requests, queued := false, [], [head], [], [];
    }

    method LaunchNext()
      requires !stopped
      modifies this
      ensures View() == Launch(old(View()))
    {
      if curDone.None? && launchNextRun {
        runs := runs + [Run(nextDone, reset, dirtyAccounts, queuedEvents, false, Taken(runs), |queued|)];
        curDone, nextDone := Some(nextDone), nextDone + 1;
        launchNextRun := false;
        reset, dirtyAccounts := None, None;
        queuedEvents := map[];
      }
    }

    /** A reset request: a pending one only gets the newer head. */
    method OnReset(newHead: Head) returns (done: nat)
      requires !stopped && heads != []
      modifies this
      ensures View() == Step(old(View()), NewHead(newHead)) && done == nextDone
    {
      LaunchNext();
      var k := |heads| - 1;
      if reset.None? {
        reset := Some(Reset(heads[k], newHead, k, k + 1));
      } else {
        reset := Some(reset.value.(newHead := newHead, last := k + 1));
      }
      launchNextRun := true;
      heads := heads + [newHead];
      done := nextDone;
      requests := requests + [HeadChange(k, done)];
    }

    /** A promotion request: a pending account set is merged with the new one. */
    method OnPromote(accounts: set<Address>) returns (done: nat)
      requires !stopped && heads != []
      modifies this
      ensures View() == Step(old(View()), Promote(accounts)) && done == nextDone
    {
      LaunchNext();
      if dirtyAccounts.None? {
        dirtyAccounts := Some(accounts);
      } else {
        dirtyAccounts := Some(dirtyAccounts.value + accounts);
      }
      launchNextRun := true;
      done := nextDone;
      requests := requests + [Promotion(accounts, done)];
    }

    method OnEvent(tx: Tx)
      requires !stopped && heads != []
      modifies this
      ensures View() == Step(old(View()), QueueTx(tx))
    {
      LaunchNext();
      queuedEvents := PutEvent(queuedEvents, tx);
      queued := queued + [tx];
    }

    /** Handles events in any order; those that cannot happen yet are passed over.  The state is the
        abstract one, so it is reachable and satisfies the invariant. */
    method Serve(events: seq<Event>)
      requires Invariant(View())
      modifies this
      ensures Invariant(View()) && old(View()).heads != [] && View() == Served(old(View()), events)
    {
      hide Invariant, Step, Enabled, Served;
      InvariantHeads(View());
      ServedNone(View(), events);
      for i := 0 to |events|
        invariant Invariant(View()) && View() == Served(old(View()), events[..i])
      {
        InvariantHeads(View());
        ServedNext(old(View()), events, i);
        if Enabled(View(), events[i]) {
          StepKeeps(View(), events[i]);
        }
        Handle(events[i]);
      }
      assert events[..|events|] == events;
    }

    /** One turn of the loop, if the event can happen. */
    method Handle(e: Event)
      requires heads != []
      modifies this
      ensures View() == if Enabled(old(View()), e) then Step(old(View()), e) else old(View())
    {
      match e {
        case NewHead(h) =>
          if !stopped {
            var _ := OnReset(h);
          }
        case Promote(accounts) =>
          if !stopped {
            var _ := OnPromote(accounts);
          }
        case QueueTx(tx) =>
          if !stopped {
            OnEvent(tx);
          }
        case RunFinishes =>
          if !stopped && curDone.None? && launchNextRun {
            LaunchNext();
          }
          if runs != [] && !runs[|runs| - 1].finished {
            runs := runs[|runs| - 1 := runs[|runs| - 1].(finished := true)];
          }
        case SeesDone =>
          if !stopped && curDone.Some? && (runs == [] || runs[|runs| - 1].finished) {
            curDone := None;
          }
        case Shutdown =>
          // A run that is wanted starts before the loop selects, and is then waited for.
          if !stopped && !(curDone.None? && launchNextRun) && (runs == [] || runs[|runs| - 1].finished) {
            stopped := true;
          }
      }
    }
  }

  lemma ServedNone(s: Loop, events: seq<Event>)
    requires s.heads != []
    ensures Served(s, events[..0]) == s
  {
  }

  lemma ServedNext(s: Loop, events: seq<Event>, i: nat)
    requires s.heads != [] && i < |events|
    ensures var before := Served(s, events[..i]);
            Served(s, events[..i + 1]) == if Enabled(before, events[i]) then Step(before, events[i]) else before
  {
    hide Step, Enabled;
    assert events[..i + 1][..i] == events[..i];
  }

  lemma InvariantHeads(s: Loop)
    requires Invariant(s)
    ensures s.heads != []
  {
  }
}

/** The event feed: one sender at a time delivers a value to all subscribed channels while
    others subscribe and unsubscribe.  Every step that the locks and channels make atomic is a
    method; the select cases are one list whose first entry is the removal channel and whose
    first `active` entries are the cases the running Send still has to serve. */
module Feed {
  type Chan = nat

  /** The channel on which an unsubscriber interrupts a running Send. */
  const REMOVE_SUB: Chan := 0

  const FIRST_SUB := 1

  function Delete(s: seq<Chan>, i: nat): seq<Chan>
    requires i < |s|
  {
    s[..i] + s[i + 1..]
  }

  /** Moves the case at i to the end of the first a cases. */
  function Deactivate(s: seq<Chan>, i: nat, a: nat): seq<Chan>
    requires i < a <= |s|
  {
    s[i := s[a - 1]][a - 1 := s[i]]
  }

  /** The first index of a channel, or -1. */
  method Find(s: seq<Chan>, ch: Chan) returns (index: int)
    ensures index == -1 <==> ch !in s
    ensures index != -1 ==> 0 <= index < |s| && s[index] == ch && ch !in s[..index]
  {
    for i := 0 to |s|
      invariant ch !in s[..i]
    {
      if s[i] == ch {
        return i;
      }
    }
    return -1;
  }

  lemma SplitAt(s: seq<Chan>, a: nat, i: nat, b: nat)
    requires a <= i < b <= |s|
    ensures multiset(s[a..b]) == multiset(s[a..i]) + multiset{s[i]} + multiset(s[i + 1..b])
  {
    assert s[a..b] == s[a..i] + [s[i]] + s[i + 1..b];
  }

  lemma DeleteActive(s: seq<Chan>, i: nat, a: nat)
    requires 1 <= i < a <= |s|
    ensures multiset(Delete(s, i)[1..a - 1]) + multiset{s[i]} == multiset(s[1..a])
  {
    var r := Delete(s, i);
    assert r[1..a - 1] == s[1..i] + s[i + 1..a];
    SplitAt(s, 1, i, a);
  }

  lemma DeactivateActive(s: seq<Chan>, i: nat, a: nat)
    requires 1 <= i < a <= |s|
    ensures multiset(Deactivate(s, i, a)[1..a - 1]) + multiset{s[i]} == multiset(s[1..a])
  {
    var r := Deactivate(s, i, a);
    if i == a - 1 {
      assert s[1..a] == r[1..a - 1] + [s[i]];
    } else {
      assert s[1..a] == s[1..a - 1] + [s[a - 1]];
      assert r[1..a - 1] == s[1..i] + [s[a - 1]] + s[i + 1..a - 1];
      SplitAt(s, 1, i, a - 1);
    }
  }

  lemma DeactivateKeeps(s: seq<Chan>, i: nat, a: nat)
    requires 1 <= i < a <= |s|
    ensures multiset(Deactivate(s, i, a)[1..]) == multiset(s[1..])
  {
    var r := Deactivate(s, i, a);
    DeactivateActive(s, i, a);
    assert s[1..] == s[1..a] + s[a..];
    assert r[1..] == r[1..a - 1] + [s[i]] + s[a..];
  }

  /** What the outside world can see. */
  datatype Entry = Subscribed(ch: Chan) | Returned(ch: Chan) | Delivered(ch: Chan)

  function Subscriptions(log: seq<Entry>, ch: Chan): nat {
    if log == [] then 0
    else Subscriptions(log[..|log| - 1], ch) + if log[|log| - 1] == Subscribed(ch) then 1 else 0
  }

  function Returns(log: seq<Entry>, ch: Chan): nat {
    if log == [] then 0
    else Returns(log[..|log| - 1], ch) + if log[|log| - 1] == Returned(ch) then 1 else 0
  }

  /** Every delivery goes to a channel with a subscription whose Unsubscribe has not returned. */
  ghost predicate OnlyLive(log: seq<Entry>) {
    forall k: nat :: k < |log| && log[k].Delivered? ==>
                       Subscriptions(log[..k], log[k].ch) > Returns(log[..k], log[k].ch)
  }

  lemma LogStep(log: seq<Entry>, e: Entry)
    ensures forall ch :: Subscriptions(log + [e], ch) == Subscriptions(log, ch) + if e == Subscribed(ch) then 1 else 0
    ensures forall ch :: Returns(log + [e], ch) == Returns(log, ch) + if e == Returned(ch) then 1 else 0
    ensures OnlyLive(log) && (e.Delivered? ==> Subscriptions(log, e.ch) > Returns(log, e.ch)) ==> OnlyLive(log + [e])
  {
    var more := log + [e];
    assert more[..|more| - 1] == log;
    if OnlyLive(log) && (e.Delivered? ==> Subscriptions(log, e.ch) > Returns(log, e.ch)) {
      forall k: nat | k < |more| && more[k].Delivered?
        ensures Subscriptions(more[..k], more[k].ch) > Returns(more[..k], more[k].ch)
      {
        if k < |log| {
          assert more[..k] == log[..k] && more[k] == log[k];
        }
      }
    }
  }

  /** The live subscriptions are those the log says are not yet returned. */
  ghost predicate Logged(log: seq<Entry>, idle: multiset<Chan>, waiting: multiset<Chan>) {
    OnlyLive(log) && forall ch :: idle[ch] + waiting[ch] + Returns(log, ch) == Subscriptions(log, ch)
  }

  /** Send's progress: not running, trying case i without blocking, or blocked in a select. */
  datatype Phase = Unlocked | Trying(i: nat) | Selecting

  function Added(m: multiset<Chan>, ch: Chan): multiset<Chan> {
    m + multiset{ch}
  }

  function Dropped(m: multiset<Chan>, ch: Chan): multiset<Chan> {
    m - multiset{ch}
  }

  /** The channel has a case the running Send has not served. */
  ghost predicate IsActive(cases: seq<Chan>, active: nat, ch: Chan) {
    exists i: nat :: 1 <= i < active && i < |cases| && cases[i] == ch
  }

  function Count(s: seq<Chan>, ch: Chan): nat {
    multiset(s)[ch]
  }

  /** The inbox and the send cases are exactly the live subscriptions, and whoever waits to
      remove a channel will find it among the send cases. */
  ghost predicate Listed(inbox: seq<Chan>, cases: seq<Chan>, idle: multiset<Chan>, waiting: multiset<Chan>) {
    && |cases| >= 1 && cases[0] == REMOVE_SUB && idle[REMOVE_SUB] + waiting[REMOVE_SUB] == 0
    && (forall ch :: Count(inbox, ch) + Count(cases[1..], ch) == idle[ch] + waiting[ch])
    && (forall ch :: waiting[ch] <= Count(cases[1..], ch))
  }

  /** Every case drained by the Send was served, is still active, or was removed. */
  ghost predicate Accounted(cases: seq<Chan>, active: nat, drained: multiset<Chan>, delivered: multiset<Chan>,
                            removed: multiset<Chan>) {
    1 <= active <= |cases| && drained == delivered + multiset(cases[1..active]) + removed
  }

  predicate PhaseFits(phase: Phase, active: nat) {
    match phase
    case Unlocked => active == 1
    case Trying(i) => 1 <= i <= active
    case Selecting => active > 1
  }

  ghost predicate Serving(cases: seq<Chan>, phase: Phase, active: nat, nsent: nat,
                          drained: multiset<Chan>, delivered: multiset<Chan>, removed: multiset<Chan>)
  {
    Accounted(cases, active, drained, delivered, removed) && nsent == |delivered| && PhaseFits(phase, active)
  }

  datatype Event =
    | Subscribe(ch: Chan)
    | Unsubscribe(ch: Chan)
    | RemoveUnlocked(ch: Chan)
    | BeginSend
    | TrySend(ready: bool)
    | EndTry
    | SelectSend(chosen: nat)
    | SelectRemove(ch: Chan)

  /** The feed and its books. */
  datatype State = State(inbox: seq<Chan>, cases: seq<Chan>, phase: Phase, active: nat, nsent: nat,
                         idle: multiset<Chan>, waiting: multiset<Chan>, drained: multiset<Chan>,
                         delivered: multiset<Chan>, removed: multiset<Chan>, log: seq<Entry>)

  /** The value goes to the active case at i, which leaves the active part. */
  ghost predicate Serves(a: State, i: nat, next: nat, b: State) {
    && 1 <= i < a.active <= |a.cases|
    && b == a.(cases := Deactivate(a.cases, i, a.active), phase := Trying(next), active := a.active - 1,
            nsent := a.nsent + 1, delivered := a.delivered + multiset{a.cases[i]},
            log := a.log + [Delivered(a.cases[i])])
  }

  /** What an event makes of the feed; one that cannot happen changes nothing. */
  ghost predicate Steps(a: State, e: Event, b: State) {
    match e
    case Subscribe(ch) =>
      if ch == REMOVE_SUB then b == a
      else b == a.(inbox := a.inbox + [ch], idle := Added(a.idle, ch), log := a.log + [Subscribed(ch)])
    case Unsubscribe(ch) =>
      if ch !in a.idle then b == a
      else if ch !in a.inbox then b == a.(idle := Dropped(a.idle, ch), waiting := Added(a.waiting, ch))
      else multiset(b.inbox) == multiset(a.inbox) - multiset{ch}
           && b == a.(inbox := b.inbox, idle := Dropped(a.idle, ch), log := a.log + [Returned(ch)])
    case RemoveUnlocked(ch) =>
      if ch !in a.waiting || !a.phase.Unlocked? then b == a
      else multiset(b.cases) == multiset(a.cases) - multiset{ch}
           && b == a.(cases := b.cases, waiting := Dropped(a.waiting, ch), log := a.log + [Returned(ch)])
    case BeginSend =>
      if !a.phase.Unlocked? then b == a
      else b == a.(inbox := [], cases := a.cases + a.inbox, phase := Trying(FIRST_SUB),
                active := |a.cases + a.inbox|, nsent := 0, drained := a.idle + a.waiting, delivered := multiset{},
                removed := multiset{})
    case TrySend(ready) =>
      if !a.phase.Trying? || a.phase.i >= a.active then b == a
      else if !ready then b == a.(phase := Trying(a.phase.i + 1))
      else Serves(a, a.phase.i, a.phase.i, b)
    case EndTry =>
      if !a.phase.Trying? || a.phase.i != a.active then b == a
      else b == a.(phase := if a.active == 1 then Unlocked else Selecting)
    case SelectSend(chosen) =>
      if !a.phase.Selecting? || !(1 <= chosen < a.active) then b == a
      else Serves(a, chosen, FIRST_SUB, b)
    case SelectRemove(ch) =>
      if !a.phase.Selecting? || ch !in a.waiting then b == a
      else
        && multiset(b.cases) == multiset(a.cases) - multiset{ch}
        && var unserved := IsActive(a.cases, a.active, ch);
        b == a.(cases := b.cases, phase := Trying(FIRST_SUB), active := b.active, waiting := Dropped(a.waiting, ch),
                removed := if unserved then a.removed + multiset{ch} else a.removed, log := a.log + [Returned(ch)])
        && b.active == if unserved then a.active - 1 else a.active
  }

  /** Each of the first n events takes one state to the next. */
  ghost predicate Replay(states: seq<State>, events: seq<Event>, n: nat) {
    && n <= |events| && |states| == n + 1
    && forall k :: 0 <= k < n ==> StepsAt(states, events, k)
  }

  ghost predicate StepsAt(states: seq<State>, events: seq<Event>, k: nat)
    requires k < |events| && k + 1 < |states|
  {
    Steps(states[k], events[k], states[k + 1])
  }

  lemma ReplayStart(states: seq<State>, events: seq<Event>)
    requires |states| == 1
    ensures Replay(states, events, 0)
  {
  }

  lemma ReplayNext(states: seq<State>, events: seq<Event>, n: nat, b: State)
    requires Replay(states, events, n) && n < |events| && |states| == n + 1 && Steps(states[n], events[n], b)
    ensures Replay(states + [b], events, n + 1)
  {
    hide Steps;
    var more := states + [b];
    forall k | 0 <= k <= n ensures StepsAt(more, events, k) {
      assert k < n ==> StepsAt(states, events, k);
    }
  }

  class Feed {
    var inbox: seq<Chan>
    var sendCases: seq<Chan>
    var phase: Phase
    var active: nat
    var nsent: nat
    /** The callers: subscriptions nobody is cancelling, and unsubscribers past the inbox check. */
    var idle: multiset<Chan>
    var waiting: multiset<Chan>
    /** The cases of the running or last Send, those it served, those removed before that. */
    ghost var drained: multiset<Chan>
    ghost var delivered: multiset<Chan>
    ghost var removed: multiset<Chan>
    ghost var log: seq<Entry>

    ghost predicate Valid()
      reads this
    {
      && Listed(inbox, sendCases, idle, waiting) && Logged(log, idle, waiting)
      && Serving(sendCases, phase, active, nsent, drained, delivered, removed)
    }

    ghost function Snap(): State
      reads this
    {
      State(inbox, sendCases, phase, active, nsent, idle, waiting, drained, delivered, removed, log)
    }

    constructor ()
      ensures Valid() && inbox == [] && sendCases == [REMOVE_SUB] && phase == Unlocked && log == []
    {
      inbox, sendCases, phase, active, nsent := [], [REMOVE_SUB], Unlocked, 1, 0;
      idle, waiting, drained, delivered, removed, log := multiset{}, multiset{}, multiset{}, multiset{}, multiset{}, [];
    }

    method Subscribe(ch: Chan)
      requires Valid() && ch != REMOVE_SUB
      modifies this`inbox, this`idle, this`log
      ensures Valid() && inbox == old(inbox) + [ch]
      ensures idle == Added(old(idle), ch) && log == old(log) + [Subscribed(ch)]
    {
      hide Logged, Listed, Accounted, Delete, Added, Dropped;
      LiveAdded(log, idle, waiting, ch);
      SubscribeListed(inbox, sendCases, idle, waiting, ch);
      inbox := inbox + [ch];
      idle := Added(idle, ch);
      log := log + [Subscribed(ch)];
    }

    /** The first half of cancelling a subscription: if the channel is still in the inbox it is
        deleted there and the call returns; otherwise it goes on to wait. */
    method Unsubscribe(ch: Chan) returns (done: bool)
      requires Valid() && ch in idle
      modifies this`inbox, this`idle, this`waiting, this`log
      ensures Valid() && (done <==> ch in old(inbox)) && idle == Dropped(old(idle), ch)
      ensures done ==> multiset(inbox) == multiset(old(inbox)) - multiset{ch} && waiting == old(waiting)
                       && log == old(log) + [Returned(ch)]
      ensures !done ==> inbox == old(inbox) && waiting == Added(old(waiting), ch) && log == old(log)
    {
      hide Logged, Listed, Accounted, Delete, Added, Dropped;
      var index := Find(inbox, ch);
      if index != -1 {
        IdleRemoved(log, idle, waiting, ch);
        CancelListed(inbox, sendCases, idle, waiting, index);
        inbox := Delete(inbox, index);
        idle := Dropped(idle, ch);
        log := log + [Returned(ch)];
        return true;
      }
      WaitListed(inbox, sendCases, log, idle, waiting, ch);
      idle, waiting := Dropped(idle, ch), Added(waiting, ch);
      done := false;
    }

    /** The index of a channel someone waits to remove: it is always found, behind the removal
        channel. */
    method FindWaited(ch: Chan) returns (index: nat)
      requires Valid() && ch in waiting
      ensures 1 <= index < |sendCases| && sendCases[index] == ch && ch !in sendCases[..index]
    {
      hide Accounted, Logged;
      assert Count(sendCases[1..], ch) > 0;
      assert ch in sendCases[1..];
      var found := Find(sendCases, ch);
      index := found;
    }

    /** The second half when no Send is running: the waiter takes the send lock itself. */
    method RemoveUnlocked(ch: Chan)
      requires Valid() && ch in waiting && phase.Unlocked?
      modifies this`sendCases, this`waiting, this`log
      ensures Valid() && multiset(sendCases) == multiset(old(sendCases)) - multiset{ch}
      ensures waiting == Dropped(old(waiting), ch) && log == old(log) + [Returned(ch)]
    {
      hide Logged, Listed, Accounted, Delete, Added, Dropped;
      var index := FindWaited(ch);
      WaitingRemoved(log, idle, waiting, ch);
      DeleteOne(sendCases, index);
      DeleteListed(inbox, sendCases, idle, waiting, index);
      NotBusy(phase, active);
      DeleteServed(sendCases, index, active, drained, delivered, removed);
      sendCases := Delete(sendCases, index);
      waiting := Dropped(waiting, ch);
      log := log + [Returned(ch)];
    }

    /** Takes the send lock and moves the inbox to the send cases: the Send owes a delivery to
        every live subscription. */
    method BeginSend()
      requires Valid() && phase.Unlocked?
      modifies this`inbox, this`sendCases, this`phase, this`active, this`nsent, this`drained, this`delivered,
               this`removed
      ensures Valid() && inbox == [] && sendCases == old(sendCases) + old(inbox)
      ensures phase == Trying(FIRST_SUB) && active == |sendCases| && nsent == 0
      ensures drained == idle + waiting && delivered == multiset{} && removed == multiset{}
    {
      hide Logged, Listed, Serving;
      var all := sendCases + inbox;
      Drains(inbox, sendCases, all, idle, waiting);
      sendCases, inbox := all, [];
      phase, active, nsent := Trying(FIRST_SUB), |all|, 0;
      drained, delivered, removed := idle + waiting, multiset{}, multiset{};
    }

    /** Hands the value to the active case at i. */
    method Deliver(i: nat)
      requires Valid() && 1 <= i < active
      modifies this`sendCases, this`phase, this`active, this`nsent, this`delivered, this`log
      ensures Valid() && phase == Trying(i) && active == old(active) - 1 && nsent == old(nsent) + 1
      ensures |sendCases| == old(|sendCases|) && old(active) <= |sendCases|
              && sendCases == Deactivate(old(sendCases), i, old(active))
      ensures delivered == old(delivered) + multiset{old(sendCases[i])}
              && log == old(log) + [Delivered(old(sendCases[i]))]
      ensures old(sendCases[i]) in idle + waiting
    {
      hide Logged, Listed, Accounted, Deactivate;
      DeliverAccounted(sendCases, i, active, drained, delivered, removed);
      DeliverListed(inbox, sendCases, idle, waiting, i, active);
      DeactivateLength(sendCases, i, active);
      ghost var ch := sendCases[i];
      LiveServed(log, idle, waiting, ch);
      nsent := nsent + 1;
      sendCases := Deactivate(sendCases, i, active);
      active := active - 1;
      delivered := delivered + multiset{ch};
      log := log + [Delivered(ch)];
      phase := Trying(i);
    }

    /** The fast path: one attempt to send without blocking. */
    method TrySend(ready: bool)
      requires Valid() && phase.Trying? && phase.i < active
      modifies this`sendCases, this`phase, this`active, this`nsent, this`delivered, this`log
      ensures Valid() && old(log) <= log
      ensures !ready ==> phase == Trying(old(phase.i) + 1) && active == old(active) && sendCases == old(sendCases)
                         && delivered == old(delivered)
      ensures ready ==> phase == old(phase) && active == old(active) - 1 && old(phase.i) < old(|sendCases|)
                        && delivered == old(delivered) + multiset{old(sendCases[phase.i])}
      ensures Steps(old(Snap()), Event.TrySend(ready), Snap())
    {
      hide Logged, Listed, Accounted, Deactivate;
      if ready {
        InCases(sendCases, active, drained, delivered, removed);
        Deliver(phase.i);
      } else {
        phase := Trying(phase.i + 1);
      }
    }

    /** After a pass over all active cases: done when none is left.  Then every case drained at
        the start was served exactly once or removed before its turn. */
    method EndTry() returns (done: bool)
      requires Valid() && phase.Trying? && phase.i == active
      modifies this`phase
      ensures Valid() && (done <==> active == 1) && phase == if done then Unlocked else Selecting
      ensures done ==> drained == delivered + removed && nsent == |drained| - |removed|
    {
      hide Logged, Listed;
      done := active == 1;
      phase := if done then Unlocked else Selecting;
      assert done ==> sendCases[1..active] == [];
    }

    /** The select chose a receiver. */
    method SelectSend(chosen: nat)
      requires Valid() && phase.Selecting? && 1 <= chosen < active
      modifies this`sendCases, this`phase, this`active, this`nsent, this`delivered, this`log
      ensures Valid() && old(log) <= log && phase == Trying(FIRST_SUB) && active == old(active) - 1
      ensures chosen < old(|sendCases|) && delivered == old(delivered) + multiset{old(sendCases[chosen])}
      ensures Steps(old(Snap()), Event.SelectSend(chosen), Snap())
    {
      hide Logged, Listed, Accounted, Deactivate;
      InCases(sendCases, active, drained, delivered, removed);
      Deliver(chosen);
      phase := Trying(FIRST_SUB);
    }

    /** The select chose a waiting unsubscriber: its case goes, active or not. */
    method SelectRemove(ch: Chan)
      requires Valid() && phase.Selecting? && ch in waiting
      modifies this`sendCases, this`phase, this`active, this`waiting, this`removed, this`log
      ensures Valid() && phase == Trying(FIRST_SUB) && waiting == Dropped(old(waiting), ch)
      ensures multiset(sendCases) == multiset(old(sendCases)) - multiset{ch} && log == old(log) + [Returned(ch)]
      ensures if IsActive(old(sendCases), old(active), ch) then active == old(active) - 1
                                                                && removed == old(removed) + multiset{ch}
              else active == old(active) && removed == old(removed)
    {
      hide Logged, Listed, Serving, Delete, Added, Dropped, IsActive;
      var index := FindWaited(ch);
      ServingCases(sendCases, phase, active, nsent, drained, delivered, removed);
      FirstInPrefix(sendCases, active, index);
      WaitingRemoved(log, idle, waiting, ch);
      DropCase(index);
      waiting := Dropped(waiting, ch);
      log := log + [Returned(ch)];
    }

    /** Deletes a case, shrinking the active part if the case was in it, and tries again. */
    method DropCase(index: nat)
      requires Serving(sendCases, phase, active, nsent, drained, delivered, removed) && 1 <= index < |sendCases|
      requires Listed(inbox, sendCases, idle, waiting) && sendCases[index] in waiting
      modifies this`sendCases, this`active, this`removed, this`phase
      ensures Serving(sendCases, phase, active, nsent, drained, delivered, removed) && phase == Trying(FIRST_SUB)
      ensures Listed(inbox, sendCases, idle, Dropped(waiting, old(sendCases[index])))
      ensures multiset(sendCases) == multiset(old(sendCases)) - multiset{old(sendCases[index])}
      ensures if index < old(active) then active == old(active) - 1
                                          && removed == old(removed) + multiset{old(sendCases[index])}
              else active == old(active) && removed == old(removed)
    {
      hide Serving, Delete, Listed, Dropped;
      DeleteListed(inbox, sendCases, idle, waiting, index);
      DeleteOne(sendCases, index);
      ServedCase(sendCases, index, phase, active, nsent, drained, delivered, removed);
      if index < active {
        DroppedCase(sendCases, index, phase, active, nsent, drained, delivered, removed);
        active := active - 1;
        removed := removed + multiset{sendCases[index]};
      }
      sendCases := Delete(sendCases, index);
      phase := Trying(FIRST_SUB);
    }

    /** Every interleaving of subscribers, unsubscribers and senders: each state is the one its event
        makes of the state before, and the feed stays sound, so in the whole log no delivery follows
        the return of the last Unsubscribe of its channel. */
    method Run(events: seq<Event>) returns (ghost states: seq<State>)
      requires Valid()
      modifies this
      ensures Valid() && old(log) <= log && OnlyLive(log)
      ensures Replay(states, events, |events|) && states[0] == old(Snap()) && states[|events|] == Snap()
    {
      hide Listed, Serving, OnlyLive, Steps, Replay;
      states := [Snap()];
      ReplayStart(states, events);
      for k := 0 to |events|
        invariant Valid() && old(log) <= log && |states| == k + 1
        invariant Replay(states, events, k) && states[0] == old(Snap()) && states[k] == Snap()
      {
        Handle(events[k]);
        ReplayNext(states, events, k, Snap());
        states := states + [Snap()];
      }
    }

    /** One event, if it can happen. */
    method Handle(e: Event)
      requires Valid()
      modifies this
      ensures Valid() && old(log) <= log && Steps(old(Snap()), e, Snap())
    {
      hide Listed, Serving, Logged, Added, Dropped, IsActive, Serves;
      match e {
        case Subscribe(ch) =>
          if ch != REMOVE_SUB {
            Subscribe(ch);
          }
        case Unsubscribe(ch) =>
          if ch in idle {
            var _ := Unsubscribe(ch);
          }
        case RemoveUnlocked(ch) =>
          if ch in waiting && phase.Unlocked? {
            RemoveUnlocked(ch);
          }
        case BeginSend =>
          if phase.Unlocked? {
            BeginSend();
          }
        case TrySend(ready) =>
          if phase.Trying? && phase.i < active {
            TrySend(ready);
          }
        case EndTry =>
          if phase.Trying? && phase.i == active {
            var _ := EndTry();
          }
        case SelectSend(chosen) =>
          if phase.Selecting? && 1 <= chosen < active {
            SelectSend(chosen);
          }
        case SelectRemove(ch) =>
          if phase.Selecting? && ch in waiting {
            SelectRemove(ch);
          }
      }
    }
  }

  lemma DeleteOne(s: seq<Chan>, i: nat)
    requires i < |s|
    ensures multiset(Delete(s, i)) == multiset(s) - multiset{s[i]}
  {
    assert s == s[..i] + [s[i]] + s[i + 1..];
  }

  lemma FirstInPrefix(s: seq<Chan>, a: nat, index: nat)
    requires 1 <= a <= |s| && 1 <= index < |s| && s[index] !in s[..index]
    ensures IsActive(s, a, s[index]) <==> index < a
  {
    assert forall k: nat :: 1 <= k < index ==> s[..index][k] == s[k];
  }

  lemma NotBusy(phase: Phase, active: nat)
    requires PhaseFits(phase, active) && phase.Unlocked?
    ensures active == 1
  {
  }

  lemma ServingCases(cases: seq<Chan>, phase: Phase, active: nat, nsent: nat,
                     drained: multiset<Chan>, delivered: multiset<Chan>, removed: multiset<Chan>)
    requires Serving(cases, phase, active, nsent, drained, delivered, removed)
    ensures 1 <= active <= |cases|
  {
  }

  lemma InCases(cases: seq<Chan>, active: nat, drained: multiset<Chan>, delivered: multiset<Chan>,
                removed: multiset<Chan>)
    requires Accounted(cases, active, drained, delivered, removed)
    ensures 1 <= active <= |cases|
  {
  }

  lemma SubscribeListed(inbox: seq<Chan>, cases: seq<Chan>, idle: multiset<Chan>, waiting: multiset<Chan>, ch: Chan)
    requires Listed(inbox, cases, idle, waiting) && ch != REMOVE_SUB
    ensures Listed(inbox + [ch], cases, Added(idle, ch), waiting)
  {
  }

  lemma CancelListed(inbox: seq<Chan>, cases: seq<Chan>, idle: multiset<Chan>, waiting: multiset<Chan>, i: nat)
    requires Listed(inbox, cases, idle, waiting) && i < |inbox| && inbox[i] in idle
    ensures Listed(Delete(inbox, i), cases, Dropped(idle, inbox[i]), waiting)
    ensures multiset(Delete(inbox, i)) == multiset(inbox) - multiset{inbox[i]}
  {
    hide Delete;
    DeleteOne(inbox, i);
  }

  lemma WaitListed(inbox: seq<Chan>, cases: seq<Chan>, log: seq<Entry>, idle: multiset<Chan>, waiting: multiset<Chan>,
                   ch: Chan)
    requires Listed(inbox, cases, idle, waiting) && Logged(log, idle, waiting) && ch in idle && ch !in inbox
    ensures Listed(inbox, cases, Dropped(idle, ch), Added(waiting, ch))
    ensures Logged(log, Dropped(idle, ch), Added(waiting, ch))
  {
    assert Count(inbox, ch) == 0;
  }

  lemma DeleteCounts(cases: seq<Chan>, i: nat, ch: Chan)
    requires 1 <= i < |cases|
    ensures Count(Delete(cases, i)[1..], ch) == Count(cases[1..], ch) - if ch == cases[i] then 1 else 0
  {
    DeleteActive(cases, i, |cases|);
    var r := Delete(cases, i);
    assert r[1..] == r[1..|cases| - 1] && cases[1..] == cases[1..|cases|];
    assert (multiset(r[1..]) + multiset{cases[i]})[ch] == multiset(cases[1..])[ch];
  }

  lemma DeleteListed(inbox: seq<Chan>, cases: seq<Chan>, idle: multiset<Chan>, waiting: multiset<Chan>, i: nat)
    requires Listed(inbox, cases, idle, waiting) && 1 <= i < |cases| && cases[i] in waiting
    ensures Listed(inbox, Delete(cases, i), idle, Dropped(waiting, cases[i]))
  {
    var r := Delete(cases, i);
    assert |r| == |cases| - 1 && r[0] == cases[0];
    hide Delete, Count;
    forall ch ensures Count(r[1..], ch) == Count(cases[1..], ch) - if ch == cases[i] then 1 else 0 {
      DeleteCounts(cases, i, ch);
    }
  }

  lemma CountsAre(s: seq<Chan>, idle: multiset<Chan>, waiting: multiset<Chan>)
    requires forall ch :: Count(s, ch) == idle[ch] + waiting[ch]
    ensures multiset(s) == idle + waiting
  {
    forall ch ensures multiset(s)[ch] == (idle + waiting)[ch] {
      assert Count(s, ch) == idle[ch] + waiting[ch];
    }
  }

  lemma Drains(inbox: seq<Chan>, cases: seq<Chan>, all: seq<Chan>, idle: multiset<Chan>, waiting: multiset<Chan>)
    requires Listed(inbox, cases, idle, waiting) && all == cases + inbox
    ensures Listed([], all, idle, waiting)
    ensures Serving(all, Trying(FIRST_SUB), |all|, 0, idle + waiting, multiset{}, multiset{})
  {
    assert all[1..] == cases[1..] + inbox == all[1..|all|];
    CountsAre(all[1..], idle, waiting);
  }

  lemma DeliverListed(inbox: seq<Chan>, cases: seq<Chan>, idle: multiset<Chan>, waiting: multiset<Chan>, i: nat, a: nat)
    requires Listed(inbox, cases, idle, waiting) && 1 <= i < a <= |cases|
    ensures Listed(inbox, Deactivate(cases, i, a), idle, waiting)
    ensures cases[i] in idle + waiting
  {
    DeactivateKeeps(cases, i, a);
    assert cases[1..][i - 1] == cases[i];
    assert Count(cases[1..], cases[i]) > 0;
  }

  lemma DeliverAccounted(cases: seq<Chan>, i: nat, active: nat, drained: multiset<Chan>, delivered: multiset<Chan>,
                         removed: multiset<Chan>)
    requires Accounted(cases, active, drained, delivered, removed) && 1 <= i < active
    ensures active <= |cases|
    ensures Accounted(Deactivate(cases, i, active), active - 1, drained, delivered + multiset{cases[i]}, removed)
  {
    hide Deactivate;
    DeactivateActive(cases, i, active);
    DeactivateLength(cases, i, active);
  }

  lemma DeactivateLength(s: seq<Chan>, i: nat, a: nat)
    requires i < a <= |s|
    ensures |Deactivate(s, i, a)| == |s|
  {
  }

  lemma DeleteActiveCase(cases: seq<Chan>, i: nat, active: nat, drained: multiset<Chan>, delivered: multiset<Chan>,
                         removed: multiset<Chan>)
    requires Accounted(cases, active, drained, delivered, removed) && 1 <= i < active
    ensures active <= |cases|
            && Accounted(Delete(cases, i), active - 1, drained, delivered, removed + multiset{cases[i]})
  {
    DeleteActive(cases, i, active);
  }

  lemma DeleteServed(cases: seq<Chan>, i: nat, active: nat, drained: multiset<Chan>, delivered: multiset<Chan>,
                     removed: multiset<Chan>)
    requires Accounted(cases, active, drained, delivered, removed) && active <= i < |cases|
    ensures Accounted(Delete(cases, i), active, drained, delivered, removed)
  {
    assert Delete(cases, i)[1..active] == cases[1..active];
  }

  /** A case of the active part goes: the Send no longer owes it a delivery. */
  lemma DroppedCase(cases: seq<Chan>, i: nat, phase: Phase, active: nat, nsent: nat, drained: multiset<Chan>,
                    delivered: multiset<Chan>, removed: multiset<Chan>)
    requires Serving(cases, phase, active, nsent, drained, delivered, removed) && 1 <= i < active
    ensures active <= |cases| && Serving(Delete(cases, i), Trying(FIRST_SUB), active - 1, nsent, drained, delivered,
                                         removed + multiset{cases[i]})
  {
    hide Accounted, Delete;
    DeleteActiveCase(cases, i, active, drained, delivered, removed);
    InCases(cases, active, drained, delivered, removed);
  }

  /** A case served already goes. */
  lemma ServedCase(cases: seq<Chan>, i: nat, phase: Phase, active: nat, nsent: nat, drained: multiset<Chan>,
                   delivered: multiset<Chan>, removed: multiset<Chan>)
    requires Serving(cases, phase, active, nsent, drained, delivered, removed) && i < |cases|
    ensures active <= i ==> Serving(Delete(cases, i), Trying(FIRST_SUB), active, nsent, drained, delivered, removed)
  {
    hide Accounted, Delete;
    InCases(cases, active, drained, delivered, removed);
    if active <= i {
      DeleteServed(cases, i, active, drained, delivered, removed);
    }
  }

  lemma LiveAdded(log: seq<Entry>, idle: multiset<Chan>, waiting: multiset<Chan>, ch: Chan)
    requires Logged(log, idle, waiting)
    ensures Logged(log + [Subscribed(ch)], Added(idle, ch), waiting)
  {
    LogStep(log, Subscribed(ch));
  }

  lemma IdleRemoved(log: seq<Entry>, idle: multiset<Chan>, waiting: multiset<Chan>, ch: Chan)
    requires Logged(log, idle, waiting) && ch in idle
    ensures Logged(log + [Returned(ch)], Dropped(idle, ch), waiting)
  {
    LogStep(log, Returned(ch));
  }

  lemma WaitingRemoved(log: seq<Entry>, idle: multiset<Chan>, waiting: multiset<Chan>, ch: Chan)
    requires Logged(log, idle, waiting) && ch in waiting
    ensures Logged(log + [Returned(ch)], idle, Dropped(waiting, ch))
  {
    LogStep(log, Returned(ch));
  }

  lemma LiveServed(log: seq<Entry>, idle: multiset<Chan>, waiting: multiset<Chan>, ch: Chan)
    requires Logged(log, idle, waiting) && ch in idle + waiting
    ensures Logged(log + [Delivered(ch)], idle, waiting)
  {
    LogStep(log, Delivered(ch));
  }
}

/** The pool's lists and heartbeats as one value, and what removing, evicting and placing transactions
    make of it. */
module PoolLedger {
  import opened Transactions
  import opened NonceMap
  import opened TxList
  import opened PoolSpec

  datatype Ledger = Ledger(view: View, beats: map<Address, int>)

  /** The heartbeats after a removal: an account whose queue is emptied loses its own, and one that
      gets transactions back into its queue has one. */
  function BeatsWithout(l: Ledger, tx: Tx, now: int): map<Address, int> {
    var a, p := tx.sender, Get(l.view.pending, tx.sender);
    if tx.nonce in p then if AtLeast(p, tx.nonce + 1) == map[] || a in l.beats then l.beats else l.beats[a := now]
    else if a in QueueWithout(l.view.pending, l.view.queue, tx) then l.beats
    else l.beats - {a}
  }

  /** Without one transaction; one that is not there changes nothing. */
  function Removed(nonces: map<Address, nat>, l: Ledger, tx: Tx, now: int): Ledger {
    if !Holds(l.view.pending, tx) && !Holds(l.view.queue, tx) then l
    else
      Ledger(View(PendingWithout(l.view.pending, tx), QueueWithout(l.view.pending, l.view.queue, tx),
                  if tx.nonce in Get(l.view.pending, tx.sender)
                  then LowerNonce(l.view.noncer, nonces, tx.sender, tx.nonce) else l.view.noncer),
             BeatsWithout(l, tx, now))
  }

  /** Without the given transactions, removed in order. */
  function EvictedAll(nonces: map<Address, nat>, l: Ledger, drop: seq<Tx>, now: int): Ledger {
    if drop == [] then l
    else Removed(nonces, EvictedAll(nonces, l, drop[..|drop| - 1], now), drop[|drop| - 1], now)
  }

  /** With a newcomer over the pending transaction of its nonce, or else in its account's queue. */
  function Placed(l: Ledger, tx: Tx, now: int): Ledger {
    var a, p, q := tx.sender, Get(l.view.pending, tx.sender), Get(l.view.queue, tx.sender);
    if tx.nonce in p then Ledger(l.view.(pending := l.view.pending[a := With(p, tx)]), l.beats[a := now])
    else
      Ledger(l.view.(queue := l.view.queue[a := With(q, tx)]), if a in l.beats then l.beats else l.beats[a := now])
  }

  lemma RemovedIs(nonces: map<Address, nat>, l: Ledger, s: set<Tx>, tx: Tx, now: int)
    requires Consistent(l.view.pending, l.view.queue, s)
    ensures Removed(nonces, l, tx, now) ==
            if tx !in s then l
            else Ledger(View(PendingWithout(l.view.pending, tx), QueueWithout(l.view.pending, l.view.queue, tx),
                             if tx.nonce in Get(l.view.pending, tx.sender)
                             then LowerNonce(l.view.noncer, nonces, tx.sender, tx.nonce) else l.view.noncer),
                        BeatsWithout(l, tx, now))
  {
    hide PendingWithout, QueueWithout, LowerNonce, BeatsWithout, Holds, WellListed;
  }

  lemma EvictedNone(nonces: map<Address, nat>, l: Ledger, drop: seq<Tx>, now: int)
    ensures EvictedAll(nonces, l, drop[..0], now) == l && EvictedAll(nonces, l, [], now) == l
  {
  }

  lemma EvictedNext(nonces: map<Address, nat>, l: Ledger, drop: seq<Tx>, i: nat, now: int)
    requires i < |drop|
    ensures EvictedAll(nonces, l, drop[..i + 1], now) ==
            Removed(nonces, EvictedAll(nonces, l, drop[..i], now), drop[i], now)
  {
    assert drop[..i + 1][..i] == drop[..i];
  }

  /** Eviction takes exactly the given transactions out of the lists, and later placing puts exactly
      the newcomer in. */
  lemma {:induction false} EvictionTakes(nonces: map<Address, nat>, l: Ledger, s: set<Tx>, drop: seq<Tx>, now: int)
    requires Consistent(l.view.pending, l.view.queue, s)
    ensures var w := EvictedAll(nonces, l, drop, now).view;
            Consistent(w.pending, w.queue, s - set t | t in drop)
  {
    hide Consistent, Removed;
    if drop == [] {
      assert s - (set t | t in drop) == s;
    } else {
      var k := |drop| - 1;
      EvictionTakes(nonces, l, s, drop[..k], now);
      var rest := s - set t | t in drop[..k];
      var w := EvictedAll(nonces, l, drop[..k], now);
      RemovedIs(nonces, w, rest, drop[k], now);
      if drop[k] in rest {
        RemoveConsistent(w.view.pending, w.view.queue, rest, drop[k]);
      }
      assert drop == drop[..k] + [drop[k]];
      assert s - (set t | t in drop) == rest - {drop[k]};
      assert drop[k] !in rest ==> rest - {drop[k]} == rest;
    }
  }

  // ----- heartbeats through promotion and demotion -----

  ghost predicate SameBeat(b0: map<Address, int>, b: map<Address, int>, a: Address) {
    (a in b <==> a in b0) && (a in b ==> b[a] == b0[a])
  }

  /** A promoted account without a queue has no heartbeat, one that gained pending transactions has one
      now, and all others keep theirs. */
  ghost predicate BeatPromoted(l0: Ledger, l: Ledger, promoted: bool, a: Address, now: int) {
    if !promoted || a !in l0.view.queue then SameBeat(l0.beats, l.beats, a)
    else if a !in l.view.queue then a !in l.beats
    else if Get(l.view.pending, a) != Get(l0.view.pending, a) then a in l.beats && l.beats[a] == now
    else SameBeat(l0.beats, l.beats, a)
  }

  ghost predicate BeatsPromoted(l0: Ledger, l: Ledger, accounts: set<Address>, now: int) {
    forall a :: BeatPromoted(l0, l, a in accounts, a, now)
  }

  /** The heartbeats after an account was promoted, by whether it had a queue, gained pending
      transactions, and has a queue left. */
  function BeatsAfter(beats: map<Address, int>, had: bool, gained: bool, left: bool, a: Address, now: int):
    map<Address, int>
  {
    var b := if had && gained then beats[a := now] else beats;
    if had && !left then b - {a} else b
  }

  lemma BeatsChange(l: Ledger, l': Ledger, a: Address, r: Txs, rest: Txs, now: int)
    requires l'.view.pending == Set(l.view.pending, a, Get(l.view.pending, a) + r)
             && l'.view.queue == Set(l.view.queue, a, rest)
    requires forall n :: n in r ==> n !in Get(l.view.pending, a)
    requires l'.beats == BeatsAfter(l.beats, a in l.view.queue, r != map[], a in l'.view.queue, a, now)
    ensures BeatPromoted(l, l', true, a, now)
    ensures forall b :: b != a ==> Get(l'.view.pending, b) == Get(l.view.pending, b)
                                   && (b in l'.view.queue <==> b in l.view.queue) && SameBeat(l.beats, l'.beats, b)
  {
    var p := Get(l.view.pending, a);
    if r == map[] {
      assert p + r == p;
    } else {
      var n :| n in r;
      assert n in p + r;
    }
    assert Get(l'.view.pending, a) == p + r;
    hide Get;
  }

  lemma BeatsStart(l: Ledger, now: int)
    ensures BeatsPromoted(l, l, {}, now)
  {
  }

  lemma BeatsStep(env: Env, l0: Ledger, l: Ledger, l': Ledger, done: set<Address>, a: Address, now: int)
    requires BeatsPromoted(l0, l, done, now) && AllPromoted(env, l0.view, l.view, done) && a !in done
    requires forall b :: b != a ==> Get(l'.view.pending, b) == Get(l.view.pending, b)
                                    && (b in l'.view.queue <==> b in l.view.queue) && SameBeat(l.beats, l'.beats, b)
    requires BeatPromoted(l, l', true, a, now) && (a in l.view.queue <==> a in l0.view.queue)
    ensures BeatsPromoted(l0, l', done + {a}, now)
  {
    hide Promoted, StillQueued, PromotedNonce, PromotedAt, Get, Virtual;
    assert SameAt(env, l0.view, l.view, a) && BeatPromoted(l0, l, false, a, now);
    forall b ensures BeatPromoted(l0, l', b in done + {a}, b, now) {
      assert BeatPromoted(l0, l, b in done, b, now);
    }
  }

  /** Demotion gives a heartbeat to the accounts that get a queue and had none. */
  ghost predicate BeatsDemoted(l0: Ledger, l: Ledger, now: int) {
    forall a :: if a in l.view.queue && a !in l0.beats then a in l.beats && l.beats[a] == now
                else SameBeat(l0.beats, l.beats, a)
  }

  lemma BeatsUndemoted(l: Ledger, now: int)
    requires l.view.queue.Keys <= l.beats.Keys
    ensures BeatsDemoted(l, l, now)
  {
  }

  lemma BeatsDemotedStep(l0: Ledger, l: Ledger, l': Ledger, a: Address, now: int)
    requires BeatsDemoted(l0, l, now) && l.view.queue.Keys <= l.beats.Keys
    requires l'.beats == if a in l'.view.queue && a !in l.beats then l.beats[a := now] else l.beats
    requires forall b :: b != a ==> (b in l'.view.queue <==> b in l.view.queue)
    requires a in l.view.queue ==> a in l'.view.queue
    ensures BeatsDemoted(l0, l', now)
  {
    forall b
      ensures if b in l'.view.queue && b !in l0.beats then b in l'.beats && l'.beats[b] == now
              else SameBeat(l0.beats, l'.beats, b)
    {
    }
  }
}

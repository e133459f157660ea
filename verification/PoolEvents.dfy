/** What a reorganisation run announces: the events it took over and the transactions it promoted. */
module PoolEvents {
  import opened Transactions
  import opened NonceMap
  import opened PoolSpec
  import opened TxList
  import opened ReorgScheduler
  import opened TxPool

  /** A transaction is announced if it was the last one promoted at its slot, or if it was an event
      that is not stale after a reset and no promotion took its slot. */
  ghost predicate Announced(events: Lists, reset: bool, noncer: map<Address, nat>, nonces: map<Address, nat>,
                            promoted: seq<Tx>, tx: Tx)
  {
    || (exists i: nat :: Latest(promoted, 0, |promoted|, i) && promoted[i] == tx)
    || (Holds(events, tx) && (reset ==> Virtual(noncer, nonces, tx.sender) <= tx.nonce)
        && forall i :: 0 <= i < |promoted| ==> !SameSlot(tx, promoted[i]))
  }

  /** Per account the announcement ascends by nonce; in particular nothing is announced twice. */
  ghost predicate Ascends(txs: seq<Tx>) {
    forall i, j :: 0 <= i < j < |txs| && txs[i].sender == txs[j].sender ==> txs[i].nonce < txs[j].nonce
  }

  method Flattened(m: Txs) returns (txs: seq<Tx>)
    requires Keyed(m)
    ensures Sorts(txs, m)
  {
    hide MinKey, FlatState;
    txs := [];
    var rest := m;
    FlatEnds(m);
    while rest != map[]
      invariant FlatState(m, rest, txs)
      decreases rest.Keys
    {
      var k := MinKey(rest);
      FlatNext(m, rest, txs, k);
      assert k !in (rest - {k}).Keys;
      txs, rest := txs + [rest[k]], rest - {k};
    }
    FlatDone(m, txs);
  }

  /** txs sorts what is no longer in rest, and rest lies above it. */
  ghost predicate FlatState(m: Txs, rest: Txs, txs: seq<Tx>) {
    && Keyed(m) && (forall n :: n in rest ==> n in m && rest[n] == m[n]) && Sorts(txs, m - rest.Keys)
    && forall i, n :: 0 <= i < |txs| && n in rest ==> txs[i].nonce < n
  }

  lemma FlatEnds(m: Txs)
    requires Keyed(m)
    ensures FlatState(m, m, [])
  {
    assert m - m.Keys == map[];
  }

  lemma FlatNext(m: Txs, rest: Txs, txs: seq<Tx>, k: nat)
    requires FlatState(m, rest, txs) && IsMin(rest, k)
    ensures FlatState(m, rest - {k}, txs + [rest[k]])
  {
    hide Sorts;
    SortsSnoc(txs, m - rest.Keys, rest[k]);
    WithoutOne(m, rest, k);
    forall i, n | 0 <= i < |txs + [rest[k]]| && n in rest - {k} ensures (txs + [rest[k]])[i].nonce < n {
      assert k < n;
    }
  }

  lemma WithoutOne(m: Txs, rest: Txs, k: nat)
    requires k in rest && k in m && rest[k] == m[k]
    ensures m - (rest - {k}).Keys == (m - rest.Keys)[k := rest[k]]
  {
    var a, b := m - (rest - {k}).Keys, (m - rest.Keys)[k := rest[k]];
    assert (rest - {k}).Keys == rest.Keys - {k};
    assert a.Keys == b.Keys;
  }

  lemma FlatDone(m: Txs, txs: seq<Tx>)
    requires FlatState(m, map[], txs)
    ensures Sorts(txs, m)
  {
    var none: Txs := map[];
    assert m - none.Keys == m;
  }

  /** After a reset, forgets the events below the accounts' pending nonces. */
  method ForwardEvents(events: Lists, noncer: map<Address, nat>, nonces: map<Address, nat>) returns (live: Lists)
    requires WellListed(events)
    ensures WellListed(live)
    ensures forall tx :: Holds(live, tx) <==> Holds(events, tx) && Virtual(noncer, nonces, tx.sender) <= tx.nonce
  {
    hide Virtual, Set, WellListed, OwnedBy;
    live := events;
    var todo := events.Keys;
    while todo != {}
      invariant todo <= events.Keys && WellListed(live)
      invariant forall a :: Get(live, a) == if a in todo then Get(events, a)
                                            else AtLeast(Get(events, a), Virtual(noncer, nonces, a))
      decreases todo
    {
      var a :| a in todo;
      ListsOwned(events, a);
      ForwardOwned(Get(events, a), a, Virtual(noncer, nonces, a));
      SetWellListed(live, a, AtLeast(Get(live, a), Virtual(noncer, nonces, a)));
      live := Set(live, a, AtLeast(Get(live, a), Virtual(noncer, nonces, a)));
      todo := todo - {a};
    }
  }

  lemma ForwardOwned(l: Txs, a: Address, n: nat)
    requires OwnedBy(l, a)
    ensures OwnedBy(AtLeast(l, n), a)
  {
  }

  /** The end of a run: stale events go after a reset, the promoted transactions join, and each
      account's transactions are announced in nonce order. */
  method Announce(events: Lists, reset: bool, noncer: map<Address, nat>, nonces: map<Address, nat>, promoted: seq<Tx>)
    returns (txs: seq<Tx>)
    requires WellListed(events)
    ensures forall tx :: tx in txs <==> Announced(events, reset, noncer, nonces, promoted, tx)
    ensures Ascends(txs)
  {
    hide Virtual, WellListed, Sorts, Holds, Collected;
    var live := events;
    if reset {
      live := ForwardEvents(events, noncer, nonces);
    }
    ghost var before := live;
    for i := 0 to |promoted|
      invariant Joined(before, promoted, i, live)
    {
      JoinNext(before, promoted, i, live);
      live := PutEvent(live, promoted[i]);
    }
    forall tx ensures Holds(live, tx) <==> Announced(events, reset, noncer, nonces, promoted, tx) {
    }
    txs := FlattenAll(live);
  }

  /** What a pool run announces: every transaction it promoted, and each event that was not stale
      after the reset and whose slot it did not fill. */
  lemma AnnouncedRun(events: Lists, reset: bool, env: Env, v0: View, accounts: set<Address>, promoted: seq<Tx>, tx: Tx)
    requires WellListed(v0.queue)
    requires forall t :: t in promoted <==> t.sender in accounts && NewlyPromoted(env, v0, t)
    ensures var pn := Virtual(v0.noncer, env.nonces, tx.sender);
            Announced(events, reset, v0.noncer, env.nonces, promoted, tx) <==>
            || (tx.sender in accounts && NewlyPromoted(env, v0, tx))
            || (Holds(events, tx) && (reset ==> pn <= tx.nonce)
                && !(tx.sender in accounts
                     && tx.nonce in Promoted(Get(v0.queue, tx.sender), pn, LimitsIn(env, tx.sender))))
  {
    hide WellListed, Promoted, Get, LimitsIn, Virtual, Holds;
    var a := tx.sender;
    var q, pn, lim := Get(v0.queue, a), Virtual(v0.noncer, env.nonces, a), LimitsIn(env, a);
    var list := Promoted(q, pn, lim);
    ListsOwned(v0.queue, a);
    PromotionPartition(q, pn, lim);
    forall i, j | 0 <= i < |promoted| && 0 <= j < |promoted| && SameSlot(promoted[i], promoted[j])
      ensures promoted[i] == promoted[j]
    {
      assert promoted[i] in promoted && promoted[j] in promoted;
    }
    if tx in promoted {
      LastEntry(promoted, tx);
    }
    if a in accounts && tx.nonce in list {
      var t := list[tx.nonce];
      assert t == q[tx.nonce] && t.sender == a && t.nonce == tx.nonce;
      assert t in promoted;
      var i :| 0 <= i < |promoted| && promoted[i] == t;
      assert SameSlot(tx, promoted[i]);
    }
    forall i | 0 <= i < |promoted| && SameSlot(tx, promoted[i]) ensures a in accounts && tx.nonce in list {
      assert promoted[i] in promoted;
    }
  }

  /** The last of the equal entries of a list without other entries at the same slot. */
  lemma {:induction false} LastEntry(promoted: seq<Tx>, tx: Tx)
    requires tx in promoted
    requires forall i, j :: 0 <= i < |promoted| && 0 <= j < |promoted| && SameSlot(promoted[i], promoted[j]) ==>
                              promoted[i] == promoted[j]
    ensures exists i: nat :: Latest(promoted, 0, |promoted|, i) && promoted[i] == tx
  {
    var n := |promoted| - 1;
    if promoted[n] == tx {
      assert Latest(promoted, 0, |promoted|, n);
    } else {
      LastEntry(promoted[..n], tx);
      var i: nat :| Latest(promoted[..n], 0, n, i) && promoted[..n][i] == tx;
      assert Latest(promoted, 0, |promoted|, i);
    }
  }

  /** live is before with the first n promoted transactions put in. */
  ghost predicate Joined(before: Lists, promoted: seq<Tx>, n: nat, live: Lists) {
    && WellListed(live) && n <= |promoted|
    && forall tx :: Holds(live, tx) <==>
                    || (exists i: nat :: Latest(promoted, 0, n, i) && promoted[i] == tx)
                    || (Holds(before, tx) && forall i :: 0 <= i < n ==> !SameSlot(tx, promoted[i]))
  }

  lemma JoinNext(before: Lists, promoted: seq<Tx>, n: nat, live: Lists)
    requires Joined(before, promoted, n, live) && n < |promoted|
    ensures Joined(before, promoted, n + 1, PutEvent(live, promoted[n]))
  {
    var u := promoted[n];
    PutHolds(live, u);
    hide WellListed, Holds, PutEvent;
    forall tx
      ensures (exists i: nat :: Latest(promoted, 0, n + 1, i) && promoted[i] == tx) <==>
              tx == u || ((exists i: nat :: Latest(promoted, 0, n, i) && promoted[i] == tx) && !SameSlot(tx, u))
    {
      LatestNext(promoted, n, tx);
    }
  }

  lemma LatestNext(promoted: seq<Tx>, n: nat, tx: Tx)
    requires n < |promoted|
    ensures (exists i: nat :: Latest(promoted, 0, n + 1, i) && promoted[i] == tx) <==>
            tx == promoted[n] || ((exists i: nat :: Latest(promoted, 0, n, i) && promoted[i] == tx)
                                  && !SameSlot(tx, promoted[n]))
  {
    assert Latest(promoted, 0, n + 1, n);
    if i: nat :| Latest(promoted, 0, n + 1, i) && promoted[i] == tx && i < n {
      assert Latest(promoted, 0, n, i);
    }
    if i: nat :| Latest(promoted, 0, n, i) && promoted[i] == tx && !SameSlot(tx, promoted[n]) {
      assert Latest(promoted, 0, n + 1, i);
    }
  }

  lemma PutHolds(events: Lists, u: Tx)
    requires WellListed(events)
    ensures WellListed(PutEvent(events, u))
    ensures forall tx :: Holds(PutEvent(events, u), tx) <==> tx == u || (Holds(events, tx) && !SameSlot(tx, u))
  {
    assert u.nonce in With(Get(events, u.sender), u);
  }

  method FlattenAll(lists: Lists) returns (txs: seq<Tx>)
    requires WellListed(lists)
    ensures forall tx :: tx in txs <==> Holds(lists, tx)
    ensures Ascends(txs)
  {
    hide Sorts;
    txs := [];
    var todo := lists.Keys;
    while todo != {}
      invariant todo <= lists.Keys && Ascends(txs)
      invariant forall tx :: tx in txs <==> Holds(lists, tx) && tx.sender !in todo
      decreases todo
    {
      var a :| a in todo;
      var part := Flattened(lists[a]);
      SortedPart(part, lists[a], a);
      assert Ascends(txs + part);
      txs, todo := txs + part, todo - {a};
    }
  }

  lemma SortedPart(part: seq<Tx>, l: Txs, a: Address)
    requires Sorts(part, l) && OwnedBy(l, a)
    ensures Ascends(part) && forall tx :: tx in part <==> tx.sender == a && InList(l, tx)
  {
    SortsAll(part, l);
  }
}

/** What a reorganisation run does to an account's nonce interval when the new head need not
    descend from the old one: the state nonce may fall below the interval, and reinjection may
    evict part of it. */
module ReorgGaps {
  import opened Transactions
  import opened NonceMap
  import opened TxList
  import opened PoolSpec

  /** Promotion from the virtual nonce and then demotion leave the account settled: pending is an
      interval from the state nonce, the queue is above it, and if nothing is pending the virtual
      nonce is the state's. */
  ghost predicate Settles(p: Txs, q: Txs, start: nat, lim: Limits) {
    var p1, q1 := p + Promoted(q, start, lim), StillQueued(q, start, lim);
    exists top: nat ::
      && AccountInterval(DemoteKept(p1, lim), q1 + DemoteBack(p1, lim), lim.sn, top)
      && (top == lim.sn ==> PromotedNonce(q, start, lim) == lim.sn)
  }

  /** Nothing lies between the state nonce and the pending interval; or nothing is promoted into the
      gap, the first pending transaction is unpayable, or the payable queue closes the gap. */
  ghost predicate GapCloses(p: Txs, q: Txs, lim: Limits) {
    p != map[] && lim.sn < MinKey(p) ==>
      || lim.sn !in Fresh(q, lim)
      || !Affordable(p[MinKey(p)], lim.balance, lim.maxGas)
      || forall k: nat :: lim.sn <= k < MinKey(p) ==> k in Fresh(q, lim)
  }

  /** The exact condition, for every interval, queue and virtual nonce up to the state nonce. */
  lemma SettlesExactly(p: Txs, q: Txs, lo: nat, hi: nat, start: nat, lim: Limits)
    requires IsInterval(p, lo, hi) && p.Keys !! q.Keys && start <= lim.sn
    ensures Settles(p, q, start, lim) <==>
            if start == lim.sn then GapCloses(p, q, lim)
            else lim.sn in p && Affordable(p[lim.sn], lim.balance, lim.maxGas)
  {
    hide Settles, Fresh;
    if lo < hi {
      assert lo in p && MinKey(p) == lo;
    } else {
      assert p == map[];
    }
    if lo < hi && lim.sn < lo {
      if start == lim.sn {
        ReorgGap(p, q, lo, hi, lim);
      } else {
        NeverSettles(p, q, lo, hi, start, lim);
      }
    } else if lo < hi {
      ReorgLag(p, q, lo, hi, start, lim);
    } else {
      ReorgLag(p, q, 0, 0, start, lim);
    }
  }

  /** When the state nonce did not fall below the interval, the account ends settled if and only if
      the virtual nonce is the state nonce or the transaction at the state nonce is pending and
      payable: otherwise nothing is pending and the virtual nonce stays too low. */
  lemma ReorgLag(p: Txs, q: Txs, lo: nat, hi: nat, start: nat, lim: Limits)
    requires IsInterval(p, lo, hi) && lo <= hi && lo <= lim.sn && start <= lim.sn && p.Keys !! q.Keys
    ensures Settles(p, q, start, lim) <==>
            start == lim.sn || (lim.sn in p && Affordable(p[lim.sn], lim.balance, lim.maxGas))
  {
    hide Settles, Affordable;
    if start == lim.sn {
      InStep(p, q, lo, hi, lim);
    } else {
      Behind(p, q, lo, hi, start, lim);
    }
  }

  lemma InStep(p: Txs, q: Txs, lo: nat, hi: nat, lim: Limits)
    requires IsInterval(p, lo, hi) && lo <= hi && lo <= lim.sn && p.Keys !! q.Keys
    ensures Settles(p, q, lim.sn, lim)
  {
    var top := ResetInterval(p, q, lo, hi, lim);
    hide Promoted, StillQueued, PromotedNonce, DemoteKept, DemoteBack;
    var p1, q1 := p + Promoted(q, lim.sn, lim), StillQueued(q, lim.sn, lim);
    assert AccountInterval(DemoteKept(p1, lim), q1 + DemoteBack(p1, lim), lim.sn, top);
  }

  lemma Behind(p: Txs, q: Txs, lo: nat, hi: nat, start: nat, lim: Limits)
    requires IsInterval(p, lo, hi) && lo <= hi && lo <= lim.sn && start < lim.sn && p.Keys !! q.Keys
    ensures Settles(p, q, start, lim) <==> lim.sn in p && Affordable(p[lim.sn], lim.balance, lim.maxGas)
  {
    hide Promoted, StillQueued, PromotedNonce, DemoteKept, DemoteBack, Affordable;
    NothingReady(p, q, start, lim);
    var sn := lim.sn;
    var x := if sn < hi then hi else sn;
    assert IsInterval(AtLeast(p, sn), sn, x);
    var top := DemoteInterval(p, lim, x);
    var q1 := StillQueued(q, start, lim);
    if top > sn {
      assert AccountInterval(DemoteKept(p, lim), q1 + DemoteBack(p, lim), sn, top);
    } else {
      assert sn !in DemoteKept(p, lim);
    }
  }

  /** A virtual nonce below the state nonce promotes nothing. */
  lemma NothingReady(p: Txs, q: Txs, start: nat, lim: Limits)
    requires start < lim.sn
    ensures p + Promoted(q, start, lim) == p && PromotedNonce(q, start, lim) == start
    ensures forall n :: n in StillQueued(q, start, lim) ==> n in q && lim.sn <= n
  {
    assert forall n :: n in Fresh(q, lim) ==> lim.sn <= n;
    PromotionMeans(q, start, lim);
    hide Promoted, StillQueued, PromotedNonce;
    assert Promoted(q, start, lim) == map[];
  }

  /** Below the interval and with a lower virtual nonce, demotion clears the account. */
  lemma NeverSettles(p: Txs, q: Txs, lo: nat, hi: nat, start: nat, lim: Limits)
    requires IsInterval(p, lo, hi) && start < lim.sn < lo
    ensures !Settles(p, q, start, lim)
  {
    NothingReady(p, q, start, lim);
    hide Promoted, StillQueued, PromotedNonce;
    assert lim.sn !in p;
  }

  /** When the state nonce falls below an account's pending interval [lo, hi), as after a real
      reorganisation, promotion and demotion leave the account settled (pending an interval from the
      state nonce, the queue above it) if and only if nothing is promoted, the first old pending
      transaction is no longer payable, or the payable queue closes the gap up to lo. */
  lemma ReorgGap(p: Txs, q: Txs, lo: nat, hi: nat, lim: Limits)
    requires IsInterval(p, lo, hi) && lim.sn < lo < hi && p.Keys !! q.Keys
    ensures Settles(p, q, lim.sn, lim) <==>
            || lim.sn !in Fresh(q, lim)
            || !Affordable(p[lo], lim.balance, lim.maxGas)
            || forall k: nat :: lim.sn <= k < lo ==> k in Fresh(q, lim)
  {
    var sn, e := lim.sn, PromotedNonce(q, lim.sn, lim);
    var r, rest := Promoted(q, sn, lim), StillQueued(q, sn, lim);
    PromotionPartition(q, sn, lim);
    assert forall n :: n in Fresh(q, lim) ==> sn <= n && n in q;
    PromotionMeans(q, sn, lim);
    PromotedRunEnds(q, lim);
    assert forall n :: n in r ==> Affordable(r[n], lim.balance, lim.maxGas) by { hide ReadyEnd, MinKey; }
    assert e <= lo by {
      assert lo in p && (e > lo ==> lo in r);
    }
    assert forall n :: n in rest && e == lo ==> hi <= n by {
      assert forall n :: n in rest ==> n in q && n !in p;
    }
    hide Promoted, StillQueued, PromotedNonce, DemoteKept, DemoteBack;
    SettledAcrossGap(p, r, rest, lo, hi, e, lim);
    assert e == lo <==> forall k: nat :: sn <= k < lo ==> k in Fresh(q, lim);
  }

  /** The promoted run ends at the first nonce that is not both queued and payable. */
  lemma PromotedRunEnds(q: Txs, lim: Limits)
    ensures forall k :: lim.sn <= k < PromotedNonce(q, lim.sn, lim) ==> k in Fresh(q, lim)
    ensures PromotedNonce(q, lim.sn, lim) !in Fresh(q, lim)
  {
    ReadyMeans(Fresh(q, lim), lim.sn);
    PromotionMeans(q, lim.sn, lim);
    hide ReadyEnd;
  }

  lemma SettledAcrossGap(p: Txs, r: Txs, rest: Txs, lo: nat, hi: nat, e: nat, lim: Limits)
    requires IsInterval(p, lo, hi) && lo < hi && IsInterval(r, lim.sn, e) && lim.sn <= e <= lo && lim.sn < lo
    requires forall n :: n in r ==> Affordable(r[n], lim.balance, lim.maxGas)
    requires forall n :: n in rest ==> e <= n && (e == lo ==> hi <= n)
    ensures (exists top: nat :: AccountInterval(DemoteKept(p + r, lim), rest + DemoteBack(p + r, lim), lim.sn, top)
                                && (top == lim.sn ==> e == lim.sn)) <==>
            e == lim.sn || !Affordable(p[lo], lim.balance, lim.maxGas) || e == lo
  {
    var all, sn := p + r, lim.sn;
    var top := KeptAcrossGap(p, r, lo, hi, e, lim);
    var kept, back := DemoteKept(all, lim), DemoteBack(all, lim);
    hide DemoteKept, DemoteBack;
    if e == sn {
      assert AccountInterval(kept, rest + back, sn, sn);
    } else if e == lo || top == lo {
      assert AccountInterval(kept, rest + back, sn, if e == lo then top else e);
    } else {
      assert e - 1 in kept && lo in kept && e !in kept;
    }
  }

  /** Demotion keeps the promoted run and the old pending ones up to the first unpayable. */
  lemma KeptAcrossGap(p: Txs, r: Txs, lo: nat, hi: nat, e: nat, lim: Limits) returns (top: nat)
    requires IsInterval(p, lo, hi) && lo < hi && IsInterval(r, lim.sn, e) && lim.sn <= e <= lo && lim.sn < lo
    requires forall n :: n in r ==> Affordable(r[n], lim.balance, lim.maxGas)
    ensures lo <= top <= hi && (top == lo <==> !Affordable(p[lo], lim.balance, lim.maxGas))
    ensures e == lim.sn ==> DemoteKept(p + r, lim) == map[] && forall n :: n in DemoteBack(p + r, lim) ==> lo <= n
    ensures e > lim.sn ==> forall n :: n in DemoteKept(p + r, lim) <==> lim.sn <= n < e || lo <= n < top
    ensures e > lim.sn ==> forall n :: n in DemoteBack(p + r, lim) ==> top <= n
  {
    var all, sn := p + r, lim.sn;
    assert AtLeast(all, sn) == all;
    var bad := Unpayable(all, lim.balance, lim.maxGas);
    assert forall n :: n in bad ==> lo <= n < hi;
    top := if bad == map[] then hi else MinKey(bad);
    hide MinKey;
    assert !Affordable(p[lo], lim.balance, lim.maxGas) ==> lo in bad;
    if e == sn {
      assert sn !in all;
    } else {
      assert sn in r && sn < top;
    }
  }

  /** The gap is real: nonces 5 and 6 pending, state back at 3, only 3 reinjected. */
  lemma ReorgGapExample(a: Address)
    ensures var t := (n: Nonce) => Tx(n, a, n, 1, 1, 1, 1);
            var p: Txs := map[5 := t(5), 6 := t(6)];
            var q: Txs := map[3 := t(3)];
            var lim := Limits(3, 10, 10, true, 1);
            DemoteKept(p + Promoted(q, 3, lim), lim).Keys == {3, 5, 6}
  {
    var t := (n: Nonce) => Tx(n, a, n, 1, 1, 1, 1);
    var p: Txs := map[5 := t(5), 6 := t(6)];
    var q: Txs := map[3 := t(3)];
    var lim := Limits(3, 10, 10, true, 1);
    assert Fresh(q, lim) == q;
    PromotionMeans(q, 3, lim);
    hide MinKey, ReadyEnd, FilterInvalid;
    assert Promoted(q, 3, lim) == q;
    assert AtLeast(p + q, 3) == p + q;
    assert Unpayable(p + q, 10, 10) == map[];
  }

  // ----- how reinjection moves the pending part and the virtual nonce -----

  /** The pending transaction of nonce c was evicted: the later ones left with it, and the virtual
      nonce is at most c. */
  ghost predicate CutBelow(p: Txs, v: nat, p': Txs, v': nat, c: nat) {
    && (forall n :: n in p' <==> n in p && n < c)
    && v' == if v <= c then v else c
  }

  /** The pending nonces and the virtual nonce are the same, or were cut below a pending nonce. */
  ghost predicate Cut(p: Txs, v: nat, p': Txs, v': nat) {
    (p'.Keys == p.Keys && v' == v) || exists c :: c in p && CutBelow(p, v, p', v', c)
  }

  ghost predicate AllCut(nonces: map<Address, nat>, v0: View, v: View) {
    forall a :: Cut(Get(v0.pending, a), Virtual(v0.noncer, nonces, a), Get(v.pending, a), Virtual(v.noncer, nonces, a))
  }

  lemma CutTwice(p: Txs, v: nat, p1: Txs, v1: nat, p2: Txs, v2: nat)
    requires Cut(p, v, p1, v1) && Cut(p1, v1, p2, v2)
    ensures Cut(p, v, p2, v2)
  {
    if p2.Keys == p1.Keys && v2 == v1 {
      if !(p1.Keys == p.Keys && v1 == v) {
        var c :| c in p && CutBelow(p, v, p1, v1, c);
        assert CutBelow(p, v, p2, v2, c);
      }
    } else {
      var c :| c in p1 && CutBelow(p1, v1, p2, v2, c);
      assert c in p1.Keys;
      assert CutBelow(p, v, p2, v2, c);
    }
  }

  lemma AllCutTwice(nonces: map<Address, nat>, v0: View, v1: View, v2: View)
    requires AllCut(nonces, v0, v1) && AllCut(nonces, v1, v2)
    ensures AllCut(nonces, v0, v2)
  {
    hide Cut, Get, Virtual;
    forall a ensures Cut(Get(v0.pending, a), Virtual(v0.noncer, nonces, a), Get(v2.pending, a),
                         Virtual(v2.noncer, nonces, a)) {
      CutTwice(Get(v0.pending, a), Virtual(v0.noncer, nonces, a), Get(v1.pending, a), Virtual(v1.noncer, nonces, a),
               Get(v2.pending, a), Virtual(v2.noncer, nonces, a));
    }
  }

  /** Removing a transaction cuts its account. */
  lemma RemovalCuts(nonces: map<Address, nat>, pending: Lists, queue: Lists, noncer: map<Address, nat>, tx: Tx)
    ensures var noncer' := if tx.nonce in Get(pending, tx.sender) then LowerNonce(noncer, nonces, tx.sender, tx.nonce)
                           else noncer;
            AllCut(nonces, View(pending, queue, noncer),
                   View(PendingWithout(pending, tx), QueueWithout(pending, queue, tx), noncer'))
  {
    var p := Get(pending, tx.sender);
    var noncer' := if tx.nonce in p then LowerNonce(noncer, nonces, tx.sender, tx.nonce) else noncer;
    var pending' := PendingWithout(pending, tx);
    hide LowerNonce, QueueWithout;
    forall a ensures Cut(Get(pending, a), Virtual(noncer, nonces, a), Get(pending', a), Virtual(noncer', nonces, a)) {
      if a == tx.sender && tx.nonce in p {
        assert CutBelow(p, Virtual(noncer, nonces, a), Get(pending', a), Virtual(noncer', nonces, a), tx.nonce);
      }
    }
  }

  /** Cutting an interval leaves an interval; a virtual nonce that started at the state nonce is
      still it, or everything pending is below the state nonce. */
  lemma CutInterval(p: Txs, lo: nat, hi: nat, sn: nat, p': Txs, v: nat) returns (top: nat)
    requires IsInterval(p, lo, hi) && Cut(p, sn, p', v)
    ensures IsInterval(p', lo, top) && v <= sn && (v < sn ==> sn !in p')
  {
    if p'.Keys == p.Keys && v == sn {
      top := hi;
      assert forall n :: n in p' <==> n in p.Keys;
    } else {
      top :| top in p && CutBelow(p, sn, p', v, top);
    }
  }

  // ----- exactly which accounts a head change settles -----

  /** Reinjection evicted nothing of the account below its state nonce, and a gap below its pending
      interval closes. */
  ghost predicate Closes(env: Env, v: View, a: Address) {
    && Virtual(v.noncer, env.nonces, a) == NonceOf(env.nonces, a)
    && GapCloses(Get(v.pending, a), Get(v.queue, a), LimitsIn(env, a))
  }

  /** From intervals under the old head, through any reset with reinjection to any new head,
      promotion of all queued and demotion of all pending accounts settle exactly these. */
  lemma SettledExactly(nonces: map<Address, nat>, old0: View, env: Env, v0: View, v1: View, v2: View)
    requires Intervals(old0.pending, old0.queue, old0.noncer, nonces)
    requires AllCut(env.nonces, old0.(noncer := map[]), v0)
    requires forall a :: Get(v0.pending, a).Keys !! Get(v0.queue, a).Keys
    requires AllPromoted(env, v0, v1, v0.queue.Keys) && AllDemoted(env, v1, v2, v1.pending.Keys)
    ensures forall a :: SettledAt(env, v2, a) <==> Closes(env, v0, a)
  {
    hide Settles, SettledAt, Closes, AccountInterval, PromotedAt, DemotedAt, SameAt, Get, Cut, Virtual;
    forall a ensures SettledAt(env, v2, a) <==> Closes(env, v0, a) {
      assert if a in v0.queue then PromotedAt(env, v0, v1, a) else SameAt(env, v0, v1, a);
      assert if a in v1.pending then DemotedAt(env, v1, v2, a) else SameAt(env, v1, v2, a);
      PromotedAnyway(env, v0, v1, a);
      DemotedAnyway(env, v1, v2, a);
      SettlesMeans(env, v0, v1, v2, a);
      var lo, hi := NonceOf(nonces, a), Virtual(old0.noncer, nonces, a);
      assert AccountInterval(Get(old0.pending, a), Get(old0.queue, a), lo, hi);
      AccountCloses(env, Get(old0.pending, a), Get(old0.queue, a), lo, hi, old0, v0, a);
    }
  }

  lemma SettlesMeans(env: Env, v0: View, v1: View, v2: View, a: Address)
    requires PromotedAt(env, v0, v1, a) && DemotedAt(env, v1, v2, a)
    ensures SettledAt(env, v2, a) <==>
            Settles(Get(v0.pending, a), Get(v0.queue, a), Virtual(v0.noncer, env.nonces, a), LimitsIn(env, a))
  {
    hide Promoted, StillQueued, PromotedNonce, DemoteKept, DemoteBack, AccountInterval, Get, Virtual;
  }

  lemma AccountCloses(env: Env, p: Txs, q: Txs, lo: nat, hi: nat, old0: View, v0: View, a: Address)
    requires p == Get(old0.pending, a) && AccountInterval(p, q, lo, hi)
    requires Cut(p, Virtual(map[], env.nonces, a), Get(v0.pending, a), Virtual(v0.noncer, env.nonces, a))
    requires Get(v0.pending, a).Keys !! Get(v0.queue, a).Keys
    ensures Settles(Get(v0.pending, a), Get(v0.queue, a), Virtual(v0.noncer, env.nonces, a), LimitsIn(env, a)) <==>
            Closes(env, v0, a)
  {
    hide Settles, GapCloses, Cut, Get, Affordable;
    var lim := LimitsIn(env, a);
    var top := CutInterval(p, lo, hi, lim.sn, Get(v0.pending, a), Virtual(v0.noncer, env.nonces, a));
    SettlesExactly(Get(v0.pending, a), Get(v0.queue, a), lo, top, Virtual(v0.noncer, env.nonces, a), lim);
  }

  /** A head that lowers no state nonce, with nothing to reinject, settles every account. */
  lemma DescendingCloses(nonces: map<Address, nat>, env: Env, v0: View, noncer: map<Address, nat>)
    requires Intervals(v0.pending, v0.queue, noncer, nonces) && v0.noncer == map[]
    requires forall a :: NonceOf(nonces, a) <= NonceOf(env.nonces, a)
    ensures forall a :: Closes(env, v0, a)
  {
    hide Fresh, Affordable;
    forall a ensures Closes(env, v0, a) {
      var p := Get(v0.pending, a);
      assert AccountInterval(p, Get(v0.queue, a), NonceOf(nonces, a), Virtual(noncer, nonces, a));
      if p != map[] {
        assert MinKey(p) in p && NonceOf(nonces, a) in p;
      }
    }
  }

  /** Nonces 5, 6 and 7 pending; the state nonce rises to 7, and reinjection evicts nonce 5. */
  lemma EvictedBelowExample(a: Address)
    ensures var t := (n: Nonce) => Tx(n, a, n, 1, 1, 1, 1);
            var pending: Lists := map[a := map[5 := t(5), 6 := t(6), 7 := t(7)]];
            var lim := Limits(7, 10, 10, true, 1);
            var q, v := Get(QueueWithout(pending, map[], t(5)), a), Virtual(LowerNonce(map[], map[a := 7], a, 5),
                                                                            map[a := 7], a);
            && Get(PendingWithout(pending, t(5)), a) == map[] && v == 5 && q.Keys == {6, 7}
            && !Settles(map[], q, v, lim) && StillQueued(q, v, lim).Keys == {7}
  {
    var t := (n: Nonce) => Tx(n, a, n, 1, 1, 1, 1);
    var p: Txs := map[5 := t(5), 6 := t(6), 7 := t(7)];
    var lim := Limits(7, 10, 10, true, 1);
    assert AtLeast(p, 6) == map[6 := t(6), 7 := t(7)];
    assert Below(p, 5) == map[];
    var q: Txs := map[6 := t(6), 7 := t(7)];
    assert Get(QueueWithout(map[a := p], map[], t(5)), a) == q;
    assert Fresh(q, lim) == map[7 := t(7)];
    hide Settles, Promoted, Fresh, AtLeast, Below;
    OnlySeven(q, lim);
    ReorgLag(map[], q, 0, 0, 5, lim);
  }

  lemma OnlySeven(q: Txs, lim: Limits)
    requires Fresh(q, lim).Keys == {7} && lim.local
    ensures StillQueued(q, 5, lim).Keys == {7}
  {
    hide Fresh, ReadyEnd;
    ReadyMeans(Fresh(q, lim), 5);
  }
}

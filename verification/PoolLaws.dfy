/** What promotion and demotion do to one account, in terms of nonces, gas, cost and balance only. */
module PoolLaws {
  import opened Transactions
  import opened NonceMap
  import opened TxList
  import opened PoolSpec

  /** The list has a transaction of this nonce that the state allows: not below the account's nonce,
      and with gas and cost within reach. */
  ghost predicate Ripe(l: Txs, n: nat, sn: nat, balance: nat, maxGas: nat) {
    n in l && sn <= n && l[n].gas <= maxGas && l[n].cost <= balance
  }

  /** Every nonce from lo to n is ripe and none below lo is. */
  ghost predicate RunsTo(q: Txs, lo: nat, n: nat, sn: nat, balance: nat, maxGas: nat) {
    && (forall k: nat :: lo <= k <= n ==> Ripe(q, k, sn, balance, maxGas))
    && (forall k: nat :: Ripe(q, k, sn, balance, maxGas) ==> lo <= k)
  }

  /** The nonce is in the unbroken run of ripe ones from the lowest, and that is not above start. */
  ghost predicate InRun(q: Txs, n: nat, start: nat, sn: nat, balance: nat, maxGas: nat) {
    exists lo: nat :: lo <= n && lo <= start && RunsTo(q, lo, n, sn, balance, maxGas)
  }

  /** Promotion of one account: pending gains exactly the run, the queue keeps ripe transactions only,
      a local account loses none of them, and a remote one only the highest beyond the cap. */
  ghost predicate PromotionLaw(p: Txs, q: Txs, start: nat, sn: nat, balance: nat, maxGas: nat, local: bool, cap: nat,
                               p': Txs, q': Txs)
  {
    && PendingGains(p, q, start, sn, balance, maxGas, p')
    && (forall n :: n in q' ==> Ripe(q, n, sn, balance, maxGas) && n !in p' && q'[n] == q[n])
    && (if local then forall n: nat :: Ripe(q, n, sn, balance, maxGas) ==> n in p' || n in q'
        else |q'| <= cap && forall n: nat :: Ripe(q, n, sn, balance, maxGas) && n !in p' && n !in q' ==>
                                               |q'| == cap && forall k :: k in q' ==> k < n)
  }

  ghost predicate PendingGains(p: Txs, q: Txs, start: nat, sn: nat, balance: nat, maxGas: nat, p': Txs) {
    && (forall n :: n in p' <==> n in p || InRun(q, n, start, sn, balance, maxGas))
    && (forall n :: n in p' ==> if n in p then p'[n] == p[n] else n in q && p'[n] == q[n])
  }

  /** Demotion of one account: pending keeps exactly the ripe prefix from the state nonce, and the
      other ripe transactions return to the queue. */
  ghost predicate DemotionLaw(p: Txs, q: Txs, sn: nat, balance: nat, maxGas: nat, p': Txs, q': Txs) {
    && (forall n :: n in p' <==>
                    && n in p && sn <= n && sn in p
                    && forall k :: k in p && sn <= k <= n ==> Ripe(p, k, sn, balance, maxGas))
    && (forall n :: n in p' ==> p'[n] == p[n])
    && (forall n :: n in q' <==> n in q || (Ripe(p, n, sn, balance, maxGas) && n !in p'))
    && (forall n :: n in q' ==> if n in q then q'[n] == q[n] else n in p && q'[n] == p[n])
  }

  lemma FreshIsRipe(q: Txs, lim: Limits)
    ensures forall n: nat :: n in Fresh(q, lim) <==> Ripe(q, n, lim.sn, lim.balance, lim.maxGas)
    ensures forall n :: n in Fresh(q, lim) ==> n in q && Fresh(q, lim)[n] == q[n]
  {
  }

  lemma PromotionObeys(p: Txs, q: Txs, pn: nat, lim: Limits)
    requires p.Keys !! q.Keys
    ensures PromotionLaw(p, q, pn, lim.sn, lim.balance, lim.maxGas, lim.local, lim.cap,
                         p + Promoted(q, pn, lim), StillQueued(q, pn, lim))
  {
    FreshIsRipe(q, lim);
    RunTaken(q, pn, lim);
    RestKept(Fresh(q, lim), pn, lim);
    hide Fresh, Ripe, InRun, PromotionLaw, ReadyPart, AfterReady, Lowest;
    LawHolds(p, q, pn, lim, Promoted(q, pn, lim), p + Promoted(q, pn, lim), StillQueued(q, pn, lim));
  }

  lemma LawHolds(p: Txs, q: Txs, pn: nat, lim: Limits, r: Txs, p': Txs, rest: Txs)
    requires p.Keys !! q.Keys && p' == p + r
    requires forall n :: n in r <==> InRun(q, n, pn, lim.sn, lim.balance, lim.maxGas)
    requires forall n :: n in r ==> n in q && r[n] == q[n]
    requires forall n :: n in rest ==> Ripe(q, n, lim.sn, lim.balance, lim.maxGas) && n !in r && n in q
                                       && rest[n] == q[n]
    requires lim.local ==> forall n: nat :: Ripe(q, n, lim.sn, lim.balance, lim.maxGas) ==> n in r || n in rest
    requires !lim.local ==> |rest| <= lim.cap
    requires !lim.local ==> forall n: nat :: Ripe(q, n, lim.sn, lim.balance, lim.maxGas) && n !in r && n !in rest ==>
                                               |rest| == lim.cap && forall k :: k in rest ==> k < n
    ensures PromotionLaw(p, q, pn, lim.sn, lim.balance, lim.maxGas, lim.local, lim.cap, p', rest)
  {
    hide Ripe, InRun;
    Gains(p, q, pn, lim, r, p');
    hide PendingGains;
    Joined(p, q, r, p');
    assert forall n :: n in rest ==> n !in p';
  }

  lemma Joined(p: Txs, q: Txs, r: Txs, p': Txs)
    requires p.Keys !! q.Keys && p' == p + r && forall n :: n in r ==> n in q
    ensures forall n :: n in r ==> n in p'
    ensures forall n :: n in p' && n in q ==> n in r
  {
    forall n | n in p' && n in q ensures n in r {
      assert n in q.Keys && n !in p.Keys;
    }
  }

  lemma Gains(p: Txs, q: Txs, pn: nat, lim: Limits, r: Txs, p': Txs)
    requires p.Keys !! q.Keys && p' == p + r
    requires forall n :: n in r <==> InRun(q, n, pn, lim.sn, lim.balance, lim.maxGas)
    requires forall n :: n in r ==> n in q && r[n] == q[n]
    ensures PendingGains(p, q, pn, lim.sn, lim.balance, lim.maxGas, p')
  {
    hide InRun;
    forall n | n in p ensures n !in q {
      assert n in p.Keys;
    }
  }

  /** Ready takes exactly the run. */
  lemma RunTaken(q: Txs, pn: nat, lim: Limits)
    ensures forall n :: n in Promoted(q, pn, lim) <==> InRun(q, n, pn, lim.sn, lim.balance, lim.maxGas)
    ensures forall n :: n in Promoted(q, pn, lim) ==> n in Fresh(q, lim) && Promoted(q, pn, lim)[n] == q[n]
  {
    var f := Fresh(q, lim);
    FreshIsRipe(q, lim);
    hide Fresh, Ripe;
    forall n: nat ensures n in ReadyPart(f, pn) <==> InRun(q, n, pn, lim.sn, lim.balance, lim.maxGas) {
      if n in ReadyPart(f, pn) {
        assert RunsTo(q, MinKey(f), n, lim.sn, lim.balance, lim.maxGas);
      }
      if InRun(q, n, pn, lim.sn, lim.balance, lim.maxGas) {
        var lo: nat :| lo <= n && lo <= pn && RunsTo(q, lo, n, lim.sn, lim.balance, lim.maxGas);
        assert Ripe(q, lo, lim.sn, lim.balance, lim.maxGas) && lo in f;
        assert MinKey(f) == lo;
        RunReaches(f, lo, n);
      }
    }
  }

  lemma RunReaches(f: Txs, lo: nat, n: nat)
    requires lo <= n && forall k: nat :: lo <= k <= n ==> k in f
    ensures n < RunEnd(f, lo)
  {
    var e := RunEnd(f, lo);
    assert e !in f;
  }

  /** The rest stays, or for a remote account the lowest of it. */
  lemma RestKept(f: Txs, pn: nat, lim: Limits)
    ensures var rest := if lim.local then AfterReady(f, pn) else Lowest(AfterReady(f, pn), lim.cap);
            && (forall n :: n in rest ==> n in f && n !in ReadyPart(f, pn) && rest[n] == f[n])
            && (lim.local ==> forall n :: n in f ==> n in ReadyPart(f, pn) || n in rest)
            && (!lim.local ==> |rest| <= lim.cap)
            && (!lim.local ==> forall n :: n in f && n !in ReadyPart(f, pn) && n !in rest ==>
                                             |rest| == lim.cap && forall k :: k in rest ==> k < n)
  {
    hide ReadyEnd;
    var after := AfterReady(f, pn);
    assert forall n :: n in f ==> n in ReadyPart(f, pn) || n in after;
  }

  lemma DemotionObeys(p: Txs, q: Txs, lim: Limits)
    requires p.Keys !! q.Keys
    ensures DemotionLaw(p, q, lim.sn, lim.balance, lim.maxGas, DemoteKept(p, lim), q + DemoteBack(p, lim))
  {
    PrefixKept(p, lim);
    BackReturned(p, lim);
    DemotionPartition(p, lim);
    hide DemoteKept, DemoteBack, Ripe;
    var back := DemoteBack(p, lim);
    assert forall n :: n in back ==> n !in q;
  }

  lemma PrefixKept(p: Txs, lim: Limits)
    ensures forall n :: n in DemoteKept(p, lim) <==>
                        n in p && lim.sn <= n && lim.sn in p
                        && forall k :: k in p && lim.sn <= k <= n ==> Ripe(p, k, lim.sn, lim.balance, lim.maxGas)
  {
    var live := AtLeast(p, lim.sn);
    var bad := Unpayable(live, lim.balance, lim.maxGas);
    assert forall k :: k in live <==> k in p && lim.sn <= k;
    assert forall k :: k in bad <==> k in live && !Ripe(p, k, lim.sn, lim.balance, lim.maxGas);
    assert bad != map[] ==> MinKey(bad) in bad && forall n :: n in bad ==> MinKey(bad) <= n;
    hide Ripe, MinKey, AtLeast, Unpayable;
  }

  lemma BackReturned(p: Txs, lim: Limits)
    ensures forall n :: n in DemoteBack(p, lim) <==>
                        Ripe(p, n, lim.sn, lim.balance, lim.maxGas) && n !in DemoteKept(p, lim)
  {
    var live := AtLeast(p, lim.sn);
    var bad := Unpayable(live, lim.balance, lim.maxGas);
    assert forall k :: k in Payable(live, lim.balance, lim.maxGas) <==> Ripe(p, k, lim.sn, lim.balance, lim.maxGas);
    assert forall k :: k in live <==> Ripe(p, k, lim.sn, lim.balance, lim.maxGas) || k in bad;
    assert forall k :: k in bad ==> !Ripe(p, k, lim.sn, lim.balance, lim.maxGas);
    assert bad != map[] ==> MinKey(bad) in bad && forall n :: n in bad ==> MinKey(bad) <= n;
    hide Ripe, MinKey, Unpayable, Payable;
  }

  // ----- all accounts -----

  ghost predicate Apart(v: View) {
    forall a :: Get(v.pending, a).Keys !! Get(v.queue, a).Keys
  }

  lemma ConsistentApart(v: View, s: set<Tx>)
    requires Consistent(v.pending, v.queue, s)
    ensures Apart(v)
  {
  }

  /** Every given account is promoted by the law. */
  ghost predicate PromotedByLaw(nonces: map<Address, nat>, balances: map<Address, nat>, maxGas: nat,
                                locals: set<Address>, cap: nat, v0: View, v: View, accounts: set<Address>)
  {
    forall a :: a in accounts ==>
                  PromotionLaw(Get(v0.pending, a), Get(v0.queue, a), Virtual(v0.noncer, nonces, a), NonceOf(nonces, a),
                               NonceOf(balances, a), maxGas, a in locals, cap, Get(v.pending, a), Get(v.queue, a))
  }

  /** Every given account is demoted by the law. */
  ghost predicate DemotedByLaw(nonces: map<Address, nat>, balances: map<Address, nat>, maxGas: nat, v0: View, v: View,
                               accounts: set<Address>)
  {
    forall a :: a in accounts ==>
                  DemotionLaw(Get(v0.pending, a), Get(v0.queue, a), NonceOf(nonces, a), NonceOf(balances, a), maxGas,
                              Get(v.pending, a), Get(v.queue, a))
  }

  lemma AllPromotedObey(env: Env, v0: View, v: View, accounts: set<Address>)
    requires AllPromoted(env, v0, v, accounts) && Apart(v0)
    ensures PromotedByLaw(env.nonces, env.balances, env.maxGas, env.locals, env.cap, v0, v, accounts)
  {
    hide PromotionLaw, Promoted, StillQueued, PromotedNonce, Get, NonceOf, Virtual;
    forall a | a in accounts
      ensures PromotionLaw(Get(v0.pending, a), Get(v0.queue, a), Virtual(v0.noncer, env.nonces, a),
                           NonceOf(env.nonces, a), NonceOf(env.balances, a), env.maxGas, a in env.locals, env.cap,
                           Get(v.pending, a), Get(v.queue, a))
    {
      assert PromotedAt(env, v0, v, a);
      PromotionObeys(Get(v0.pending, a), Get(v0.queue, a), Virtual(v0.noncer, env.nonces, a), LimitsIn(env, a));
    }
  }

  lemma AllDemotedObey(env: Env, v0: View, v: View, accounts: set<Address>)
    requires AllDemoted(env, v0, v, accounts) && Apart(v0)
    ensures DemotedByLaw(env.nonces, env.balances, env.maxGas, v0, v, accounts)
  {
    hide DemotionLaw, DemoteKept, DemoteBack, Get, NonceOf, Virtual;
    forall a | a in accounts
      ensures DemotionLaw(Get(v0.pending, a), Get(v0.queue, a), NonceOf(env.nonces, a), NonceOf(env.balances, a),
                          env.maxGas, Get(v.pending, a), Get(v.queue, a))
    {
      assert DemotedAt(env, v0, v, a);
      DemotionObeys(Get(v0.pending, a), Get(v0.queue, a), LimitsIn(env, a));
    }
  }

  /** No queued transaction of a local account is lost that is at or above the account's nonce and
      within the gas limit and the balance. */
  ghost predicate LocalsLoseNone(nonces: map<Address, nat>, balances: map<Address, nat>, maxGas: nat,
                                 locals: set<Address>, v0: View, v: View, accounts: set<Address>)
  {
    forall a, n :: a in accounts && a in locals && n in Get(v0.queue, a) && NonceOf(nonces, a) <= n
                   && Get(v0.queue, a)[n].gas <= maxGas && Get(v0.queue, a)[n].cost <= NonceOf(balances, a) ==>
                     n in Get(v.pending, a) || n in Get(v.queue, a)
  }

  /** Every transaction of the lists can be executed: its account's nonce is there, and it is not below
      that and within the gas limit and the balance. */
  ghost predicate AllExecutable(nonces: map<Address, nat>, balances: map<Address, nat>, maxGas: nat, m: Lists) {
    && (forall a :: a in m ==> NonceOf(nonces, a) in m[a])
    && (forall a, n :: a in m && n in m[a] ==>
                         NonceOf(nonces, a) <= n && m[a][n].gas <= maxGas && m[a][n].cost <= NonceOf(balances, a))
  }

  /** What the law says of the queues: remotes are within the cap, and no usable transaction of a local
      account is lost. */
  lemma LawMeans(nonces: map<Address, nat>, balances: map<Address, nat>, maxGas: nat, locals: set<Address>, cap: nat,
                 v0: View, v: View, accounts: set<Address>)
    requires PromotedByLaw(nonces, balances, maxGas, locals, cap, v0, v, accounts)
    ensures forall a :: a in accounts && a !in locals ==> |Get(v.queue, a)| <= cap
    ensures LocalsLoseNone(nonces, balances, maxGas, locals, v0, v, accounts)
  {
    hide InRun, Get, NonceOf, Virtual;
    forall a | a in accounts
      ensures PromotionLaw(Get(v0.pending, a), Get(v0.queue, a), Virtual(v0.noncer, nonces, a), NonceOf(nonces, a),
                           NonceOf(balances, a), maxGas, a in locals, cap, Get(v.pending, a), Get(v.queue, a))
    {
    }
    forall a, n | a in accounts && a in locals && n in Get(v0.queue, a) && NonceOf(nonces, a) <= n
                  && Get(v0.queue, a)[n].gas <= maxGas && Get(v0.queue, a)[n].cost <= NonceOf(balances, a)
      ensures n in Get(v.pending, a) || n in Get(v.queue, a)
    {
      assert Ripe(Get(v0.queue, a), n, NonceOf(nonces, a), NonceOf(balances, a), maxGas);
    }
  }

  lemma ExecutableOnly(p: Txs, q: Txs, sn: nat, balance: nat, maxGas: nat, p': Txs, q': Txs)
    requires DemotionLaw(p, q, sn, balance, maxGas, p', q')
    ensures p' != map[] ==> sn in p'
    ensures forall n :: n in p' ==> sn <= n && p'[n].gas <= maxGas && p'[n].cost <= balance
  {
    if p' != map[] {
      var n :| n in p';
      assert forall k :: k in p && sn <= k <= n ==> Ripe(p, k, sn, balance, maxGas);
    }
    forall n | n in p' ensures Ripe(p, n, sn, balance, maxGas) {
    }
  }
}

/** What the transaction pool's indices mean: per-account pending and queued lists, the
    lookup they must add up to, the nonce intervals, and the effect of promotion, demotion
    and fair truncation on one account. */
module PoolSpec {
  import opened Transactions
  import opened NonceMap
  import opened TxList

  type Lists = map<Address, Txs>

  function Get(m: Lists, a: Address): (l: Txs) {
    if a in m then m[a] else map[]
  }

  /** Stores a list; an empty one is deleted. */
  function Set(m: Lists, a: Address, l: Txs): (r: Lists)
    ensures forall b :: Get(r, b) == if b == a then l else Get(m, b)
  {
    if l == map[] then m - {a} else m[a := l]
  }

  /** Every transaction of l is from a and stored under its nonce. */
  predicate OwnedBy(l: Txs, a: Address) {
    forall n :: n in l ==> l[n].nonce == n && l[n].sender == a
  }

  /** No empty list is kept, and every list belongs to its account. */
  ghost predicate WellListed(m: Lists) {
    forall a :: a in m ==> m[a] != map[] && OwnedBy(m[a], a)
  }

  predicate InList(l: Txs, tx: Tx) {
    tx.nonce in l && l[tx.nonce] == tx
  }

  /** The transactions of a list. */
  function Members(l: Txs): (s: set<Tx>) {
    set n | n in l :: l[n]
  }

  lemma MembersInList(l: Txs, a: Address, tx: Tx)
    requires OwnedBy(l, a)
    ensures tx in Members(l) <==> InList(l, tx)
  {
  }

  predicate Holds(m: Lists, tx: Tx) {
    InList(Get(m, tx.sender), tx)
  }

  /** The lookup s is the disjoint union of the pending and the queued transactions, and no
      account has a nonce in both. */
  ghost predicate Consistent(pending: Lists, queue: Lists, s: set<Tx>) {
    && WellListed(pending)
    && WellListed(queue)
    && (forall a :: Get(pending, a).Keys !! Get(queue, a).Keys)
    && (forall tx :: tx in s <==> Holds(pending, tx) || Holds(queue, tx))
  }

  lemma SetWellListed(m: Lists, a: Address, l: Txs)
    requires WellListed(m) && OwnedBy(l, a)
    ensures WellListed(Set(m, a, l))
  {
  }

  /** The one step all pool operations are made of: account a gets new lists, and the lookup
      changes to match. */
  lemma AccountChange(pending: Lists, queue: Lists, s: set<Tx>, a: Address, p: Txs, q: Txs, s': set<Tx>)
    requires Consistent(pending, queue, s)
    requires OwnedBy(p, a) && OwnedBy(q, a) && p.Keys !! q.Keys
    requires forall tx: Tx :: tx.sender == a ==> (tx in s' <==> InList(p, tx) || InList(q, tx))
    requires forall tx: Tx :: tx.sender != a ==> (tx in s' <==> tx in s)
    ensures Consistent(Set(pending, a, p), Set(queue, a, q), s')
  {
    SetWellListed(pending, a, p);
    SetWellListed(queue, a, q);
    hide WellListed;
    forall tx
      ensures tx in s' <==> Holds(Set(pending, a, p), tx) || Holds(Set(queue, a, q), tx)
    {
      assert tx.sender != a ==> Holds(Set(pending, a, p), tx) == Holds(pending, tx);
      assert tx.sender != a ==> Holds(Set(queue, a, q), tx) == Holds(queue, tx);
    }
  }

  lemma ListsOwned(m: Lists, a: Address)
    requires WellListed(m)
    ensures OwnedBy(Get(m, a), a)
  {
  }

  // ----- removal of one transaction -----

  function PendingWithout(pending: Lists, tx: Tx): (r: Lists) {
    var p := Get(pending, tx.sender);
    if tx.nonce in p then Set(pending, tx.sender, Below(p, tx.nonce)) else pending
  }

  function QueueWithout(pending: Lists, queue: Lists, tx: Tx): (r: Lists) {
    var p, q := Get(pending, tx.sender), Get(queue, tx.sender);
    Set(queue, tx.sender, if tx.nonce in p then q + AtLeast(p, tx.nonce + 1) else q - {tx.nonce})
  }

  /** Removing a transaction takes out exactly it: later pending ones move to the queue. */
  lemma RemoveConsistent(pending: Lists, queue: Lists, s: set<Tx>, tx: Tx)
    requires Consistent(pending, queue, s) && tx in s
    ensures Consistent(PendingWithout(pending, tx), QueueWithout(pending, queue, tx), s - {tx})
  {
    var a := tx.sender;
    var p, q := Get(pending, a), Get(queue, a);
    ListsOwned(pending, a);
    ListsOwned(queue, a);
    assert p.Keys !! q.Keys;
    assert Holds(pending, tx) || Holds(queue, tx);
    if tx.nonce in p {
      var q' := q + AtLeast(p, tx.nonce + 1);
      forall t: Tx | t.sender == a
        ensures t in s - {tx} <==> InList(Below(p, tx.nonce), t) || InList(q', t)
      {
        assert t in s <==> Holds(pending, t) || Holds(queue, t);
      }
      AccountChange(pending, queue, s, a, Below(p, tx.nonce), q', s - {tx});
    } else {
      forall t: Tx | t.sender == a
        ensures t in s - {tx} <==> InList(p, t) || InList(q - {tx.nonce}, t)
      {
        assert t in s <==> Holds(pending, t) || Holds(queue, t);
      }
      AccountChange(pending, queue, s, a, p, q - {tx.nonce}, s - {tx});
      SetSelf(pending, a);
    }
  }

  lemma SetSelf(m: Lists, a: Address)
    requires WellListed(m)
    ensures Set(m, a, Get(m, a)) == m
  {
    if a !in m {
      assert m - {a} == m;
    }
  }

  // ----- virtual nonces and intervals -----

  function NonceOf(nonces: map<Address, nat>, a: Address): nat {
    if a in nonces then nonces[a] else 0
  }

  /** The nonce the pool answers for an account: the noncer's, else the chain state's. */
  function Virtual(noncer: map<Address, nat>, nonces: map<Address, nat>, a: Address): nat {
    if a in noncer then noncer[a] else NonceOf(nonces, a)
  }

  /** Pending is exactly [state nonce, pending nonce) and the queue starts no lower. */
  ghost predicate AccountInterval(p: Txs, q: Txs, sn: nat, pn: nat) {
    sn <= pn && IsInterval(p, sn, pn) && forall n :: n in q ==> pn <= n
  }

  ghost predicate Intervals(pending: Lists, queue: Lists, noncer: map<Address, nat>, nonces: map<Address, nat>) {
    forall a :: AccountInterval(Get(pending, a), Get(queue, a), NonceOf(nonces, a), Virtual(noncer, nonces, a))
  }

  lemma RemoveIntervals(pending: Lists, queue: Lists, noncer: map<Address, nat>, nonces: map<Address, nat>,
                        s: set<Tx>, tx: Tx, noncer': map<Address, nat>)
    requires Consistent(pending, queue, s) && tx in s && Intervals(pending, queue, noncer, nonces)
    requires noncer' == if tx.nonce in Get(pending, tx.sender) then LowerNonce(noncer, nonces, tx.sender, tx.nonce)
                        else noncer
    ensures Intervals(PendingWithout(pending, tx), QueueWithout(pending, queue, tx), noncer', nonces)
  {
    hide Consistent;
    forall a
      ensures AccountInterval(Get(PendingWithout(pending, tx), a), Get(QueueWithout(pending, queue, tx), a),
                              NonceOf(nonces, a), Virtual(noncer', nonces, a))
    {
      assert AccountInterval(Get(pending, a), Get(queue, a), NonceOf(nonces, a), Virtual(noncer, nonces, a));
    }
  }

  /** setIfLower. */
  function LowerNonce(noncer: map<Address, nat>, nonces: map<Address, nat>, a: Address, n: nat): (r: map<Address, nat>)
    ensures forall b :: b != a ==> Virtual(r, nonces, b) == Virtual(noncer, nonces, b)
    ensures Virtual(r, nonces, a) == if Virtual(noncer, nonces, a) <= n then Virtual(noncer, nonces, a) else n
  {
    var now := Virtual(noncer, nonces, a);
    noncer[a := if now <= n then now else n]
  }

  // ----- promotion and demotion of one account -----

  /** What an account's limits are: state nonce, balance, block gas, locality, queue cap. */
  datatype Limits = Limits(sn: nat, balance: nat, maxGas: nat, local: bool, cap: nat)

  function Fresh(q: Txs, lim: Limits): (r: Txs) {
    Payable(AtLeast(q, lim.sn), lim.balance, lim.maxGas)
  }

  function Promoted(q: Txs, pn: nat, lim: Limits): (r: Txs) {
    ReadyPart(Fresh(q, lim), pn)
  }

  function StillQueued(q: Txs, pn: nat, lim: Limits): (r: Txs) {
    var rest := AfterReady(Fresh(q, lim), pn);
    if lim.local then rest else Lowest(rest, lim.cap)
  }

  function PromotedNonce(q: Txs, pn: nat, lim: Limits): nat {
    if Promoted(q, pn, lim) == map[] then pn else ReadyEnd(Fresh(q, lim), pn)
  }

  /** What demotion keeps pending: the payable prefix, unless it does not start at the
      state nonce. */
  function DemoteKept(p: Txs, lim: Limits): (r: Txs) {
    var kept := FilterKept(AtLeast(p, lim.sn), true, lim.balance, lim.maxGas);
    if lim.sn in kept then kept else map[]
  }

  /** What demotion returns to the queue. */
  function DemoteBack(p: Txs, lim: Limits): (r: Txs) {
    var live := AtLeast(p, lim.sn);
    var kept := FilterKept(live, true, lim.balance, lim.maxGas);
    FilterInvalid(live, true, lim.balance, lim.maxGas) + (if lim.sn in kept then map[] else kept)
  }

  /** Promotion takes each queued transaction to exactly one place. */
  lemma PromotionPartition(q: Txs, pn: nat, lim: Limits)
    ensures Promoted(q, pn, lim).Keys !! StillQueued(q, pn, lim).Keys
    ensures forall n :: n in Promoted(q, pn, lim) ==> n in q && Promoted(q, pn, lim)[n] == q[n]
    ensures forall n :: n in StillQueued(q, pn, lim) ==> n in q && StillQueued(q, pn, lim)[n] == q[n]
  {
    hide Lowest, ReadyEnd;
  }

  lemma DemotionPartition(p: Txs, lim: Limits)
    ensures DemoteKept(p, lim).Keys !! DemoteBack(p, lim).Keys
    ensures forall n :: n in DemoteKept(p, lim) ==> n in p && DemoteKept(p, lim)[n] == p[n]
    ensures forall n :: n in DemoteBack(p, lim) ==> n in p && DemoteBack(p, lim)[n] == p[n]
  {
    hide MinKey;
    FilterPartition(AtLeast(p, lim.sn), true, lim.balance, lim.maxGas);
  }

  /** Promotion without a head change extends the interval. */
  lemma PromoteInterval(p: Txs, q: Txs, pn: nat, lim: Limits)
    requires AccountInterval(p, q, lim.sn, pn)
    ensures AccountInterval(p + Promoted(q, pn, lim), StillQueued(q, pn, lim), lim.sn, PromotedNonce(q, pn, lim))
  {
    assert forall n :: n in Fresh(q, lim) ==> n in q;
    PromotionMeans(q, pn, lim);
    hide Promoted, StillQueued, PromotedNonce, Fresh;
    assert IsInterval(p + Promoted(q, pn, lim), lim.sn, PromotedNonce(q, pn, lim));
  }

  /** From a queue without payable nonces below start, promotion takes an interval. */
  lemma PromotionMeans(q: Txs, start: nat, lim: Limits)
    requires forall n :: n in Fresh(q, lim) ==> start <= n
    ensures var e := PromotedNonce(q, start, lim);
            && start <= e
            && IsInterval(Promoted(q, start, lim), start, e)
            && (e == start <==> start !in Fresh(q, lim))
            && (forall n :: n in StillQueued(q, start, lim) ==> e <= n && n in q && lim.sn <= n)
  {
    var f := Fresh(q, lim);
    ReadyMeans(f, start);
    hide ReadyEnd, ReadyPart, AfterReady;
    assert start in f ==> start in ReadyPart(f, start);
    assert forall n :: n in StillQueued(q, start, lim) ==> n in AfterReady(f, start) by { hide Lowest; }
  }

  /** What Ready takes from a list whose nonces are all at least `start`. */
  lemma ReadyMeans(f: Txs, start: nat)
    requires forall n :: n in f ==> start <= n
    ensures start !in f ==> ReadyPart(f, start) == map[] && AfterReady(f, start) == f
    ensures start in f ==> var e := ReadyEnd(f, start); e > start && IsInterval(ReadyPart(f, start), start, e)
                                                        && e !in f
    ensures forall n :: n in AfterReady(f, start) ==> n in f && ReadyEnd(f, start) <= n
  {
    if f != map[] {
      var k := MinKey(f);
      assert start in f ==> k == start;
      assert start !in f ==> k > start;
    }
    if start !in f {
      assert ReadyEnd(f, start) == 0;
      assert AfterReady(f, start) == f;
      assert ReadyPart(f, start) == map[];
    }
  }

  /** One account through a head change that does not lower its state nonce: with the noncer
      reset to the state nonce, promotion and then demotion leave an interval again. */
  lemma ResetInterval(p: Txs, q: Txs, lo: nat, hi: nat, lim: Limits) returns (top: nat)
    requires IsInterval(p, lo, hi) && lo <= hi && (forall n :: n in q && lim.sn <= n ==> hi <= n) && lo <= lim.sn
    ensures var p1, q1 := p + Promoted(q, lim.sn, lim), StillQueued(q, lim.sn, lim);
            && lim.sn <= top
            && IsInterval(DemoteKept(p1, lim), lim.sn, top)
            && (forall n :: n in q1 + DemoteBack(p1, lim) ==> top <= n)
            && (top == lim.sn ==> PromotedNonce(q, lim.sn, lim) == lim.sn)
  {
    var x := LiveInterval(p, q, lo, hi, lim);
    hide Promoted, StillQueued, PromotedNonce, DemoteKept, DemoteBack, Unpayable, IsInterval, AtLeast;
    top := DemoteInterval(p + Promoted(q, lim.sn, lim), lim, x);
  }

  /** After promotion the live part of pending is an interval [sn, x) below the queue; what
      was promoted is payable. */
  lemma LiveInterval(p: Txs, q: Txs, lo: nat, hi: nat, lim: Limits) returns (x: nat)
    requires IsInterval(p, lo, hi) && lo <= hi && (forall n :: n in q && lim.sn <= n ==> hi <= n) && lo <= lim.sn
    ensures var live := AtLeast(p + Promoted(q, lim.sn, lim), lim.sn);
            && lim.sn <= x
            && IsInterval(live, lim.sn, x)
            && (forall n :: n in StillQueued(q, lim.sn, lim) ==> x <= n)
            && (PromotedNonce(q, lim.sn, lim) != lim.sn ==>
                  x == PromotedNonce(q, lim.sn, lim) && Unpayable(live, lim.balance, lim.maxGas) == map[])
  {
    var sn := lim.sn;
    var f := Fresh(q, lim);
    assert forall n :: n in f ==> n in q && hi <= n && sn <= n;
    PromotionMeans(q, sn, lim);
    var e, r := PromotedNonce(q, sn, lim), Promoted(q, sn, lim);
    assert forall n :: n in r ==> n in f && Affordable(r[n], lim.balance, lim.maxGas);
    hide Promoted, StillQueued, PromotedNonce, Fresh;
    x := if sn in f then e else if sn < hi then hi else sn;
    PromotedLive(p, r, lo, hi, sn, e, lim);
  }

  lemma PromotedLive(p: Txs, r: Txs, lo: nat, hi: nat, sn: nat, e: nat, lim: Limits)
    requires IsInterval(p, lo, hi) && IsInterval(r, sn, e) && lo <= sn <= e && lo <= hi
    requires e > sn ==> hi <= sn
    requires forall n :: n in r ==> Affordable(r[n], lim.balance, lim.maxGas)
    ensures IsInterval(AtLeast(p + r, sn), sn, if e > sn then e else if sn < hi then hi else sn)
    ensures e > sn ==> Unpayable(AtLeast(p + r, sn), lim.balance, lim.maxGas) == map[]
  {
  }

  lemma DemoteInterval(p: Txs, lim: Limits, x: nat) returns (top: nat)
    requires IsInterval(AtLeast(p, lim.sn), lim.sn, x) && lim.sn <= x
    ensures lim.sn <= top <= x && IsInterval(DemoteKept(p, lim), lim.sn, top)
    ensures forall n :: n in DemoteBack(p, lim) ==> top <= n
    ensures Unpayable(AtLeast(p, lim.sn), lim.balance, lim.maxGas) == map[] ==> top == x
    ensures top > lim.sn <==> lim.sn in p && Affordable(p[lim.sn], lim.balance, lim.maxGas)
  {
    var live := AtLeast(p, lim.sn);
    var bad := Unpayable(live, lim.balance, lim.maxGas);
    top := if bad == map[] then x else MinKey(bad);
    hide MinKey;
    assert bad != map[] ==> MinKey(bad) in bad && MinKey(bad) in live;
    assert lim.sn in live <==> lim.sn in p;
    assert lim.sn in bad <==> lim.sn in p && !Affordable(p[lim.sn], lim.balance, lim.maxGas);
    assert IsInterval(FilterKept(live, true, lim.balance, lim.maxGas), lim.sn, top);
  }

  // ----- the steps of promoteExecutables for one account -----

  lemma PromotionEmpty(pending: Lists, queue: Lists, a: Address, pn: nat, lim: Limits)
    requires WellListed(pending) && WellListed(queue)
    ensures Sorts([], map[])
    ensures a !in queue ==>
              && Promoted(Get(queue, a), pn, lim) == map[]
              && PromotedNonce(Get(queue, a), pn, lim) == pn
              && Set(pending, a, Get(pending, a) + Promoted(Get(queue, a), pn, lim)) == pending
              && Set(queue, a, StillQueued(Get(queue, a), pn, lim)) == queue
  {
    var none: Txs := map[];
    assert Fresh(none, lim) == map[];
    assert ReadyPart(none, pn) == map[] && AfterReady(none, pn) == map[];
    assert Get(pending, a) + none == Get(pending, a);
    SetSelf(pending, a);
    SetSelf(queue, a);
  }

  /** The transactions capped off the queue. */
  function CappedOff(rest: Txs, lim: Limits): (r: Txs) {
    if lim.local then map[] else rest - Lowest(rest, lim.cap).Keys
  }

  lemma PromotionSteps(pending: Lists, queue: Lists, a: Address, pn: nat, lim: Limits)
    requires WellListed(pending) && WellListed(queue) && Get(pending, a).Keys !! Get(queue, a).Keys
    ensures var q := Get(queue, a);
            var live, usable := AtLeast(q, lim.sn), Fresh(q, lim);
            var ready := Promoted(q, pn, lim);
            && OwnedBy(Below(q, lim.sn), a) && OwnedBy(Unpayable(live, lim.balance, lim.maxGas), a)
            && OwnedBy(ready, a) && ready.Keys !! Get(pending, a).Keys
            && OwnedBy(CappedOff(AfterReady(usable, pn), lim), a)
            && (ready != map[] ==> usable != map[] && IsInterval(ready, MinKey(usable), ReadyEnd(usable, pn)))
            && (ready == map[] ==> Set(pending, a, Get(pending, a) + ready) == pending)
  {
    hide WellListed, Below, Unpayable, AtLeast, Fresh, Promoted, CappedOff, AfterReady, ReadyEnd, MinKey, IsInterval,
      OwnedBy, Get;
    var q := Get(queue, a);
    ListsOwned(queue, a);
    SetSelf(pending, a);
    PromotionParts(q, pn, lim);
    OwnedPart(Below(q, lim.sn), q, a);
    OwnedPart(Unpayable(AtLeast(q, lim.sn), lim.balance, lim.maxGas), q, a);
    OwnedPart(Promoted(q, pn, lim), q, a);
    OwnedPart(CappedOff(AfterReady(Fresh(q, lim), pn), lim), q, a);
    PromotedInterval(q, pn, lim);
    if Promoted(q, pn, lim) == map[] {
      assert Get(pending, a) + map[] == Get(pending, a);
    }
  }

  ghost predicate PartOf(m: Txs, q: Txs) {
    m.Keys <= q.Keys && forall n :: n in m ==> m[n] == q[n]
  }

  lemma OwnedPart(m: Txs, q: Txs, a: Address)
    requires PartOf(m, q) && OwnedBy(q, a)
    ensures OwnedBy(m, a)
  {
  }

  lemma PromotionParts(q: Txs, pn: nat, lim: Limits)
    ensures PartOf(Below(q, lim.sn), q) && PartOf(Unpayable(AtLeast(q, lim.sn), lim.balance, lim.maxGas), q)
    ensures PartOf(Promoted(q, pn, lim), q) && PartOf(CappedOff(AfterReady(Fresh(q, lim), pn), lim), q)
  {
    hide Lowest, ReadyEnd;
  }

  lemma PromotedInterval(q: Txs, pn: nat, lim: Limits)
    ensures Promoted(q, pn, lim) != map[] ==>
              Fresh(q, lim) != map[]
              && IsInterval(Promoted(q, pn, lim), MinKey(Fresh(q, lim)), ReadyEnd(Fresh(q, lim), pn))
  {
    hide Fresh, MinKey;
  }

  /** promoteExecutables drops t: too old, unpayable, or over the account's queue cap. */
  predicate PromotionDrops(q: Txs, pn: nat, lim: Limits, t: Tx) {
    || InList(Below(q, lim.sn), t)
    || InList(Unpayable(AtLeast(q, lim.sn), lim.balance, lim.maxGas), t)
    || InList(CappedOff(AfterReady(Fresh(q, lim), pn), lim), t)
  }

  /** The lookup without what promoteExecutables drops for an account with queue q. */
  function WithoutDrops(s: set<Tx>, q: Txs, pn: nat, lim: Limits): (r: set<Tx>) {
    s - Members(Below(q, lim.sn)) - Members(Unpayable(AtLeast(q, lim.sn), lim.balance, lim.maxGas))
    - Members(CappedOff(AfterReady(Fresh(q, lim), pn), lim))
  }

  lemma WithoutDropsMeans(s: set<Tx>, q: Txs, a: Address, pn: nat, lim: Limits, tx: Tx)
    requires OwnedBy(q, a)
    ensures tx in WithoutDrops(s, q, pn, lim) <==> tx in s && !PromotionDrops(q, pn, lim, tx)
  {
    hide Lowest, ReadyEnd, Members;
    MembersInList(Below(q, lim.sn), a, tx);
    MembersInList(Unpayable(AtLeast(q, lim.sn), lim.balance, lim.maxGas), a, tx);
    MembersInList(CappedOff(AfterReady(Fresh(q, lim), pn), lim), a, tx);
  }

  lemma PromotionConsistent(pending: Lists, queue: Lists, s: set<Tx>, a: Address, pn: nat, lim: Limits)
    requires Consistent(pending, queue, s)
    ensures Consistent(Set(pending, a, Get(pending, a) + Promoted(Get(queue, a), pn, lim)),
                       Set(queue, a, StillQueued(Get(queue, a), pn, lim)), WithoutDrops(s, Get(queue, a), pn, lim))
  {
    hide WellListed, Promoted, StillQueued, WithoutDrops, OwnedBy, Get, Set, InList;
    var p, q := Get(pending, a), Get(queue, a);
    var s' := WithoutDrops(s, q, pn, lim);
    ListsOwned(pending, a);
    ListsOwned(queue, a);
    PromotionPartition(q, pn, lim);
    var ready, rest := Promoted(q, pn, lim), StillQueued(q, pn, lim);
    PromotionOwned(p, q, a, pn, lim);
    forall t: Tx
      ensures t.sender == a ==> (t in s' <==> InList(p + ready, t) || InList(rest, t))
      ensures t.sender != a ==> (t in s' <==> t in s)
    {
      assert t in s <==> Holds(pending, t) || Holds(queue, t);
      PromotionMember(p, q, s, a, pn, lim, t);
    }
    AccountChange(pending, queue, s, a, p + ready, rest, s');
  }

  lemma PromotionOwned(p: Txs, q: Txs, a: Address, pn: nat, lim: Limits)
    requires OwnedBy(p, a) && OwnedBy(q, a) && p.Keys !! q.Keys
    ensures OwnedBy(p + Promoted(q, pn, lim), a) && OwnedBy(StillQueued(q, pn, lim), a)
    ensures (p + Promoted(q, pn, lim)).Keys !! StillQueued(q, pn, lim).Keys
  {
    PromotionPartition(q, pn, lim);
    hide Promoted, StillQueued;
  }

  lemma PromotionMember(p: Txs, q: Txs, s: set<Tx>, a: Address, pn: nat, lim: Limits, t: Tx)
    requires OwnedBy(p, a) && OwnedBy(q, a) && p.Keys !! q.Keys
    requires t.sender == a ==> (t in s <==> InList(p, t) || InList(q, t))
    ensures t.sender == a ==>
              (t in WithoutDrops(s, q, pn, lim) <==> InList(p + Promoted(q, pn, lim), t)
                                                     || InList(StillQueued(q, pn, lim), t))
    ensures t.sender != a ==> (t in WithoutDrops(s, q, pn, lim) <==> t in s)
  {
    PromotionPartition(q, pn, lim);
    hide Promoted, StillQueued, PromotionDrops, WithoutDrops;
    PromotionPlace(q, pn, lim, t);
    WithoutDropsMeans(s, q, a, pn, lim, t);
  }

  /** Each queued transaction is dropped, promoted or still queued. */
  lemma PromotionPlace(q: Txs, pn: nat, lim: Limits, t: Tx)
    ensures InList(q, t) && !PromotionDrops(q, pn, lim, t) <==>
            InList(Promoted(q, pn, lim), t) || InList(StillQueued(q, pn, lim), t)
    ensures PromotionDrops(q, pn, lim, t) ==> InList(q, t)
  {
    hide Lowest, ReadyEnd;
  }

  // ----- the steps of demoteUnexecutables for one account -----

  /** The lookup without what demoteUnexecutables drops for an account with pending p. */
  function WithoutDemoted(s: set<Tx>, p: Txs, lim: Limits): (r: set<Tx>) {
    s - Members(Below(p, lim.sn)) - Members(Unpayable(AtLeast(p, lim.sn), lim.balance, lim.maxGas))
  }

  lemma DemotionConsistent(pending: Lists, queue: Lists, s: set<Tx>, a: Address, lim: Limits)
    requires Consistent(pending, queue, s)
    ensures Consistent(Set(pending, a, DemoteKept(Get(pending, a), lim)),
                       Set(queue, a, Get(queue, a) + DemoteBack(Get(pending, a), lim)),
                       WithoutDemoted(s, Get(pending, a), lim))
  {
    hide WellListed, DemoteKept, DemoteBack, WithoutDemoted, OwnedBy, Get, Set, InList;
    var p, q := Get(pending, a), Get(queue, a);
    var s' := WithoutDemoted(s, p, lim);
    ListsOwned(pending, a);
    ListsOwned(queue, a);
    var kept, back := DemoteKept(p, lim), DemoteBack(p, lim);
    DemotionOwned(p, q, a, lim);
    forall t: Tx
      ensures t.sender == a ==> (t in s' <==> InList(kept, t) || InList(q + back, t))
      ensures t.sender != a ==> (t in s' <==> t in s)
    {
      assert t in s <==> Holds(pending, t) || Holds(queue, t);
      DemotionMember(p, q, s, a, lim, t);
    }
    AccountChange(pending, queue, s, a, kept, q + back, s');
  }

  lemma DemotionOwned(p: Txs, q: Txs, a: Address, lim: Limits)
    requires OwnedBy(p, a) && OwnedBy(q, a) && p.Keys !! q.Keys
    ensures OwnedBy(DemoteKept(p, lim), a) && OwnedBy(q + DemoteBack(p, lim), a)
    ensures DemoteKept(p, lim).Keys !! (q + DemoteBack(p, lim)).Keys
  {
    DemotionPartition(p, lim);
    hide DemoteKept, DemoteBack;
  }

  lemma DemotionMember(p: Txs, q: Txs, s: set<Tx>, a: Address, lim: Limits, t: Tx)
    requires OwnedBy(p, a) && OwnedBy(q, a) && p.Keys !! q.Keys
    requires t.sender == a ==> (t in s <==> InList(p, t) || InList(q, t))
    ensures t.sender == a ==>
              (t in WithoutDemoted(s, p, lim) <==> InList(DemoteKept(p, lim), t) || InList(q + DemoteBack(p, lim), t))
    ensures t.sender != a ==> (t in WithoutDemoted(s, p, lim) <==> t in s)
  {
    DemotionPartition(p, lim);
    hide DemoteKept, DemoteBack, WithoutDemoted;
    DemotionPlace(s, p, a, lim, t);
  }

  /** Each pending transaction is dropped, kept, or returned to the queue. */
  lemma DemotionPlace(s: set<Tx>, p: Txs, a: Address, lim: Limits, t: Tx)
    requires OwnedBy(p, a)
    ensures InList(p, t) && t in s ==>
              (t in WithoutDemoted(s, p, lim) <==> InList(DemoteKept(p, lim), t) || InList(DemoteBack(p, lim), t))
    ensures !InList(p, t) ==> (t in WithoutDemoted(s, p, lim) <==> t in s)
  {
    hide MinKey, Members;
    var live := AtLeast(p, lim.sn);
    MembersInList(Below(p, lim.sn), a, t);
    MembersInList(Unpayable(live, lim.balance, lim.maxGas), a, t);
    FilterPartition(live, true, lim.balance, lim.maxGas);
  }

  /** What demoteUnexecutables needs of the parts it moves. */
  lemma DemotionSteps(pending: Lists, queue: Lists, s: set<Tx>, a: Address, lim: Limits)
    requires Consistent(pending, queue, s)
    ensures var p, q := Get(pending, a), Get(queue, a);
            var back, s' := DemoteBack(p, lim), WithoutDemoted(s, p, lim);
            && OwnedBy(Below(p, lim.sn), a) && OwnedBy(Unpayable(AtLeast(p, lim.sn), lim.balance, lim.maxGas), a)
            && OwnedBy(back, a) && back.Keys !! q.Keys
            && (forall n :: n in back ==> back[n] in s')
            && Set(queue, a, q) == queue
  {
    var p, q := Get(pending, a), Get(queue, a);
    ListsOwned(pending, a);
    SetSelf(queue, a);
    DemotionPartition(p, lim);
    hide DemoteKept, DemoteBack, WellListed;
    assert p.Keys !! q.Keys;
    var back := DemoteBack(p, lim);
    forall n | n in back
      ensures back[n] in WithoutDemoted(s, p, lim)
    {
      assert Holds(pending, back[n]);
      DemotionPlace(s, p, a, lim, back[n]);
    }
  }

  // ----- promotion and demotion of many accounts -----

  /** The chain state and settings an account's limits come from. */
  datatype Env = Env(nonces: map<Address, nat>, balances: map<Address, nat>, maxGas: nat, locals: set<Address>,
                     cap: nat)

  function LimitsIn(env: Env, a: Address): Limits {
    Limits(NonceOf(env.nonces, a), NonceOf(env.balances, a), env.maxGas, a in env.locals, env.cap)
  }

  datatype View = View(pending: Lists, queue: Lists, noncer: map<Address, nat>)

  ghost predicate SameAt(env: Env, v0: View, v: View, a: Address) {
    && Get(v.pending, a) == Get(v0.pending, a) && Get(v.queue, a) == Get(v0.queue, a)
    && Virtual(v.noncer, env.nonces, a) == Virtual(v0.noncer, env.nonces, a)
  }

  /** v is v0 with account a promoted. */
  ghost predicate PromotedAt(env: Env, v0: View, v: View, a: Address) {
    var q, pn, lim := Get(v0.queue, a), Virtual(v0.noncer, env.nonces, a), LimitsIn(env, a);
    && Get(v.pending, a) == Get(v0.pending, a) + Promoted(q, pn, lim)
    && Get(v.queue, a) == StillQueued(q, pn, lim)
    && Virtual(v.noncer, env.nonces, a) == PromotedNonce(q, pn, lim)
  }

  /** v is v0 with account a demoted. */
  ghost predicate DemotedAt(env: Env, v0: View, v: View, a: Address) {
    var p, lim := Get(v0.pending, a), LimitsIn(env, a);
    && Get(v.pending, a) == DemoteKept(p, lim)
    && Get(v.queue, a) == Get(v0.queue, a) + DemoteBack(p, lim)
    && Virtual(v.noncer, env.nonces, a) == Virtual(v0.noncer, env.nonces, a)
  }

  ghost predicate AllPromoted(env: Env, v0: View, v: View, accounts: set<Address>) {
    forall a :: if a in accounts then PromotedAt(env, v0, v, a) else SameAt(env, v0, v, a)
  }

  ghost predicate AllDemoted(env: Env, v0: View, v: View, accounts: set<Address>) {
    forall a :: if a in accounts then DemotedAt(env, v0, v, a) else SameAt(env, v0, v, a)
  }

  lemma AllPromotedStep(env: Env, v0: View, v: View, v': View, done: set<Address>, a: Address)
    requires AllPromoted(env, v0, v, done) && a !in done
    requires PromotedAt(env, v, v', a) && forall b :: b != a ==> SameAt(env, v, v', b)
    ensures AllPromoted(env, v0, v', done + {a})
  {
    hide Promoted, StillQueued, PromotedNonce, LimitsIn, Get, Virtual;
    forall b
      ensures if b in done + {a} then PromotedAt(env, v0, v', b) else SameAt(env, v0, v', b)
    {
      assert if b in done then PromotedAt(env, v0, v, b) else SameAt(env, v0, v, b);
      assert b != a ==> SameAt(env, v, v', b);
    }
  }

  lemma AllDemotedStep(env: Env, v0: View, v: View, v': View, done: set<Address>, a: Address)
    requires AllDemoted(env, v0, v, done) && a !in done
    requires DemotedAt(env, v, v', a) && forall b :: b != a ==> SameAt(env, v, v', b)
    ensures AllDemoted(env, v0, v', done + {a})
  {
    hide DemoteKept, DemoteBack, LimitsIn, Get, Virtual;
    forall b
      ensures if b in done + {a} then DemotedAt(env, v0, v', b) else SameAt(env, v0, v', b)
    {
      assert if b in done then DemotedAt(env, v0, v, b) else SameAt(env, v0, v, b);
      assert b != a ==> SameAt(env, v, v', b);
    }
  }

  /** Promotion keeps the intervals of all accounts. */
  lemma PromotionKeepsIntervals(env: Env, v0: View, v: View, accounts: set<Address>)
    requires AllPromoted(env, v0, v, accounts) && Intervals(v0.pending, v0.queue, v0.noncer, env.nonces)
    ensures Intervals(v.pending, v.queue, v.noncer, env.nonces)
  {
    hide Promoted, StillQueued, PromotedNonce, AccountInterval;
    forall a
      ensures AccountInterval(Get(v.pending, a), Get(v.queue, a), NonceOf(env.nonces, a),
                              Virtual(v.noncer, env.nonces, a))
    {
      assert if a in accounts then PromotedAt(env, v0, v, a) else SameAt(env, v0, v, a);
      assert AccountInterval(Get(v0.pending, a), Get(v0.queue, a), NonceOf(env.nonces, a),
                             Virtual(v0.noncer, env.nonces, a));
      PromoteInterval(Get(v0.pending, a), Get(v0.queue, a), Virtual(v0.noncer, env.nonces, a), LimitsIn(env, a));
    }
  }

  /** After a reset, promotion and demotion: each account is an interval from its state nonce
      up to some top, with the queue above; only an empty one relies on the noncer. */
  ghost predicate Settled(env: Env, v: View) {
    forall a :: SettledAt(env, v, a)
  }

  ghost predicate SettledAt(env: Env, v: View, a: Address) {
    exists top :: AccountInterval(Get(v.pending, a), Get(v.queue, a), NonceOf(env.nonces, a), top)
                  && (top == NonceOf(env.nonces, a) ==> Virtual(v.noncer, env.nonces, a) == top)
  }

  lemma LimitsNonce(env: Env, a: Address)
    ensures LimitsIn(env, a).sn == NonceOf(env.nonces, a)
  {
  }

  /** An account without a queue is as good as promoted. */
  lemma PromotedAnyway(env: Env, v0: View, v: View, a: Address)
    requires if a in v0.queue then PromotedAt(env, v0, v, a) else SameAt(env, v0, v, a)
    ensures PromotedAt(env, v0, v, a)
  {
    hide Promoted, StillQueued, PromotedNonce;
    NoQueue(Get(v0.pending, a), Get(v0.queue, a), Virtual(v0.noncer, env.nonces, a), LimitsIn(env, a));
  }

  /** An account without pending transactions is as good as demoted. */
  lemma DemotedAnyway(env: Env, v0: View, v: View, a: Address)
    requires if a in v0.pending then DemotedAt(env, v0, v, a) else SameAt(env, v0, v, a)
    ensures DemotedAt(env, v0, v, a)
  {
    hide DemoteKept, DemoteBack;
    NoPending(LimitsIn(env, a));
    assert Get(v0.queue, a) + map[] == Get(v0.queue, a);
  }

  lemma IntervalMeans(p: Txs, q: Txs, lo: nat, hi: nat)
    requires AccountInterval(p, q, lo, hi)
    ensures lo <= hi && IsInterval(p, lo, hi) && forall n :: n in q ==> hi <= n
  {
  }

  lemma MakeInterval(p: Txs, q: Txs, lo: nat, hi: nat)
    requires lo <= hi && IsInterval(p, lo, hi) && forall n :: n in q ==> hi <= n
    ensures AccountInterval(p, q, lo, hi)
  {
  }

  lemma NoQueue(p: Txs, q: Txs, pn: nat, lim: Limits)
    ensures q == map[] ==> p + Promoted(q, pn, lim) == p && StillQueued(q, pn, lim) == q
                           && PromotedNonce(q, pn, lim) == pn
  {
    if q == map[] {
      assert Fresh(q, lim) == map[];
      assert Promoted(q, pn, lim) == map[];
      assert AfterReady(map[], pn) == map[];
    }
  }

  lemma NoPending(lim: Limits)
    ensures DemoteKept(map[], lim) == map[] && DemoteBack(map[], lim) == map[]
  {
    assert AtLeast(map[], lim.sn) == map[];
    assert Unpayable(map[], lim.balance, lim.maxGas) == map[];
  }

  // ----- payability of what is pending -----

  ghost predicate PayableList(l: Txs, cost: nat, gas: nat) {
    forall n :: n in l ==> Affordable(l[n], cost, gas)
  }

  /** Every pending transaction is payable under the given state. */
  ghost predicate Payables(pending: Lists, balances: map<Address, nat>, maxGas: nat) {
    forall a :: PayableList(Get(pending, a), NonceOf(balances, a), maxGas)
  }

  /** Account by account, less is kept. */
  ghost predicate Within(m: Lists, m0: Lists) {
    forall a :: PartOf(Get(m, a), Get(m0, a))
  }

  lemma PayablesWithin(m: Lists, m0: Lists, balances: map<Address, nat>, maxGas: nat)
    requires Within(m, m0) && Payables(m0, balances, maxGas)
    ensures Payables(m, balances, maxGas)
  {
    hide Get;
    forall a ensures PayableList(Get(m, a), NonceOf(balances, a), maxGas) {
      assert PartOf(Get(m, a), Get(m0, a)) && PayableList(Get(m0, a), NonceOf(balances, a), maxGas);
    }
  }

  lemma RemovalWithin(pending: Lists, tx: Tx)
    ensures Within(PendingWithout(pending, tx), pending)
  {
  }

  /** Promotion adds payable transactions only. */
  lemma PromotionPays(env: Env, v0: View, v: View, accounts: set<Address>)
    requires AllPromoted(env, v0, v, accounts) && Payables(v0.pending, env.balances, env.maxGas)
    ensures Payables(v.pending, env.balances, env.maxGas)
  {
    hide Promoted, StillQueued, PromotedNonce, Get, Virtual;
    forall a ensures PayableList(Get(v.pending, a), NonceOf(env.balances, a), env.maxGas) {
      assert if a in accounts then PromotedAt(env, v0, v, a) else SameAt(env, v0, v, a);
      assert PayableList(Get(v0.pending, a), NonceOf(env.balances, a), env.maxGas);
      PromotedPays(Get(v0.queue, a), Virtual(v0.noncer, env.nonces, a), LimitsIn(env, a));
    }
  }

  lemma PromotedPays(q: Txs, pn: nat, lim: Limits)
    ensures PayableList(Promoted(q, pn, lim), lim.balance, lim.maxGas)
  {
    hide ReadyEnd, MinKey;
  }

  /** Demotion keeps payable transactions only. */
  lemma DemotionPays(env: Env, v0: View, v: View)
    requires AllDemoted(env, v0, v, v0.pending.Keys)
    ensures Payables(v.pending, env.balances, env.maxGas)
  {
    hide DemoteKept, DemoteBack, Virtual;
    forall a ensures PayableList(Get(v.pending, a), NonceOf(env.balances, a), env.maxGas) {
      assert if a in v0.pending then DemotedAt(env, v0, v, a) else SameAt(env, v0, v, a);
      KeptPays(Get(v0.pending, a), LimitsIn(env, a));
    }
  }

  lemma KeptPays(p: Txs, lim: Limits)
    ensures PayableList(DemoteKept(p, lim), lim.balance, lim.maxGas)
  {
    var live := AtLeast(p, lim.sn);
    var bad := Unpayable(live, lim.balance, lim.maxGas);
    hide MinKey;
    assert bad != map[] ==> forall n :: n in bad ==> MinKey(bad) <= n;
    assert forall n :: n in live && n !in bad ==> Affordable(live[n], lim.balance, lim.maxGas);
  }

  /** Under an unchanged state, demotion moves nothing out of payable intervals. */
  lemma DemotionIdle(env: Env, v0: View, v: View)
    requires AllDemoted(env, v0, v, v0.pending.Keys) && Payables(v0.pending, env.balances, env.maxGas)
    requires Intervals(v0.pending, v0.queue, v0.noncer, env.nonces)
    ensures Intervals(v.pending, v.queue, v.noncer, env.nonces)
  {
    hide DemoteKept, DemoteBack, Get, AccountInterval, PayableList;
    forall a
      ensures AccountInterval(Get(v.pending, a), Get(v.queue, a), NonceOf(env.nonces, a),
                              Virtual(v.noncer, env.nonces, a))
    {
      assert if a in v0.pending then DemotedAt(env, v0, v, a) else SameAt(env, v0, v, a);
      assert AccountInterval(Get(v0.pending, a), Get(v0.queue, a), NonceOf(env.nonces, a),
                             Virtual(v0.noncer, env.nonces, a));
      assert PayableList(Get(v0.pending, a), NonceOf(env.balances, a), env.maxGas);
      KeptWhole(Get(v0.pending, a), Get(v0.queue, a), Virtual(v0.noncer, env.nonces, a), LimitsIn(env, a));
    }
  }

  lemma KeptWhole(p: Txs, q: Txs, pn: nat, lim: Limits)
    requires AccountInterval(p, q, lim.sn, pn) && PayableList(p, lim.balance, lim.maxGas)
    ensures DemoteKept(p, lim) == p && q + DemoteBack(p, lim) == q
  {
    assert AtLeast(p, lim.sn) == p;
    assert Unpayable(p, lim.balance, lim.maxGas) == map[];
    assert p != map[] ==> lim.sn in p;
  }
}

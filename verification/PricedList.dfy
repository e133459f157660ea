/** The lookup of all pooled transactions and the lazily cleaned price heap over its
    remote part. */
module PricedList {
  import opened Transactions
  import Heap
  import SetSum

  function SlotsOf(tx: Tx): int { NumSlots(tx) }

  ghost function SumSlots(s: set<Tx>): int { SetSum.Sum(s, SlotsOf) }

  class TxLookup {
    var slots: int
    var locals: set<Tx>
    var remotes: set<Tx>

    ghost predicate Valid()
      reads this
    {
      locals !! remotes && slots == SumSlots(locals + remotes)
    }

    function All(): set<Tx>
      reads this
    {
      locals + remotes
    }

    constructor ()
      ensures Valid() && All() == {} && remotes == {}
    {
      slots, locals, remotes := 0, {}, {};
    }

    /** Adding a transaction that is already there counts its slots twice; otherwise `slots` stays
        the sum. */
    method Add(tx: Tx, local: bool)
      requires Valid()
      modifies this
      ensures tx !in old(All()) ==> Valid()
      ensures slots == old(slots) + NumSlots(tx)
      ensures tx in old(All()) && tx.size > 0 ==> slots != SumSlots(All())
      ensures All() == old(All()) + {tx}
      ensures remotes == if local then old(remotes) else old(remotes) + {tx}
    {
      if tx !in All() {
        SetSum.SumInsert(locals + remotes, SlotsOf, tx);
      } else {
        assert locals + remotes + {tx} == locals + remotes;
      }
      slots := slots + NumSlots(tx);
      if local {
        locals := locals + {tx};
      } else {
        remotes := remotes + {tx};
      }
      assert All() == old(All()) + {tx};
    }

    /** Removing an unknown transaction changes nothing. */
    method Remove(tx: Tx)
      requires Valid()
      modifies this
      ensures Valid()
      ensures All() == old(All()) - {tx} && remotes == old(remotes) - {tx}
    {
      if tx in locals || tx in remotes {
        SetSum.SumRemove(locals + remotes, SlotsOf, tx);
        slots := slots - NumSlots(tx);
        locals, remotes := locals - {tx}, remotes - {tx};
        assert All() == old(All()) - {tx};
      }
    }

    /** Moves the remote transactions of the given accounts to the local part. */
    method RemoteToLocals(accounts: set<Address>) returns (migrated: nat)
      requires Valid()
      modifies this
      ensures Valid()
      ensures All() == old(All())
      ensures remotes == set tx | tx in old(remotes) && tx.sender !in accounts
      ensures |remotes| == |old(remotes)| - migrated
    {
      migrated := 0;
      var todo := remotes;
      while todo != {}
        invariant todo <= remotes <= old(remotes)
        invariant locals !! remotes && All() == old(All()) && slots == old(slots)
        invariant forall tx :: tx in old(remotes) && tx !in todo ==> (tx in remotes <==> tx.sender !in accounts)
        invariant |remotes| == |old(remotes)| - migrated
        decreases todo
      {
        var tx :| tx in todo;
        todo := todo - {tx};
        if tx.sender in accounts {
          locals, remotes := locals + {tx}, remotes - {tx};
          migrated := migrated + 1;
        }
      }
    }
  }

  /** The heap key: cheaper first and, at equal price, higher nonce first. */
  function PriceKey(tx: Tx): int {
    tx.gasPrice * 0x1_0000_0000_0000_0000 - tx.nonce
  }

  /** The order the price heap compares by. */
  predicate Worse(a: Tx, b: Tx) {
    a.gasPrice < b.gasPrice || (a.gasPrice == b.gasPrice && a.nonce > b.nonce)
  }

  lemma PriceKeyOrder(a: Tx, b: Tx)
    ensures PriceKey(a) < PriceKey(b) <==> Worse(a, b)
  {
  }

  /** Total slots of a list of transactions. */
  function SeqSlots(txs: seq<Tx>): nat {
    if txs == [] then 0 else SeqSlots(txs[..|txs| - 1]) + NumSlots(txs[|txs| - 1])
  }

  /** Every remote transaction has an entry in the heap. */
  ghost predicate Covers(heap: seq<Tx>, remotes: set<Tx>) {
    forall tx :: tx in remotes ==> tx in multiset(heap)
  }

  /** The two heaps have the same entries for remote transactions. */
  ghost predicate SameLive(heap: seq<Tx>, other: seq<Tx>, remotes: set<Tx>) {
    forall tx :: tx in remotes ==> multiset(heap)[tx] == multiset(other)[tx]
  }

  /** The heap has each remote transaction once and nothing else. */
  ghost predicate Rebuilt(heap: seq<Tx>, remotes: set<Tx>) {
    multiset(heap) == multiset(remotes)
  }

  /** The heap has no entries but some of those before and the added ones. */
  ghost predicate EntriesFrom(heap: seq<Tx>, before: seq<Tx>, added: multiset<Tx>) {
    multiset(heap) <= multiset(before) + added
  }

  ghost predicate NoDuplicates(txs: seq<Tx>) {
    forall tx :: multiset(txs)[tx] <= 1
  }

  lemma CoverSize(m: multiset<Tx>, s: set<Tx>)
    requires forall tx :: tx in s ==> tx in m
    ensures |s| <= |m|
  {
    assert multiset(s) <= m;
    assert m == multiset(s) + (m - multiset(s));
  }

  /** A stale entry of a covering heap is surplus. */
  lemma StaleIsSurplus(heap: seq<Tx>, remotes: set<Tx>, tx: Tx)
    requires Covers(heap, remotes) && tx in multiset(heap) && tx !in remotes
    ensures |remotes| < |heap|
  {
    CoverSize(multiset(heap), remotes + {tx});
  }

  /** The heap covers the remotes, and all but `debt` of its surplus entries are counted in
      stales. */
  ghost predicate HeapSound(heap: seq<Tx>, stales: int, remotes: set<Tx>, debt: nat) {
    && Heap.IsHeap(heap, PriceKey)
    && Covers(heap, remotes)
    && |heap| - |remotes| <= stales + debt
    && 0 <= stales
  }

  /** Removing a transaction from the lookup costs at most one stale entry. */
  lemma RemovalOwesOne(heap: seq<Tx>, stales: int, remotes: set<Tx>, debt: nat, tx: Tx)
    requires HeapSound(heap, stales, remotes, debt)
    ensures HeapSound(heap, stales, remotes - {tx}, debt + 1)
  {
    hide Heap.IsHeap;
  }

  /** Entering a remote transaction into lookup and heap owes nothing. */
  lemma EntryOwesNothing(heap: seq<Tx>, stales: int, remotes: set<Tx>, heap': seq<Tx>, tx: Tx)
    requires HeapSound(heap, stales, remotes, 0) && Heap.IsHeap(heap', PriceKey) && tx !in remotes
    requires multiset(heap') == multiset(heap) + multiset{tx} && |heap'| == |heap| + 1
    ensures HeapSound(heap', stales, remotes + {tx}, 0)
  {
    hide Heap.IsHeap;
  }

  class TxPricedList {
    const all: TxLookup
    var heap: seq<Tx>
    var stales: int

    constructor (all: TxLookup)
      ensures this.all == all && heap == [] && stales == 0
    {
      this.all, heap, stales := all, [], 0;
    }

    ghost predicate Sound(debt: nat)
      reads this, all
    {
      HeapSound(heap, stales, all.remotes, debt)
    }

    method Put(tx: Tx, local: bool)
      requires Heap.IsHeap(heap, PriceKey)
      modifies this`heap
      ensures Heap.IsHeap(heap, PriceKey)
      ensures multiset(heap) == old(multiset(heap)) + (if local then multiset{} else multiset{tx})
      ensures |heap| == |old(heap)| + if local then 0 else 1
    {
      hide Heap.IsHeap;
      if local {
        return;
      }
      heap := Heap.Push(heap, PriceKey, tx);
    }

    /** Settles the debt of `count` removals. Afterwards at least three quarters of the heap
        are live. */
    method Removed(count: nat)
      requires Sound(count)
      modifies this
      ensures Sound(0)
      ensures 3 * |heap| <= 4 * |all.remotes|
      ensures EntriesFrom(heap, old(heap), multiset{})
      ensures if 4 * (old(stales) + count) <= |old(heap)| then heap == old(heap) && stales == old(stales) + count
              else stales == 0 && Rebuilt(heap, all.remotes)
    {
      hide Heap.IsHeap;
      stales := stales + count;
      if stales <= |heap| / 4 {
        return;
      }
      ghost var before := heap;
      Reheap();
      assert forall t :: multiset(heap)[t] <= multiset(before)[t];
    }

    method Reheap()
      modifies this
      ensures Sound(0) && stales == 0
      ensures |heap| == |all.remotes| && multiset(heap) == multiset(all.remotes)
    {
      hide Heap.IsHeap;
      stales, heap := 0, [];
      var todo := all.remotes;
      while todo != {}
        invariant todo <= all.remotes && stales == 0
        invariant multiset(heap) == multiset(all.remotes - todo)
        invariant |heap| == |all.remotes - todo|
        decreases todo
      {
        var tx :| tx in todo;
        assert all.remotes - (todo - {tx}) == (all.remotes - todo) + {tx};
        todo := todo - {tx};
        heap := heap + [tx];
      }
      assert all.remotes - {} == all.remotes;
      heap := Heap.Init(heap, PriceKey);
    }

    /** Pops a stale root. */
    method PopStale()
      requires Sound(0) && heap != [] && heap[0] !in all.remotes
      modifies this
      ensures Sound(0)
      ensures SameLive(heap, old(heap), all.remotes) && |heap| == |old(heap)| - 1
      ensures multiset(heap) <= multiset(old(heap))
    {
      hide Heap.IsHeap;
      StaleIsSurplus(heap, all.remotes, heap[0]);
      stales := stales - 1;
      var tx;
      tx, heap := Heap.Pop(heap, PriceKey);
    }

    /** Equals a scan of all live remotes: tx is underpriced when there is a remote
        transaction and none is cheaper than tx. */
    method Underpriced(tx: Tx) returns (r: bool)
      requires Sound(0)
      modifies this
      ensures Sound(0)
      ensures r <==> all.remotes != {} && forall t :: t in all.remotes ==> t.gasPrice >= tx.gasPrice
      ensures SameLive(heap, old(heap), all.remotes) && EntriesFrom(heap, old(heap), multiset{})
    {
      hide Heap.IsHeap;
      while |heap| > 0 && heap[0] !in all.remotes
        invariant Sound(0)
        invariant SameLive(heap, old(heap), all.remotes) && multiset(heap) <= multiset(old(heap))
        decreases |heap|
      {
        PopStale();
      }
      if |heap| == 0 {
        return false;
      }
      RootIsCheapest(heap, all.remotes);
      return heap[0].gasPrice >= tx.gasPrice;
    }

    /** Pops the cheapest remotes until `slots` are covered. Unless forced, a shortfall puts
        everything back. */
    method Discard(slots: int, force: bool) returns (drop: seq<Tx>, success: bool)
      requires Sound(0)
      modifies this
      ensures Heap.IsHeap(heap, PriceKey) && 0 <= stales
      ensures PoppedPart(old(heap), heap, drop, all.remotes)
      ensures |heap| + |drop| - |all.remotes| <= stales
      ensures CheapestFirst(heap, drop, all.remotes)
      ensures success ==> ShortestCover(drop, slots, heap)
      ensures !success ==> drop == []
      ensures success <==> force || slots <= 0 || Coverable(old(heap), all.remotes, slots)
    {
      hide Heap.IsHeap, DiscardState, CheapestFirst, ShortestCover, Coverable, PoppedPart;
      drop := [];
      var need := slots;
      DiscardStart(heap, all.remotes, slots);
      while |heap| > 0 && need > 0
        invariant Heap.IsHeap(heap, PriceKey) && 0 <= stales
        invariant |heap| + |drop| - |all.remotes| <= stales
        invariant DiscardState(old(heap), heap, drop, all.remotes, slots)
        invariant need == slots - SeqSlots(drop)
        decreases |heap|
      {
        ghost var before := heap;
        var tx;
        tx, heap := Heap.Pop(heap, PriceKey);
        DiscardPop(old(heap), before, heap, drop, all.remotes, slots, tx);
        if tx !in all.remotes {
          stales := stales - 1;
        } else {
          drop := drop + [tx];
          need := need - NumSlots(tx);
        }
      }
      DiscardDone(old(heap), heap, drop, all.remotes, slots);
      if need > 0 && !force {
        ghost var rest := heap;
        PushBack(drop);
        PutBackAll(old(heap), rest, heap, drop, all.remotes);
        return [], false;
      }
      return drop, true;
    }

    /** Returns the popped transactions to the heap. */
    method PushBack(drop: seq<Tx>)
      requires Heap.IsHeap(heap, PriceKey)
      modifies this`heap
      ensures Heap.IsHeap(heap, PriceKey)
      ensures multiset(heap) == old(multiset(heap)) + multiset(drop) && |heap| == |old(heap)| + |drop|
    {
      hide Heap.IsHeap;
      for i := 0 to |drop|
        invariant Heap.IsHeap(heap, PriceKey)
        invariant multiset(heap) == old(multiset(heap)) + multiset(drop[..i]) && |heap| == |old(heap)| + i
      {
        heap := Heap.Push(heap, PriceKey, drop[i]);
        assert drop[..i + 1] == drop[..i] + [drop[i]];
      }
      assert drop[..|drop|] == drop;
    }
  }

  /** The root of a covering heap is live and cheapest among the remotes. */
  lemma RootIsCheapest(heap: seq<Tx>, remotes: set<Tx>)
    requires Heap.IsHeap(heap, PriceKey) && Covers(heap, remotes) && |heap| > 0
    ensures forall t :: t in remotes ==> PriceKey(heap[0]) <= PriceKey(t) && heap[0].gasPrice <= t.gasPrice
  {
    forall t | t in remotes
      ensures PriceKey(heap[0]) <= PriceKey(t) && heap[0].gasPrice <= t.gasPrice
    {
      assert t in multiset(heap);
      var i :| 0 <= i < |heap| && heap[i] == t;
      Heap.RootIsMin(heap, PriceKey, i);
      PriceKeyOrder(t, heap[0]);
    }
  }

  /** The dropped transactions are live, in discard order, and none is better than a live
      one left in the heap. */
  ghost predicate CheapestFirst(heap: seq<Tx>, drop: seq<Tx>, remotes: set<Tx>) {
    && (forall i :: 0 <= i < |drop| ==> drop[i] in remotes)
    && (forall i, j :: 0 <= i < j < |drop| ==> PriceKey(drop[i]) <= PriceKey(drop[j]))
    && (forall i, t :: 0 <= i < |drop| && t in multiset(heap) && t in remotes ==> PriceKey(drop[i]) <= PriceKey(t))
  }

  /** The drops cover the slots unless the heap ran out, and no shorter prefix does. */
  ghost predicate ShortestCover(drop: seq<Tx>, slots: int, heap: seq<Tx>) {
    && (SeqSlots(drop) >= slots || heap == [])
    && (drop != [] ==> SeqSlots(drop[..|drop| - 1]) < slots)
  }

  /** Some list of live heap entries covers the slots. */
  ghost predicate Coverable(heap: seq<Tx>, remotes: set<Tx>, slots: int) {
    exists txs: seq<Tx> :: LivePart(txs, heap, remotes) && SeqSlots(txs) >= slots
  }

  ghost predicate LivePart(txs: seq<Tx>, heap: seq<Tx>, remotes: set<Tx>) {
    multiset(txs) <= multiset(heap) && forall tx :: tx in txs ==> tx in remotes
  }

  /** The entries popped so far are the drops and some stale ones. */
  ghost predicate PoppedPart(before: seq<Tx>, heap: seq<Tx>, drop: seq<Tx>, remotes: set<Tx>) {
    && Covers(before, remotes)
    && multiset(heap) + multiset(drop) <= multiset(before)
    && (forall t :: t in remotes ==> multiset(before)[t] == multiset(heap)[t] + multiset(drop)[t])
    && (forall t :: t in multiset(drop) ==> t in remotes)
  }

  /** The drops ascend and bound what is left. */
  ghost predicate DropOrder(heap: seq<Tx>, drop: seq<Tx>) {
    && (forall i, j :: 0 <= i < j < |drop| ==> PriceKey(drop[i]) <= PriceKey(drop[j]))
    && (forall i, t :: 0 <= i < |drop| && t in multiset(heap) ==> PriceKey(drop[i]) <= PriceKey(t))
  }

  ghost predicate DiscardState(before: seq<Tx>, heap: seq<Tx>, drop: seq<Tx>, remotes: set<Tx>, slots: int) {
    && PoppedPart(before, heap, drop, remotes)
    && DropOrder(heap, drop)
    && (drop != [] ==> SeqSlots(drop[..|drop| - 1]) < slots)
  }

  lemma DiscardStart(heap: seq<Tx>, remotes: set<Tx>, slots: int)
    requires Covers(heap, remotes)
    ensures DiscardState(heap, heap, [], remotes, slots)
  {
  }

  lemma DiscardPop(before: seq<Tx>, heap: seq<Tx>, rest: seq<Tx>, drop: seq<Tx>, remotes: set<Tx>, slots: int, tx: Tx)
    requires DiscardState(before, heap, drop, remotes, slots) && SeqSlots(drop) < slots
    requires Heap.IsHeap(heap, PriceKey) && heap != [] && tx == heap[0]
    requires multiset(heap) == multiset(rest) + multiset{tx} && |rest| == |heap| - 1
    ensures tx !in remotes ==> DiscardState(before, rest, drop, remotes, slots)
    ensures tx !in remotes ==> |remotes| < |heap| + |drop|
    ensures tx in remotes ==> DiscardState(before, rest, drop + [tx], remotes, slots)
    ensures SeqSlots(drop + [tx]) == SeqSlots(drop) + NumSlots(tx)
  {
    assert (drop + [tx])[..|drop|] == drop;
    DropOrderStep(heap, rest, drop, tx);
    hide DropOrder, Heap.IsHeap;
    PoppedPartStep(before, heap, rest, drop, remotes, tx);
    hide PoppedPart;
  }

  lemma DropOrderStep(heap: seq<Tx>, rest: seq<Tx>, drop: seq<Tx>, tx: Tx)
    requires DropOrder(heap, drop) && Heap.IsHeap(heap, PriceKey) && heap != [] && tx == heap[0]
    requires multiset(heap) == multiset(rest) + multiset{tx}
    ensures DropOrder(rest, drop) && DropOrder(rest, drop + [tx])
  {
    hide PriceKey;
    forall t | t in multiset(rest)
      ensures t in multiset(heap) && PriceKey(tx) <= PriceKey(t)
    {
      assert t in multiset(heap);
      var i :| 0 <= i < |heap| && heap[i] == t;
      Heap.RootIsMin(heap, PriceKey, i);
    }
    assert tx in multiset(heap);
    hide Heap.IsHeap;
  }

  lemma PoppedPartStep(before: seq<Tx>, heap: seq<Tx>, rest: seq<Tx>, drop: seq<Tx>, remotes: set<Tx>, tx: Tx)
    requires PoppedPart(before, heap, drop, remotes)
    requires multiset(heap) == multiset(rest) + multiset{tx}
    ensures tx !in remotes ==> PoppedPart(before, rest, drop, remotes) && |remotes| < |heap| + |drop|
    ensures tx in remotes ==> PoppedPart(before, rest, drop + [tx], remotes)
  {
    if tx !in remotes {
      CoverSize(multiset(heap) + multiset(drop), remotes + {tx});
    } else {
      assert multiset(drop + [tx]) == multiset(drop) + multiset{tx};
    }
  }

  /** When the heap ran out, the drops are all live entries, so nothing covers more. */
  lemma DiscardDone(before: seq<Tx>, heap: seq<Tx>, drop: seq<Tx>, remotes: set<Tx>, slots: int)
    requires DiscardState(before, heap, drop, remotes, slots)
    requires heap == [] || SeqSlots(drop) >= slots
    ensures PoppedPart(before, heap, drop, remotes)
    ensures CheapestFirst(heap, drop, remotes)
    ensures ShortestCover(drop, slots, heap)
    ensures SeqSlots(drop) >= slots <==> slots <= 0 || Coverable(before, remotes, slots)
  {
    assert forall i :: 0 <= i < |drop| ==> drop[i] in multiset(drop);
    assert LivePart(drop, before, remotes);
    if SeqSlots(drop) < slots {
      forall txs: seq<Tx> | LivePart(txs, before, remotes)
        ensures SeqSlots(txs) < slots
      {
        forall t | t in multiset(txs)
          ensures multiset(txs)[t] <= multiset(drop)[t]
        {
          assert t in txs;
        }
        SlotsMonotone(txs, drop);
      }
    }
  }

  lemma PutBackAll(before: seq<Tx>, rest: seq<Tx>, heap: seq<Tx>, drop: seq<Tx>, remotes: set<Tx>)
    requires PoppedPart(before, rest, drop, remotes) && multiset(heap) == multiset(rest) + multiset(drop)
    ensures PoppedPart(before, heap, [], remotes) && CheapestFirst(heap, [], remotes)
  {
  }

  /** A list whose entries are among those of another needs no more slots. */
  lemma {:induction false} SlotsMonotone(a: seq<Tx>, b: seq<Tx>)
    requires multiset(a) <= multiset(b)
    ensures SeqSlots(a) <= SeqSlots(b)
    decreases |a|
  {
    hide NumSlots;
    if a != [] {
      var last := |a| - 1;
      var tx := a[last];
      assert a == a[..last] + [tx];
      assert tx in multiset(a);
      var i :| 0 <= i < |b| && b[i] == tx;
      var c := b[..i] + b[i + 1..];
      SlotsWithout(b, i);
      assert b == b[..i] + [tx] + b[i + 1..];
      assert multiset(b) == multiset(c) + multiset{tx};
      assert multiset(a) == multiset(a[..last]) + multiset{tx};
      forall t
        ensures multiset(a[..last])[t] <= multiset(c)[t]
      {
        assert multiset(a)[t] <= multiset(b)[t];
      }
      SlotsMonotone(a[..last], c);
    }
  }

  lemma {:induction false} SlotsWithout(b: seq<Tx>, i: nat)
    requires i < |b|
    ensures SeqSlots(b) == SeqSlots(b[..i] + b[i + 1..]) + NumSlots(b[i])
    decreases |b|
  {
    hide NumSlots;
    var last := |b| - 1;
    var c := b[..i] + b[i + 1..];
    if i == last {
      assert c == b[..last];
    } else {
      SlotsWithout(b[..last], i);
      assert c[..|c| - 1] == b[..last][..i] + b[..last][i + 1..];
      assert c[|c| - 1] == b[last];
    }
  }

  /** With no duplicate live entries the drops are distinct, so they free as many slots as
      their number says, and none of them is left in the heap. */
  lemma DropsAreDistinct(before: seq<Tx>, heap: seq<Tx>, drop: seq<Tx>, remotes: set<Tx>)
    requires forall t :: t in remotes ==> multiset(before)[t] == multiset(heap)[t] + multiset(drop)[t]
    requires forall t :: t in remotes ==> multiset(before)[t] <= 1
    requires forall i :: 0 <= i < |drop| ==> drop[i] in remotes
    ensures NoDuplicates(drop)
    ensures forall t :: t in drop ==> t !in multiset(heap)
    ensures SeqSlots(drop) == SumSlots((set t | t in drop))
  {
    forall t
      ensures multiset(drop)[t] <= 1
    {
      if t in multiset(drop) {
        assert t in drop;
      }
    }
    DistinctSlots(drop);
  }

  lemma {:induction false} DistinctSlots(txs: seq<Tx>)
    requires NoDuplicates(txs)
    ensures SeqSlots(txs) == SumSlots((set t | t in txs))
  {
    if txs == [] {
      assert (set t | t in txs) == {};
    } else {
      var last := |txs| - 1;
      var tx := txs[last];
      var front := txs[..last];
      assert txs == front + [tx];
      assert forall t :: multiset(front)[t] <= multiset(txs)[t];
      DistinctSlots(front);
      assert tx !in front by {
        assert multiset(txs)[tx] == multiset(front)[tx] + 1;
      }
      assert (set t | t in txs) == (set t | t in front) + {tx};
      SetSum.SumInsert((set t | t in front), SlotsOf, tx);
    }
  }
}

/** The per-account transaction lists: a hash map with a heap index and a lazily built
    sorted cache (TxSortedMap), and the price-bumping, cost-capped list on top (TxList).
    Every method is stated over the plain nonce map it refines.
 */
module TxList {
  import opened Transactions
  import opened NonceMap
  import Heap

  function Self(n: nat): int { n }

  function NonceKey(tx: Tx): int { tx.nonce }

  /** index holds each nonce of m exactly once. */
  ghost predicate Indexes(index: seq<nat>, m: Txs) {
    forall n: nat :: multiset(index)[n] == if n in m then 1 else 0
  }

  /** The root of the index is the lowest nonce. */
  lemma IndexRoot(index: seq<nat>, m: Txs)
    requires Indexes(index, m) && Heap.IsHeap(index, Self)
    ensures index == [] <==> m == map[]
    ensures index != [] ==> IsMin(m, index[0])
  {
    if m != map[] {
      var n :| n in m;
      assert multiset(index)[n] == 1;
    }
    if index != [] {
      assert index[0] in multiset(index);
      forall n | n in m
        ensures index[0] <= n
      {
        assert n in multiset(index);
        var i :| 0 <= i < |index| && index[i] == n;
        Heap.RootIsMin(index, Self, i);
      }
    }
  }

  class TxSortedMap {
    var items: Txs
    var index: seq<nat>
    var cache: Option<seq<Tx>>

    /** The index is a duplicate-free heap of the nonces. */
    ghost predicate Indexed()
      reads this
    {
      Keyed(items) && Indexes(index, items) && Heap.IsHeap(index, Self)
    }

    ghost predicate Valid()
      reads this
    {
      Indexed() && (cache.Some? ==> Sorts(cache.value, items))
    }

    constructor ()
      ensures Valid() && items == map[]
    {
      items, index, cache := map[], [], None;
    }

    method Put(tx: Tx)
      requires Valid()
      modifies this
      ensures Valid()
      ensures items == old(items)[tx.nonce := tx]
    {
      if tx.nonce !in items {
        index := Heap.Push(index, Self, tx.nonce);
      }
      items, cache := items[tx.nonce := tx], None;
    }

    /** Takes the lowest nonce out of the index and the items. */
    method PopLowest() returns (tx: Tx)
      requires Indexed() && index != []
      modifies this`items, this`index
      ensures Indexed()
      ensures tx.nonce == old(index)[0] && IsMin(old(items), tx.nonce) && tx == old(items)[tx.nonce]
      ensures items == old(items) - {tx.nonce} && |items| == |old(items)| - 1
    {
      IndexRoot(index, items);
      var nonce;
      nonce, index := Heap.Pop(index, Self);
      tx := items[nonce];
      RemoveSize(items, nonce);
      items := items - {nonce};
    }

    /** Drops every nonce below the threshold and returns the dropped ones in order. */
    method Forward(threshold: nat) returns (removed: seq<Tx>)
      requires Valid()
      modifies this
      ensures Valid()
      ensures items == AtLeast(old(items), threshold)
      ensures Sorts(removed, Below(old(items), threshold))
    {
      hide Sorts, Keyed, Indexes, Heap.HeapFrom, ForwardState;
      removed := [];
      ghost var was := items;
      ForwardStart(was, threshold);
      while |index| > 0 && index[0] < threshold
        invariant Indexed()
        invariant ForwardState(was, threshold, items, removed)
        invariant cache == old(cache)
        invariant cache.Some? ==> |removed| <= |cache.value| && Sorts(cache.value[|removed|..], items)
        decreases |items|
      {
        ghost var before := items;
        var tx := PopLowest();
        ForwardStep(was, threshold, before, removed, tx.nonce);
        if cache.Some? {
          SortsFirst(cache.value[|removed|..], before, tx.nonce);
          assert cache.value[|removed|..][1..] == cache.value[|removed| + 1..];
        }
        removed := removed + [tx];
      }
      IndexRoot(index, items);
      ForwardDone(was, threshold, items, removed);
      if cache.Some? {
        cache := Some(cache.value[|removed|..]);
      }
    }

    /** Drops the transactions satisfying f and returns them in some order. */
    method Filter(f: Tx -> bool) returns (removed: seq<Tx>)
      requires Valid()
      modifies this
      ensures Valid()
      ensures items == Without(old(items), f)
      ensures Enumerates(removed, Only(old(items), f))
    {
      removed := FilterItems(f);
      if |removed| > 0 {
        Reheap();
      } else {
        assert forall n :: n in old(items) ==> n !in Only(old(items), f);
        assert items == old(items);
      }
    }

    /** Filter without rebuilding the index. */
    method FilterItems(f: Tx -> bool) returns (removed: seq<Tx>)
      requires Keyed(items)
      modifies this
      ensures Keyed(items)
      ensures items == Without(old(items), f)
      ensures Enumerates(removed, Only(old(items), f))
      ensures index == old(index)
      ensures cache == if |removed| > 0 then None else old(cache)
    {
      hide Enumerates, Without, Only, FilterState;
      removed := [];
      var todo := items.Keys;
      ghost var was := items;
      FilterStart(was, f);
      while todo != {}
        invariant FilterState(was, f, todo, items, removed)
        invariant index == old(index) && cache == old(cache)
        decreases todo
      {
        var nonce :| nonce in todo;
        FilterStep(was, f, todo, items, removed, nonce);
        todo := todo - {nonce};
        if f(items[nonce]) {
          removed := removed + [items[nonce]];
          items := items - {nonce};
        }
      }
      FilterDone(was, f, items, removed);
      if |removed| > 0 {
        cache := None;
      }
    }

    method Reheap()
      requires Keyed(items)
      modifies this
      ensures Valid() && items == old(items)
    {
      index := [];
      var todo := items.Keys;
      while todo != {}
        invariant todo <= items.Keys && items == old(items)
        invariant forall n: nat :: multiset(index)[n] == if n in items && n !in todo then 1 else 0
        decreases todo
      {
        var nonce :| nonce in todo;
        todo := todo - {nonce};
        index := index + [nonce];
      }
      index := Heap.Init(index, Self);
      cache := None;
    }

    /** Keeps the `threshold` lowest nonces and returns the others, highest first. */
    method Cap(threshold: nat) returns (drops: seq<Tx>)
      requires Valid()
      modifies this
      ensures Valid()
      ensures items == Lowest(old(items), threshold)
      ensures Enumerates(drops, old(items) - items.Keys)
      ensures forall i, j :: 0 <= i < j < |drops| ==> drops[i].nonce > drops[j].nonce
    {
      hide *;
      drops := [];
      ghost var was := items;
      if |items| <= threshold {
        NothingCapped(was, threshold);
        return;
      }
      drops := DropHighest(threshold);
      CapDone(was, items, drops, threshold);
      CapCleanup(threshold, |drops|);
    }

    /** Drops the highest nonces, leaving the sorted index uncut. */
    method DropHighest(threshold: nat) returns (drops: seq<Tx>)
      requires Valid() && |items| > threshold
      modifies this`items, this`index
      ensures |items| == threshold <= |index|
      ensures SortedIndex(index[..threshold], items)
      ensures CapState(old(items), items, drops, threshold)
      ensures CacheFront(items, cache, |drops|)
    {
      hide Sorts, Indexes, CapState, SortedIndex, CacheFront, Heap.IsHeap, Heap.Ascending;
      drops := [];
      ghost var was := items;
      index := Heap.Sort(index, Self);
      CapStart(was, cache, old(index), index, threshold);
      var size := |items|;
      while size > threshold
        invariant threshold <= size == |items| <= |index|
        invariant SortedIndex(index[..size], items)
        invariant CapState(was, items, drops, threshold)
        invariant CacheFront(items, cache, |drops|)
        decreases size
      {
        var top := index[size - 1];
        SortedIndexStep(index[..size], items);
        assert index[..size][..size - 1] == index[..size - 1];
        CapStep(was, items, drops, top, threshold);
        CacheFrontStep(items, cache, |drops|, top);
        drops := drops + [items[top]];
        items := items - {top};
        size := size - 1;
      }
    }

    /** Cuts the index and the back of the cache after the highest nonces were dropped. */
    method CapCleanup(threshold: nat, dropped: nat)
      requires threshold <= |index| && SortedIndex(index[..threshold], items) && CacheFront(items, cache, dropped)
      modifies this`index, this`cache
      ensures Valid()
    {
      hide Sorts, Heap.HeapFrom, Heap.Ascending;
      index := Heap.Init(index[..threshold], Self);
      if cache.Some? {
        cache := Some(cache.value[..|cache.value| - dropped]);
      }
    }

    method Remove(nonce: nat) returns (found: bool)
      requires Valid()
      modifies this
      ensures Valid()
      ensures found == (nonce in old(items))
      ensures items == old(items) - {nonce}
    {
      if nonce !in items {
        assert items - {nonce} == items;
        return false;
      }
      var i := 0;
      while i < |index| && index[i] != nonce
        invariant 0 <= i <= |index|
        invariant nonce !in index[..i]
      {
        i := i + 1;
      }
      assert i < |index| by {
        assert multiset(index)[nonce] == 1;
        assert nonce in index;
      }
      var x;
      x, index := Heap.RemoveAt(index, Self, i);
      items := items - {nonce};
      cache := None;
      return true;
    }

    /** Takes out the maximal consecutive run from the lowest nonce, provided that nonce
        is not above start. */
    method Ready(start: nat) returns (ready: seq<Tx>)
      requires Valid()
      modifies this
      ensures Valid()
      ensures items == AfterReady(old(items), start)
      ensures Sorts(ready, ReadyPart(old(items), start))
    {
      hide Sorts, Keyed, Indexes, Heap.IsHeap, ReadyState, ReadyPart, AfterReady, MinKey;
      ready := [];
      ghost var was := items;
      IndexRoot(index, items);
      if |index| == 0 || index[0] > start {
        NothingReady(items, start);
        return;
      }
      var next := index[0];
      ReadyStart(was, next);
      while |index| > 0 && index[0] == next
        invariant Indexed()
        invariant ReadyState(was, next, items, ready)
        decreases |items|
      {
        ghost var before := items;
        var tx := PopLowest();
        ReadyStep(was, next, before, ready);
        ready := ready + [tx];
        next := next + 1;
      }
      cache := None;
      IndexRoot(index, items);
      ReadyDone(was, start, next, items, ready);
    }

    /** The stored transactions in some order. */
    method Values() returns (list: seq<Tx>)
      requires Keyed(items)
      ensures Enumerates(list, items)
    {
      hide Enumerates;
      list := [];
      var todo := items.Keys;
      NothingEnumerated(items);
      while todo != {}
        invariant todo <= items.Keys
        invariant Enumerates(list, items - todo)
        decreases todo
      {
        var nonce :| nonce in todo;
        EnumeratesSnoc(list, items - todo, items[nonce]);
        assert items - (todo - {nonce}) == (items - todo)[nonce := items[nonce]];
        todo := todo - {nonce};
        list := list + [items[nonce]];
      }
      assert items - {} == items;
    }

    /** Builds the sorted cache if it is missing and returns a copy of it. */
    method Flatten() returns (txs: seq<Tx>)
      requires Valid()
      modifies this`cache
      ensures Valid()
      ensures Sorts(txs, items)
    {
      if cache.None? {
        var list := Values();
        var sorted := Heap.Sort(list, NonceKey);
        SortedEnumeration(list, sorted, items);
        cache := Some(sorted);
      }
      txs := cache.value;
    }

    /** The transaction of highest nonce. */
    method LastElement() returns (tx: Tx)
      requires Valid() && items != map[]
      modifies this`cache
      ensures Valid()
      ensures IsMax(items, tx.nonce) && items[tx.nonce] == tx
    {
      var txs := Flatten();
      SortsLast(txs, items, MaxKey(items));
      tx := txs[|txs| - 1];
    }
  }

  /** The price a replacement must reach, and the strict increase it must show. */
  predicate Outbids(tx: Tx, prev: Tx, priceBump: nat) {
    tx.gasPrice > prev.gasPrice && tx.gasPrice >= (100 + priceBump) * prev.gasPrice / 100
  }

  /** On the prices alone: a strict increase, and less than one below the bump in hundredths. */
  lemma OutbidsMeans(tx: Tx, prev: Tx, priceBump: nat)
    ensures Outbids(tx, prev, priceBump) <==>
            tx.gasPrice > prev.gasPrice && 100 * tx.gasPrice > (100 + priceBump) * prev.gasPrice - 100
  {
    BumpReached(tx.gasPrice, (100 + priceBump) * prev.gasPrice);
  }

  lemma BumpReached(price: nat, hundredths: nat)
    ensures price >= hundredths / 100 <==> 100 * price > hundredths - 100
  {
  }

  /** What Filter leaves behind, by a full scan: in strict mode nothing survives above the
      lowest unpayable nonce. */
  function FilterKept(m: Txs, strict: bool, cost: nat, gas: nat): (r: Txs) {
    if Unpayable(m, cost, gas) == map[] then m
    else if strict then Below(m, MinKey(Unpayable(m, cost, gas)))
    else Payable(m, cost, gas)
  }

  /** Kept is what is within both limits and, in strict mode, has nothing beyond them below it. */
  ghost predicate WithinLimits(m: Txs, strict: bool, cost: nat, gas: nat, kept: Txs) {
    forall n :: n in kept <==>
                && n in m && m[n].gas <= gas && m[n].cost <= cost
                && (strict ==> forall k :: k in m && k < n ==> m[k].gas <= gas && m[k].cost <= cost)
  }

  lemma FilterMeans(m: Txs, strict: bool, cost: nat, gas: nat)
    ensures WithinLimits(m, strict, cost, gas, FilterKept(m, strict, cost, gas))
  {
    var bad := Unpayable(m, cost, gas);
    assert forall k :: k in bad <==> k in m && !(m[k].gas <= gas && m[k].cost <= cost);
    assert bad != map[] ==> MinKey(bad) in bad && forall n :: n in bad ==> MinKey(bad) <= n;
    hide MinKey, Unpayable;
  }

  /** The payable transactions that strict mode takes out with the unpayable ones. */
  function FilterInvalid(m: Txs, strict: bool, cost: nat, gas: nat): (r: Txs) {
    if strict && Unpayable(m, cost, gas) != map[]
    then AtLeast(Payable(m, cost, gas), MinKey(Unpayable(m, cost, gas)))
    else map[]
  }

  /** The three parts of a full scan are disjoint and make up the list. */
  lemma FilterPartition(m: Txs, strict: bool, cost: nat, gas: nat)
    ensures FilterKept(m, strict, cost, gas).Keys + FilterInvalid(m, strict, cost, gas).Keys
            + Unpayable(m, cost, gas).Keys == m.Keys
    ensures FilterKept(m, strict, cost, gas).Keys !! FilterInvalid(m, strict, cost, gas).Keys
         !! Unpayable(m, cost, gas).Keys
    ensures forall n :: n in FilterKept(m, strict, cost, gas) ==> n in m && Affordable(m[n], cost, gas)
  {
    var bad := Unpayable(m, cost, gas);
    assert forall n :: n in m ==> n in bad || Affordable(m[n], cost, gas);
  }

  /** In strict mode every removal maps a contiguous nonce range to a contiguous one. */
  lemma StrictKeepsContiguous(m: Txs, t: nat, cost: nat, gas: nat)
    requires Contiguous(m)
    ensures Contiguous(Below(m, t)) && Contiguous(AtLeast(m, t)) && Contiguous(Lowest(m, t))
    ensures Contiguous(FilterKept(m, true, cost, gas))
  {
    hide Lowest;
    var l := Lowest(m, t);
    forall i, j, k | i in l && k in l && i <= j <= k
      ensures j in l
    {
      assert j in m;
    }
  }

  /** The caps bound the cost and gas of every member. */
  ghost predicate Capped(m: Txs, costcap: nat, gascap: nat) {
    forall n :: n in m ==> Affordable(m[n], costcap, gascap)
  }

  class TxList {
    const strict: bool
    const txs: TxSortedMap
    var costcap: nat
    var gascap: nat

    ghost function Contents(): Txs
      reads this, txs
    {
      txs.items
    }

    ghost predicate Valid()
      reads this, txs
    {
      txs.Valid() && Capped(txs.items, costcap, gascap)
    }

    constructor (strict: bool)
      ensures Valid() && fresh(txs) && Contents() == map[] && this.strict == strict
    {
      this.strict := strict;
      txs := new TxSortedMap();
      costcap, gascap := 0, 0;
    }

    /** Inserts tx unless a transaction of the same nonce is not sufficiently outbid. */
    method Add(tx: Tx, priceBump: nat) returns (inserted: bool, replaced: Option<Tx>)
      requires Valid()
      modifies this, txs
      ensures Valid()
      ensures inserted <==> tx.nonce in old(Contents()) ==> Outbids(tx, old(Contents())[tx.nonce], priceBump)
      ensures Contents() == if inserted then old(Contents())[tx.nonce := tx] else old(Contents())
      ensures replaced == if inserted && tx.nonce in old(Contents()) then Some(old(Contents())[tx.nonce]) else None
      ensures tx.nonce in old(Contents()) ==>
                var prev := old(Contents())[tx.nonce];
                inserted <==> tx.gasPrice > prev.gasPrice
                              && 100 * tx.gasPrice > (100 + priceBump) * prev.gasPrice - 100
    {
      if tx.nonce in txs.items {
        var o := txs.items[tx.nonce];
        OutbidsMeans(tx, o, priceBump);
        var threshold := (100 + priceBump) * o.gasPrice / 100;
        if o.gasPrice >= tx.gasPrice || tx.gasPrice < threshold {
          return false, None;
        }
        replaced := Some(o);
      } else {
        replaced := None;
      }
      txs.Put(tx);
      if costcap < tx.cost {
        costcap := tx.cost;
      }
      if gascap < tx.gas {
        gascap := tx.gas;
      }
      return true, replaced;
    }

    method Forward(threshold: nat) returns (removed: seq<Tx>)
      requires Valid()
      modifies txs
      ensures Valid()
      ensures Contents() == AtLeast(old(Contents()), threshold)
      ensures Sorts(removed, Below(old(Contents()), threshold))
    {
      hide Sorts;
      removed := txs.Forward(threshold);
    }

    /** Removes what the limits do not cover; the cap short-circuit never changes the result
        of the full scan. */
    method Filter(costLimit: nat, gasLimit: nat) returns (removed: seq<Tx>, invalids: seq<Tx>)
      requires Valid()
      modifies this, txs
      ensures Valid()
      ensures Contents() == FilterKept(old(Contents()), strict, costLimit, gasLimit)
      ensures Enumerates(removed, Unpayable(old(Contents()), costLimit, gasLimit))
      ensures Enumerates(invalids, FilterInvalid(old(Contents()), strict, costLimit, gasLimit))
      ensures WithinLimits(old(Contents()), strict, costLimit, gasLimit, Contents())
    {
      hide WithinLimits, Enumerates, FilterKept, FilterInvalid, Unpayable, Capped, Indexes, Sorts, Keyed, Heap.IsHeap;
      FilterMeans(txs.items, strict, costLimit, gasLimit);
      removed, invalids := Scan(costLimit, gasLimit);
    }

    /** The scan of Filter, with its short cut. */
    method Scan(costLimit: nat, gasLimit: nat) returns (removed: seq<Tx>, invalids: seq<Tx>)
      requires Valid()
      modifies this, txs
      ensures Valid()
      ensures Contents() == FilterKept(old(Contents()), strict, costLimit, gasLimit)
      ensures Enumerates(removed, Unpayable(old(Contents()), costLimit, gasLimit))
      ensures Enumerates(invalids, FilterInvalid(old(Contents()), strict, costLimit, gasLimit))
    {
      hide Enumerates, Indexes, Heap.IsHeap, Sorts, Capped, Unpayable, FilterKept, FilterInvalid, Without, Only, MinKey;
      ghost var was := txs.items;
      removed, invalids := [], [];
      FilterNothing(was, strict, costLimit, gasLimit, costcap, gascap);
      if costcap <= costLimit && gascap <= gasLimit {
        return;
      }
      costcap, gascap := costLimit, gasLimit;
      var over := (tx: Tx) => tx.gas > gasLimit || tx.cost > costLimit;
      removed := txs.Filter(over);
      FilterScan(was, strict, costLimit, gasLimit, over, removed);
      if |removed| == 0 {
        return;
      }
      if strict {
        var lowest := LowestNonce(removed, Unpayable(was, costLimit, gasLimit));
        ghost var kept := txs.items;
        var above := (tx: Tx) => tx.nonce > lowest;
        invalids := txs.FilterItems(above);
        StrictScan(was, costLimit, gasLimit, over, above, kept);
      }
      txs.Reheap();
    }

    method Cap(threshold: nat) returns (drops: seq<Tx>)
      requires Valid()
      modifies txs
      ensures Valid()
      ensures Contents() == Lowest(old(Contents()), threshold)
      ensures Enumerates(drops, old(Contents()) - Contents().Keys)
      ensures forall i, j :: 0 <= i < j < |drops| ==> drops[i].nonce > drops[j].nonce
    {
      hide Enumerates;
      drops := txs.Cap(threshold);
    }

    /** Removes the transaction of this nonce; in strict mode also everything above it. */
    method Remove(tx: Tx) returns (found: bool, invalids: seq<Tx>)
      requires Valid()
      modifies txs
      ensures Valid()
      ensures found == (tx.nonce in old(Contents()))
      ensures Contents() == if found && strict then Below(old(Contents()), tx.nonce) else old(Contents()) - {tx.nonce}
      ensures Enumerates(invalids, if found && strict then AtLeast(old(Contents()), tx.nonce + 1) else map[])
    {
      hide Enumerates, Indexes, Heap.IsHeap, Sorts, Capped, Without, Only, Below, AtLeast, Keyed;
      ghost var was := txs.items;
      invalids := [];
      found := txs.Remove(tx.nonce);
      RemoveOne(was, tx.nonce, costcap, gascap);
      if found && strict {
        ghost var rest := txs.items;
        var above := (t: Tx) => t.nonce > tx.nonce;
        invalids := txs.Filter(above);
        RemoveScan(was, above, tx.nonce, costcap, gascap);
      }
    }

    method Ready(start: nat) returns (ready: seq<Tx>)
      requires Valid()
      modifies txs
      ensures Valid()
      ensures Contents() == AfterReady(old(Contents()), start)
      ensures Sorts(ready, ReadyPart(old(Contents()), start))
    {
      hide Sorts, ReadyEnd;
      ready := txs.Ready(start);
    }
  }

  // ----- proof steps -----

  lemma FilterNothing(was: Txs, strict: bool, cost: nat, gas: nat, costcap: nat, gascap: nat)
    requires Capped(was, costcap, gascap)
    ensures Enumerates([], map[])
    ensures costcap <= cost && gascap <= gas ==>
              && FilterKept(was, strict, cost, gas) == was && FilterInvalid(was, strict, cost, gas) == map[]
              && Unpayable(was, cost, gas) == map[]
  {
    assert costcap <= cost && gascap <= gas ==> Unpayable(was, cost, gas) == map[];
  }

  /** The first pass of Filter, and all of it when the list is not strict or nothing goes. */
  lemma FilterScan(was: Txs, strict: bool, cost: nat, gas: nat, over: Tx -> bool, removed: seq<Tx>)
    requires Enumerates(removed, Only(was, over)) && forall tx :: over(tx) <==> !Affordable(tx, cost, gas)
    ensures Only(was, over) == Unpayable(was, cost, gas)
    ensures Capped(Without(was, over), cost, gas)
    ensures !strict || removed == [] ==>
              && Without(was, over) == FilterKept(was, strict, cost, gas)
              && FilterInvalid(was, strict, cost, gas) == map[]
  {
    assert Only(was, over) == Unpayable(was, cost, gas);
    assert |removed| == |Unpayable(was, cost, gas)|;
    assert Without(was, over) == Payable(was, cost, gas);
    assert forall n :: n in was ==> n in Unpayable(was, cost, gas) || n in Payable(was, cost, gas);
  }

  lemma StrictScan(was: Txs, cost: nat, gas: nat, over: Tx -> bool, above: Tx -> bool, kept: Txs)
    requires Keyed(was) && Unpayable(was, cost, gas) != map[]
    requires kept == Without(was, over) && forall tx :: over(tx) <==> !Affordable(tx, cost, gas)
    requires forall tx :: above(tx) <==> tx.nonce > MinKey(Unpayable(was, cost, gas))
    ensures Without(kept, above) == FilterKept(was, true, cost, gas)
    ensures Only(kept, above) == FilterInvalid(was, true, cost, gas)
    ensures Capped(Without(kept, above), cost, gas)
  {
    hide MinKey;
    var bad := Unpayable(was, cost, gas);
    assert kept == Payable(was, cost, gas);
    assert forall n :: n in was ==> n in bad || n in kept;
    assert MinKey(bad) !in kept;
  }

  lemma RemoveOne(was: Txs, nonce: nat, costcap: nat, gascap: nat)
    requires Capped(was, costcap, gascap)
    ensures Capped(was - {nonce}, costcap, gascap)
    ensures Enumerates([], map[])
  {
  }

  lemma RemoveScan(was: Txs, above: Tx -> bool, nonce: nat, costcap: nat, gascap: nat)
    requires Keyed(was) && Capped(was, costcap, gascap) && forall tx :: above(tx) <==> tx.nonce > nonce
    ensures Without(was - {nonce}, above) == Below(was, nonce)
    ensures Only(was - {nonce}, above) == AtLeast(was, nonce + 1)
    ensures Capped(Below(was, nonce), costcap, gascap)
  {
  }

  /** The lowest nonce in a non-empty slice, found by scanning it. */
  method LowestNonce(removed: seq<Tx>, ghost m: Txs) returns (lowest: nat)
    requires Enumerates(removed, m) && |removed| > 0
    ensures m != map[] && lowest == MinKey(m)
  {
    lowest := removed[0].nonce;
    for i := 0 to |removed|
      invariant lowest in m
      invariant forall j :: 0 <= j < i ==> lowest <= removed[j].nonce
    {
      if lowest > removed[i].nonce {
        lowest := removed[i].nonce;
      }
    }
    EnumeratesAll(removed, m);
    assert IsMin(m, lowest);
  }

  lemma EnumeratesAll(s: seq<Tx>, m: Txs)
    requires Enumerates(s, m)
    ensures forall n :: n in m ==> exists i :: 0 <= i < |s| && s[i].nonce == n
  {
    DistinctNonces(s);
    SubsetSameSize(NonceSet(s), m.Keys);
    forall n | n in m
      ensures exists i :: 0 <= i < |s| && s[i].nonce == n
    {
      assert n in NonceSet(s);
    }
  }

  lemma {:induction false} DistinctNonces(s: seq<Tx>)
    requires forall i, j :: 0 <= i < j < |s| ==> s[i].nonce != s[j].nonce
    ensures |NonceSet(s)| == |s|
  {
    if s == [] {
      assert NonceSet(s) == {};
    } else {
      var k := |s| - 1;
      DistinctNonces(s[..k]);
      assert NonceSet(s) == NonceSet(s[..k]) + {s[k].nonce};
    }
  }

  function Without(m: Txs, f: Tx -> bool): (r: Txs) {
    map n | n in m && !f(m[n]) :: m[n]
  }

  function Only(m: Txs, f: Tx -> bool): (r: Txs) {
    map n | n in m && f(m[n]) :: m[n]
  }

  /** Popping in nonce order so far: `removed` sorts what has left `was`, all below t. */
  ghost predicate ForwardState(was: Txs, t: nat, m: Txs, removed: seq<Tx>) {
    && (forall n :: n in m ==> n in was && was[n] == m[n])
    && (forall n :: n in was && t <= n ==> n in m)
    && Sorts(removed, was - m.Keys)
    && (forall i, n :: 0 <= i < |removed| && n in m ==> removed[i].nonce < n)
  }

  lemma SortsSnoc(s: seq<Tx>, m: Txs, tx: Tx)
    requires Sorts(s, m) && tx.nonce !in m
    requires forall i :: 0 <= i < |s| ==> s[i].nonce < tx.nonce
    ensures Sorts(s + [tx], m[tx.nonce := tx])
  {
  }

  lemma ForwardStart(was: Txs, t: nat)
    ensures ForwardState(was, t, was, [])
  {
    assert was - was.Keys == map[];
  }

  lemma ForwardStep(was: Txs, t: nat, m: Txs, removed: seq<Tx>, k: nat)
    requires ForwardState(was, t, m, removed) && Keyed(was) && IsMin(m, k) && k < t
    ensures ForwardState(was, t, m - {k}, removed + [m[k]])
  {
    SortsSnoc(removed, was - m.Keys, m[k]);
    assert was - (m - {k}).Keys == (was - m.Keys)[k := m[k]];
  }

  lemma ForwardDone(was: Txs, t: nat, m: Txs, removed: seq<Tx>)
    requires ForwardState(was, t, m, removed)
    requires m == map[] || MinKey(m) >= t
    ensures m == AtLeast(was, t)
    ensures Sorts(removed, Below(was, t))
  {
    assert forall n :: n in m ==> t <= n;
    assert was - m.Keys == Below(was, t);
  }

  /** The nonces from the lowest one up to `next` have been taken out, without a gap. */
  ghost predicate ReadyState(was: Txs, next: nat, m: Txs, ready: seq<Tx>) {
    && Keyed(was) && was != map[]
    && (forall k :: MinKey(was) <= k < next ==> k in was)
    && MinKey(was) <= next
    && m == AtLeast(was, next)
    && Sorts(ready, Below(was, next))
  }

  lemma ReadyStart(was: Txs, first: nat)
    requires Keyed(was) && IsMin(was, first)
    ensures ReadyState(was, first, was, [])
  {
    assert Below(was, first) == map[];
  }

  lemma ReadyStep(was: Txs, next: nat, m: Txs, ready: seq<Tx>)
    requires ReadyState(was, next, m, ready) && IsMin(m, next)
    ensures ReadyState(was, next + 1, m - {next}, ready + [m[next]])
  {
    hide MinKey, Sorts, Below;
    SortsBelow(ready, was, next);
  }

  lemma BelowGrows(m: Txs, n: nat)
    requires n in m
    ensures Below(m, n + 1) == Below(m, n)[n := m[n]] && n !in Below(m, n)
  {
  }

  lemma SortedBelow(s: seq<Tx>, m: Txs, n: nat)
    requires Sorts(s, Below(m, n))
    ensures forall i :: 0 <= i < |s| ==> s[i].nonce < n
  {
  }

  /** Appending the next nonce sorts the next larger prefix. */
  lemma SortsBelow(s: seq<Tx>, m: Txs, n: nat)
    requires n in m && m[n].nonce == n && Sorts(s, Below(m, n))
    ensures Sorts(s + [m[n]], Below(m, n + 1))
  {
    hide Sorts, Below;
    BelowGrows(m, n);
    SortedBelow(s, m, n);
    SortsSnoc(s, Below(m, n), m[n]);
  }

  /** When the lowest remaining nonce is not `next`, the run has ended there. */
  lemma ReadyDone(was: Txs, start: nat, next: nat, m: Txs, ready: seq<Tx>)
    requires ReadyState(was, next, m, ready) && MinKey(was) <= start
    requires m == map[] || !IsMin(m, next)
    ensures m == AfterReady(was, start)
    ensures Sorts(ready, ReadyPart(was, start))
  {
    assert next in was ==> next in m;
    RunEndUnique(was, MinKey(was), next);
  }

  lemma NothingReady(m: Txs, start: nat)
    requires m == map[] || MinKey(m) > start
    ensures AfterReady(m, start) == m
    ensures Sorts([], ReadyPart(m, start))
  {
    assert Below(m, 0) == map[];
    assert AtLeast(m, 0) == m;
  }

  lemma NothingEnumerated(m: Txs)
    ensures Enumerates([], m - m.Keys)
  {
    assert m - m.Keys == map[];
  }

  /** All nonces outside `todo` have been tested. */
  ghost predicate FilterState(was: Txs, f: Tx -> bool, todo: set<nat>, m: Txs, removed: seq<Tx>) {
    && todo <= was.Keys && Keyed(was)
    && (forall n :: n in m <==> n in was && (n in todo || !f(was[n])))
    && (forall n :: n in m ==> m[n] == was[n])
    && Enumerates(removed, was - m.Keys)
  }

  lemma FilterStart(was: Txs, f: Tx -> bool)
    requires Keyed(was)
    ensures FilterState(was, f, was.Keys, was, [])
  {
    assert was - was.Keys == map[];
  }

  lemma FilterStep(was: Txs, f: Tx -> bool, todo: set<nat>, m: Txs, removed: seq<Tx>, k: nat)
    requires FilterState(was, f, todo, m, removed) && k in todo
    ensures k in m
    ensures f(m[k]) ==> FilterState(was, f, todo - {k}, m - {k}, removed + [m[k]])
    ensures !f(m[k]) ==> FilterState(was, f, todo - {k}, m, removed)
  {
    if f(m[k]) {
      EnumeratesSnoc(removed, was - m.Keys, m[k]);
      assert was - (m - {k}).Keys == (was - m.Keys)[k := m[k]];
    }
  }

  lemma FilterDone(was: Txs, f: Tx -> bool, m: Txs, removed: seq<Tx>)
    requires FilterState(was, f, {}, m, removed)
    ensures m == Without(was, f) && Keyed(m)
    ensures Enumerates(removed, Only(was, f))
  {
    hide Enumerates;
    assert was - m.Keys == Only(was, f);
  }

  lemma EnumeratesSnoc(s: seq<Tx>, m: Txs, tx: Tx)
    requires Enumerates(s, m) && tx.nonce !in m
    ensures Enumerates(s + [tx], m[tx.nonce := tx])
  {
  }

  lemma IndexSize(index: seq<nat>, m: Txs)
    requires Indexes(index, m)
    ensures |index| == |m|
    decreases |index|
  {
    if index == [] {
      assert forall n :: n in m ==> multiset(index)[n] == 1;
      assert m == map[];
    } else {
      var last := |index| - 1;
      var n := index[last];
      assert index == index[..last] + [n];
      assert n in multiset(index);
      IndexSize(index[..last], m - {n});
      RemoveSize(m, n);
    }
  }

  ghost predicate SortedIndex(index: seq<nat>, m: Txs) {
    Keyed(m) && Indexes(index, m) && Heap.Ascending(index, Self)
  }

  /** The last nonce of a sorted index is the highest one. */
  lemma SortedIndexStep(index: seq<nat>, m: Txs)
    requires SortedIndex(index, m) && |index| > 0
    ensures IsMax(m, index[|index| - 1])
    ensures SortedIndex(index[..|index| - 1], m - {index[|index| - 1]})
  {
    var top := index[|index| - 1];
    assert index == index[..|index| - 1] + [top];
    assert top in multiset(index);
    forall n | n in m
      ensures n <= top
    {
      assert multiset(index)[n] == 1;
      var i :| 0 <= i < |index| && index[i] == n;
      assert i < |index| - 1 ==> Self(index[i]) <= Self(top);
    }
  }

  /** The `drops` are what has left `was`, from the highest nonce down. */
  ghost predicate CapState(was: Txs, m: Txs, drops: seq<Tx>, threshold: nat) {
    && Keyed(was)
    && (forall n :: n in m ==> n in was && was[n] == m[n])
    && Enumerates(drops, was - m.Keys)
    && (forall i, j :: 0 <= i < j < |drops| ==> drops[i].nonce > drops[j].nonce)
    && (forall i, n :: 0 <= i < |drops| && n in m ==> drops[i].nonce > n)
    && Lowest(m, threshold) == Lowest(was, threshold)
  }

  lemma CapStart(was: Txs, cache: Option<seq<Tx>>, index: seq<nat>, sorted: seq<nat>, threshold: nat)
    requires Keyed(was) && Indexes(index, was) && (cache.Some? ==> Sorts(cache.value, was))
    requires multiset(index) == multiset(sorted) && Heap.Ascending(sorted, Self)
    ensures |sorted| == |was| && SortedIndex(sorted[..|was|], was)
    ensures CapState(was, was, [], threshold) && CacheFront(was, cache, 0)
  {
    assert was - was.Keys == map[];
    assert cache.Some? ==> cache.value[..|cache.value|] == cache.value;
    IndexSize(sorted, was);
    assert sorted[..|was|] == sorted;
  }

  lemma CapStep(was: Txs, m: Txs, drops: seq<Tx>, top: nat, threshold: nat)
    requires CapState(was, m, drops, threshold) && IsMax(m, top) && |m| > threshold
    ensures CapState(was, m - {top}, drops + [m[top]], threshold)
    ensures |m - {top}| == |m| - 1
  {
    RemoveSize(m, top);
    LowestWithoutTop(m, top, threshold);
    hide Lowest, Enumerates;
    EnumeratesTaken(was, m, drops, top);
    CapOrder(m, drops, top);
  }

  lemma EnumeratesTaken(was: Txs, m: Txs, taken: seq<Tx>, k: nat)
    requires Keyed(was) && k in m && (forall n :: n in m ==> n in was && was[n] == m[n])
    requires Enumerates(taken, was - m.Keys)
    ensures Enumerates(taken + [m[k]], was - (m - {k}).Keys)
  {
    EnumeratesSnoc(taken, was - m.Keys, m[k]);
    hide Enumerates;
    assert was - (m - {k}).Keys == (was - m.Keys)[k := m[k]];
  }

  lemma CapOrder(m: Txs, drops: seq<Tx>, top: nat)
    requires IsMax(m, top) && m[top].nonce == top
    requires forall i, j :: 0 <= i < j < |drops| ==> drops[i].nonce > drops[j].nonce
    requires forall i, n :: 0 <= i < |drops| && n in m ==> drops[i].nonce > n
    ensures forall i, j :: 0 <= i < j < |drops + [m[top]]| ==> (drops + [m[top]])[i].nonce > (drops + [m[top]])[j].nonce
    ensures forall i, n :: 0 <= i < |drops + [m[top]]| && n in m - {top} ==> (drops + [m[top]])[i].nonce > n
  {
  }

  lemma LowestWithoutTop(m: Txs, top: nat, threshold: nat)
    requires IsMax(m, top) && |m| > threshold
    ensures Lowest(m - {top}, threshold) == Lowest(m, threshold)
  {
    assert MaxKey(m) == top;
  }

  lemma NothingCapped(m: Txs, threshold: nat)
    requires |m| <= threshold
    ensures m == Lowest(m, threshold)
    ensures Enumerates([], m - m.Keys)
  {
    assert m - m.Keys == map[];
  }

  lemma CapDone(was: Txs, m: Txs, drops: seq<Tx>, threshold: nat)
    requires CapState(was, m, drops, threshold) && |m| == threshold
    ensures m == Lowest(was, threshold)
    ensures Enumerates(drops, was - m.Keys)
    ensures forall i, j :: 0 <= i < j < |drops| ==> drops[i].nonce > drops[j].nonce
  {
    hide Enumerates;
  }

  /** The cache without its last d entries sorts m. */
  ghost predicate CacheFront(m: Txs, cache: Option<seq<Tx>>, d: nat) {
    cache.Some? ==> d <= |cache.value| && Sorts(cache.value[..|cache.value| - d], m)
  }

  lemma CacheFrontStep(m: Txs, cache: Option<seq<Tx>>, d: nat, top: nat)
    requires CacheFront(m, cache, d) && IsMax(m, top)
    ensures CacheFront(m - {top}, cache, d + 1)
  {
    if cache.Some? {
      var k := |cache.value| - d;
      SortsLast(cache.value[..k], m, top);
      assert cache.value[..k][..k - 1] == cache.value[..k - 1];
    }
  }

  /** Sorting an enumeration by nonce gives the sorted list. */
  lemma SortedEnumeration(list: seq<Tx>, sorted: seq<Tx>, m: Txs)
    requires Enumerates(list, m) && multiset(sorted) == multiset(list) && |sorted| == |list|
    requires Heap.Ascending(sorted, NonceKey)
    ensures Sorts(sorted, m)
  {
    forall i | 0 <= i < |sorted|
      ensures sorted[i].nonce in m && m[sorted[i].nonce] == sorted[i]
    {
      assert sorted[i] in multiset(list);
    }
    forall i, j | 0 <= i < j < |sorted|
      ensures sorted[i].nonce < sorted[j].nonce
    {
      if sorted[i].nonce == sorted[j].nonce {
        Heap.TwiceCounts(sorted, i, j);
        OnceEach(list, m, sorted[i]);
      } else {
        assert NonceKey(sorted[i]) <= NonceKey(sorted[j]);
      }
    }
  }

  lemma OnceEach(list: seq<Tx>, m: Txs, tx: Tx)
    requires Enumerates(list, m)
    ensures multiset(list)[tx] <= 1
  {
    DistinctOnce(list, tx);
  }

  lemma {:induction false} DistinctOnce(list: seq<Tx>, tx: Tx)
    requires forall i, j :: 0 <= i < j < |list| ==> list[i].nonce != list[j].nonce
    ensures multiset(list)[tx] <= 1
    decreases |list|
  {
    if list != [] {
      var n := |list| - 1;
      var front := list[..n];
      DistinctOnce(front, tx);
      assert list == front + [list[n]];
      if list[n] == tx {
        forall k | 0 <= k < n ensures front[k] != tx {
          assert list[k].nonce != list[n].nonce;
        }
        assert tx !in front;
      }
    }
  }
}

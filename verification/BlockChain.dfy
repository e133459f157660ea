/** The block chain's canonical table and transaction lookup through reorganisations. */
module BlockChain {
  import opened Transactions
  import opened Ancestry
  import opened HeaderChain

  type Bodies = map<Hash, seq<Hash>>

  /** Transaction t is in the block at height n of the chain ending in head. */
  ghost predicate InChain(headers: Headers, genesis: Hash, bodies: Bodies, head: Hash, n: nat, t: Hash)
    requires Rooted(headers, genesis) && head in headers && bodies.Keys == headers.Keys
  {
    n <= headers[head].number && t in bodies[AncestorAt(headers, genesis, head, n)]
  }

  /** No transaction occurs at two heights of the chain. */
  ghost predicate NoRepeat(headers: Headers, genesis: Hash, bodies: Bodies, head: Hash)
    requires Rooted(headers, genesis) && head in headers && bodies.Keys == headers.Keys
  {
    forall m: nat, n: nat, t ::
      InChain(headers, genesis, bodies, head, m, t) && InChain(headers, genesis, bodies, head, n, t) ==> m == n
  }

  /** The transaction lookup is what one recomputes from the head's ancestry. */
  ghost predicate LookupRight(headers: Headers, genesis: Hash, bodies: Bodies, lookup: map<Hash, nat>, head: Hash)
    requires Rooted(headers, genesis) && head in headers && bodies.Keys == headers.Keys
  {
    && (forall t :: t in lookup ==> InChain(headers, genesis, bodies, head, lookup[t], t))
    && (forall n: nat, t :: InChain(headers, genesis, bodies, head, n, t) ==> t in lookup && lookup[t] == n)
  }

  /** The lookup with the transactions of one block entered. */
  function Index(lookup: map<Hash, nat>, txs: seq<Hash>, number: nat): (r: map<Hash, nat>)
    ensures forall t :: t in r <==> t in lookup || t in txs
    ensures forall t :: t in r ==> r[t] == if t in txs then number else lookup[t]
  {
    lookup + map t | t in txs :: number
  }

  /** The height of the lowest common ancestor. */
  ghost predicate IsFork(headers: Headers, genesis: Hash, a: Hash, b: Hash, f: nat)
    requires Rooted(headers, genesis) && a in headers && b in headers
  {
    && f <= headers[a].number && f <= headers[b].number
    && AncestorAt(headers, genesis, a, f) == AncestorAt(headers, genesis, b, f)
    && forall n: nat :: f < n <= headers[a].number && n <= headers[b].number ==>
                          AncestorAt(headers, genesis, a, n) != AncestorAt(headers, genesis, b, n)
  }

  /** The hashes of the chain ending in head, from head down to height f + 1. */
  ghost predicate IsBranch(headers: Headers, genesis: Hash, head: Hash, f: nat, chain: seq<Hash>)
    requires Rooted(headers, genesis) && head in headers
  {
    && f <= headers[head].number && |chain| == headers[head].number - f
    && forall i :: 0 <= i < |chain| ==> chain[i] == AncestorAt(headers, genesis, head, headers[head].number - i)
  }

  /** o is an ancestor of head, and chain the blocks above it, head first. */
  ghost predicate Traced(headers: Headers, genesis: Hash, head: Hash, o: Hash, chain: seq<Hash>)
    requires Rooted(headers, genesis) && head in headers
  {
    && o in headers && headers[o].number <= headers[head].number
    && o == AncestorAt(headers, genesis, head, headers[o].number)
    && IsBranch(headers, genesis, head, headers[o].number, chain)
  }

  /** The two ancestries differ at every height in between. */
  ghost predicate Apart(headers: Headers, genesis: Hash, a: Hash, b: Hash, lo: nat, hi: nat)
    requires Rooted(headers, genesis) && a in headers && b in headers
  {
    && hi <= headers[a].number && hi <= headers[b].number
    && forall k: nat :: lo < k <= hi ==> AncestorAt(headers, genesis, a, k) != AncestorAt(headers, genesis, b, k)
  }

  lemma WalkStarts(headers: Headers, genesis: Hash, head: Hash)
    requires Rooted(headers, genesis) && head in headers
    ensures Traced(headers, genesis, head, head, [])
  {
    hide Rooted, AncestorAt;
    FirstSteps(headers, genesis, head);
  }

  lemma WalkBack(headers: Headers, genesis: Hash, head: Hash, o: Hash, chain: seq<Hash>)
    requires Rooted(headers, genesis) && head in headers && Traced(headers, genesis, head, o, chain)
             && headers[o].number > 0
    ensures Traced(headers, genesis, head, headers[o].parent, chain + [o])
    ensures headers[o].parent in headers && headers[headers[o].parent].number == headers[o].number - 1
  {
    hide Rooted, AncestorAt;
    ParentStep(headers, genesis, head, headers[o].number);
  }

  lemma StillApart(headers: Headers, genesis: Hash, a: Hash, b: Hash, o: Hash, n: Hash, aChain: seq<Hash>,
                   bChain: seq<Hash>, level: nat)
    requires Rooted(headers, genesis) && a in headers && b in headers && Traced(headers, genesis, a, o, aChain)
             && Traced(headers, genesis, b, n, bChain)
    requires headers[o].number == headers[n].number && o != n && Apart(headers, genesis, a, b, headers[o].number, level)
    ensures headers[o].number > 0 && Apart(headers, genesis, a, b, headers[o].number - 1, level)
  {
    hide Rooted, AncestorAt, IsBranch;
    GenesisAtZero(headers, genesis, a);
    GenesisAtZero(headers, genesis, b);
  }

  lemma WalksMeet(headers: Headers, genesis: Hash, a: Hash, b: Hash, o: Hash, aChain: seq<Hash>, bChain: seq<Hash>,
                  level: nat)
    requires Rooted(headers, genesis) && a in headers && b in headers && Traced(headers, genesis, a, o, aChain)
             && Traced(headers, genesis, b, o, bChain)
    requires Apart(headers, genesis, a, b, headers[o].number, level)
             && (level == headers[a].number || level == headers[b].number)
    ensures IsFork(headers, genesis, a, b, headers[o].number)
    ensures IsBranch(headers, genesis, a, headers[o].number, aChain)
    ensures IsBranch(headers, genesis, b, headers[o].number, bChain)
  {
    hide Rooted, AncestorAt, IsBranch;
  }

  /** The table is the head's ancestry at every height up to the head's; its entries are at exactly
      the heights up to top, so those above the head are left over from an earlier one. */
  ghost predicate TableTo(headers: Headers, genesis: Hash, canon: map<nat, Hash>, head: Hash, top: nat)
    requires Rooted(headers, genesis)
  {
    && head in headers && headers[head].number <= top
    && (forall n: nat :: n in canon <==> n <= top)
    && (forall n: nat :: n in canon && n <= headers[head].number ==> canon[n] == AncestorAt(headers, genesis, head, n))
  }

  /** The block's parent is on the chain ending in head, or the block is the genesis. */
  ghost predicate Beside(headers: Headers, genesis: Hash, head: Hash, h: Hash)
    requires Rooted(headers, genesis) && head in headers && h in headers
  {
    var n := headers[h].number;
    n == 0 || (n <= headers[head].number + 1 && AncestorAt(headers, genesis, head, n - 1) == headers[h].parent)
  }

  /** The highest entry after h has become the head: a block on top of the head deletes nothing,
      another block beside the head's chain leaves the old chain's entries, and any other none. */
  ghost function TopAfter(headers: Headers, genesis: Hash, head: Hash, top: nat, h: Hash): (r: nat)
    requires Rooted(headers, genesis) && head in headers && h in headers
    ensures headers[h].number <= r
  {
    var n0, n1 := headers[head].number, headers[h].number;
    if n1 > 0 && headers[h].parent == head then if n1 < top then top else n1
    else if Beside(headers, genesis, head, h) && n1 < n0 then n0
    else n1
  }

  class BlockChain {
    const genesis: Hash
    var headers: Headers
    var bodies: Bodies
    var td: map<Hash, nat>
    var canon: map<nat, Hash>
    var lookup: map<Hash, nat>
    var current: Hash

    ghost predicate Stored()
      reads this
    {
      Rooted(headers, genesis) && TdRight(headers, genesis, td) && bodies.Keys == headers.Keys && current in headers
    }

    /** Both indices are what one recomputes from the head. */
    ghost predicate Valid()
      reads this
    {
      && Stored()
      && CanonRight(headers, genesis, canon, current)
      && LookupRight(headers, genesis, bodies, lookup, current)
    }

    /** What holds after any operations: the lookup is right, and the table up to the head. */
    ghost predicate Sound(top: nat)
      reads this
    {
      && Stored()
      && TableTo(headers, genesis, canon, current, top)
      && LookupRight(headers, genesis, bodies, lookup, current)
    }

    constructor (g: Header, txs: seq<Hash>)
      requires g.number == 0
      ensures Valid() && genesis == g.hash && current == g.hash && Heaviest(headers, genesis, current)
    {
      genesis, current := g.hash, g.hash;
      headers, bodies, td, canon := map[g.hash := g], map[g.hash := txs], map[g.hash := g.difficulty], map[0 := g.hash];
      lookup := Index(map[], txs, 0);
      new;
      assert Rooted(headers, genesis);
      assert td.Keys == headers.Keys && bodies.Keys == headers.Keys;
    }

    /** Makes a block the head and enters it into both indices. */
    method WriteHeadBlock(h: Hash)
      requires h in headers && h in bodies
      modifies this`canon, this`lookup, this`current
      ensures current == h
      ensures canon == old(canon)[headers[h].number := h]
      ensures lookup == Index(old(lookup), bodies[h], headers[h].number)
    {
      canon := canon[headers[h].number := h];
      lookup := Index(lookup, bodies[h], headers[h].number);
      current := h;
    }

    /** Walks back from both heads to their lowest common ancestor, collecting the blocks of
        each side, head first. */
    method FindFork(oldHead: Hash, newHead: Hash) returns (oldChain: seq<Hash>, newChain: seq<Hash>, ghost f: nat)
      requires Rooted(headers, genesis) && oldHead in headers && newHead in headers
      ensures IsFork(headers, genesis, oldHead, newHead, f)
      ensures IsBranch(headers, genesis, oldHead, f, oldChain)
      ensures IsBranch(headers, genesis, newHead, f, newChain)
    {
      hide Rooted, AncestorAt, IsBranch, Traced;
      var o, n := oldHead, newHead;
      oldChain, newChain := [], [];
      WalkStarts(headers, genesis, oldHead);
      WalkStarts(headers, genesis, newHead);
      if headers[o].number > headers[n].number {
        while headers[o].number != headers[n].number
          invariant Traced(headers, genesis, oldHead, o, oldChain) && o in headers
          invariant headers[n].number <= headers[o].number
          decreases headers[o].number
        {
          WalkBack(headers, genesis, oldHead, o, oldChain);
          oldChain := oldChain + [o];
          o := headers[o].parent;
        }
      } else {
        while headers[n].number != headers[o].number
          invariant Traced(headers, genesis, newHead, n, newChain) && n in headers
          invariant headers[o].number <= headers[n].number
          decreases headers[n].number
        {
          WalkBack(headers, genesis, newHead, n, newChain);
          newChain := newChain + [n];
          n := headers[n].parent;
        }
      }
      ghost var level := headers[o].number;
      assert level == headers[oldHead].number || level == headers[newHead].number;
      while o != n
        invariant Traced(headers, genesis, oldHead, o, oldChain) && Traced(headers, genesis, newHead, n, newChain)
        invariant o in headers && n in headers && headers[o].number == headers[n].number <= level
        invariant Apart(headers, genesis, oldHead, newHead, headers[o].number, level)
        decreases headers[o].number
      {
        StillApart(headers, genesis, oldHead, newHead, o, n, oldChain, newChain, level);
        WalkBack(headers, genesis, oldHead, o, oldChain);
        WalkBack(headers, genesis, newHead, n, newChain);
        oldChain, newChain := oldChain + [o], newChain + [n];
        o, n := headers[o].parent, headers[n].parent;
      }
      f := headers[o].number;
      WalksMeet(headers, genesis, oldHead, newHead, o, oldChain, newChain, level);
    }

    /** Writes the blocks of the new branch below its head, lowest first. */
    method WriteBranch(newHead: Hash, newChain: seq<Hash>, ghost f: nat)
      requires Stored() && newHead in headers && IsBranch(headers, genesis, newHead, f, newChain)
      requires NoRepeat(headers, genesis, bodies, newHead)
      modifies this`canon, this`lookup, this`current
      ensures Rewrote(headers, genesis, bodies, old(canon), old(lookup), newHead, f,
                      WrittenTo(headers[newHead].number, f), canon, lookup)
      ensures current == if f + 2 <= headers[newHead].number then headers[newHead].parent else old(current)
    {
      hide Rooted, AncestorAt, Rewrote, NoRepeat;
      var i := |newChain| - 1;
      ghost var n1 := headers[newHead].number;
      RewroteStart(headers, genesis, bodies, canon, lookup, newHead, f);
      if i >= 1 {
        ParentStep(headers, genesis, newHead, n1);
        FirstSteps(headers, genesis, newHead);
      }
      while i >= 1
        invariant -1 <= i < |newChain| && (|newChain| > 0 ==> i >= 0)
        invariant |newChain| <= 1 ==> current == old(current)
        invariant Rewrote(headers, genesis, bodies, old(canon), old(lookup), newHead, f, if i < 0 then f
                          else n1 - i - 1, canon, lookup)
        invariant i == |newChain| - 1 || current == newChain[i + 1]
      {
        RewroteStep(headers, genesis, bodies, old(canon), old(lookup), newHead, f, n1 - i, canon, lookup);
        WriteHeadBlock(newChain[i]);
        i := i - 1;
      }
    }

    /** Drops the lookup entries of transactions that left the chain. */
    method DropLookups(deleted: seq<Hash>, added: seq<Hash>)
      modifies this`lookup
      ensures lookup == old(lookup) - Difference(deleted, added)
    {
      var gone := TxDifference(deleted, added);
      var i := 0;
      while i < |gone|
        invariant i <= |gone|
        invariant lookup == old(lookup) - set t | t in gone[..i]
      {
        assert gone[..i + 1] == gone[..i] + [gone[i]];
        lookup := lookup - {gone[i]};
        i := i + 1;
      }
      assert gone[..i] == gone;
      assert (set t | t in gone) == Difference(deleted, added);
    }

    /** Deletes the canonical entries above a height, up to the first missing one. */
    method CutAbove(number: nat)
      modifies this`canon
      ensures exists above: nat :: CutAt(old(canon), number, above, canon)
    {
      var above := number + 1;
      while above in canon
        invariant number < above && canon == Without(old(canon), number, above)
        decreases canon.Keys
      {
        assert above !in (canon - {above}).Keys;
        canon := canon - {above};
        above := above + 1;
      }
      assert CutAt(old(canon), number, above, canon);
    }

    method TxsOf(chain: seq<Hash>) returns (txs: seq<Hash>)
      requires forall h :: h in chain ==> h in bodies
      ensures forall t :: t in txs <==> InBranch(bodies, chain, t)
    {
      txs := [];
      var i := 0;
      while i < |chain|
        invariant i <= |chain|
        invariant forall t :: t in txs <==> InBranch(bodies, chain[..i], t)
      {
        assert chain[..i + 1] == chain[..i] + [chain[i]];
        txs := txs + bodies[chain[i]];
        i := i + 1;
      }
      assert chain[..i] == chain;
    }

    /** Switches from the current head to the branch of newHead, leaving newHead itself to be
        written.  The table is then right for the last block written, or for the old head, and
        nothing is left above. */
    method Reorg(newHead: Hash, ghost top: nat) returns (ghost f: nat)
      requires Sound(top) && newHead in headers
      requires NoRepeat(headers, genesis, bodies, current) && NoRepeat(headers, genesis, bodies, newHead)
      modifies this`canon, this`lookup, this`current
      ensures Stored() && IsFork(headers, genesis, old(current), newHead, f)
      ensures current == if f + 2 <= headers[newHead].number then headers[newHead].parent else old(current)
      ensures CanonRight(headers, genesis, canon, current)
      ensures LookupAlmost(headers, genesis, bodies, lookup, newHead)
    {
      hide Rooted, AncestorAt, Rewrote, NoRepeat, CanonRight, TableTo, LookupRight, LookupAlmost, TdRight, CutAt,
        IsFork, IsBranch, InBranch;
      ghost var oldHead := current;
      var oldChain, newChain;
      oldChain, newChain, f := FindFork(current, newHead);
      BranchStored(headers, genesis, oldHead, f, oldChain);
      BranchStored(headers, genesis, newHead, f, newChain);
      WriteBranch(newHead, newChain, f);
      ghost var written := lookup;
      var deleted := TxsOf(oldChain);
      var added := TxsOf(BelowHead(newChain));
      DropLookups(deleted, added);
      LookupCleaned(headers, genesis, bodies, old(canon), old(lookup), oldHead, newHead, f, oldChain, newChain,
                    deleted, added, canon, written);
      ParentInStore(headers, genesis, newHead);
      ghost var mid := canon;
      CutAbove(headers[current].number);
      ghost var above: nat :| CutAt(mid, headers[current].number, above, canon);
      CutIsRight(headers, genesis, bodies, old(canon), old(lookup), oldHead, top, newHead, f, mid, written, current,
                 above, canon);
    }

    /** Makes a stored block the head.  The lookup is always right afterwards, and so is the table
        up to the new head; entries are left above it exactly if the block is beside the old head's
        chain and lower, or on top of the old head and below entries already left over. */
    method WriteKnownBlock(h: Hash, ghost top: nat)
      requires Sound(top) && h in headers
      requires NoRepeat(headers, genesis, bodies, current) && NoRepeat(headers, genesis, bodies, h)
      modifies this`canon, this`lookup, this`current
      ensures current == h && Sound(TopAfter(headers, genesis, old(current), top, h))
      ensures Valid() <==> TopAfter(headers, genesis, old(current), top, h) == headers[h].number
      ensures old(Valid()) ==> (Valid() <==> !LowerSibling(headers, old(canon), old(current), h))
    {
      hide Rooted, AncestorAt, NoRepeat, CanonRight, TableTo, LookupRight, LookupAlmost, TdRight, IsFork, LowerSibling,
        IsCanonical, Index, TopAfter;
      ghost var oldHead, canon0 := current, canon;
      RightTable(headers, genesis, canon, current, top);
      SiblingTop(headers, genesis, canon, current, top, h);
      // The genesis names no stored block as its parent.
      if headers[h].number == 0 || headers[h].parent != current {
        ghost var f := Reorg(h, top);
        HeadWritten(headers, genesis, oldHead, top, h, f, current, canon);
      } else {
        ExtendsHead(headers, genesis, bodies, lookup, canon, current, top, h);
      }
      HeadIndexed(headers, genesis, bodies, lookup, h);
      WriteHeadBlock(h);
      RightTable(headers, genesis, canon, h, TopAfter(headers, genesis, oldHead, top, h));
    }

    /** Stores a block and, when the fork choice prefers it, makes it the head. */
    method WriteBlockWithState(b: Header, txs: seq<Hash>, keepCurrent: bool, keepBlock: bool, coin: bool,
                               ghost top: nat)
      returns (status: WriteStatus)
      requires Sound(top) && NoRepeats(headers, genesis, bodies) && b.difficulty > 0
      requires b.hash in headers ==> headers[b.hash] == b && bodies[b.hash] == txs
      requires b.parent in headers ==> NotYet(headers, genesis, bodies, b.parent, txs)
      modifies this
      ensures status == NonStat <==> !Attaches(old(headers), b)
      ensures status == NonStat ==> unchanged(this)
      ensures status != NonStat ==>
                && Stored() && NoRepeats(headers, genesis, bodies)
                && headers == old(headers)[b.hash := b] && bodies == old(bodies)[b.hash := txs]
                && old(current) in headers
                && TotalDifficulty(headers, genesis, old(current)) <= TotalDifficulty(headers, genesis, current)
                && (status == CanonStat <==>
                    Wins(TotalDifficulty(headers, genesis, b.hash), TotalDifficulty(headers, genesis, old(current)),
                         b.number, headers[old(current)].number, !keepCurrent && (keepBlock || coin)))
                && current == (if status == CanonStat then b.hash else old(current))
                && Sound(if status == CanonStat then TopAfter(headers, genesis, old(current), top, b.hash) else top)
                && (old(Valid()) ==>
                      (Valid() <==> status == SideStat || !LowerSibling(headers, old(canon), old(current), b.hash)))
      ensures status != NonStat ==>
                && old(current) in headers
                && var theirs, ours := TotalDifficulty(headers, genesis, b.hash),
                                       TotalDifficulty(headers, genesis, old(current));
                var n, m := b.number, old(headers)[old(current)].number;
                status == if theirs != ours then (if theirs > ours then CanonStat else SideStat)
                          else if n != m then (if n < m then CanonStat else SideStat)
                          else if !keepCurrent && (keepBlock || coin) then CanonStat else SideStat
      ensures old(Heaviest(headers, genesis, current)) ==> Heaviest(headers, genesis, current)
    {
      hide Rooted, AncestorAt, TotalDifficulty, NoRepeats, CanonRight, TableTo, LookupRight, TdRight, LowerSibling,
        NotYet, NoRepeat, TopAfter, Heaviest;
      if !(b.parent in headers && headers[b.parent].number + 1 == b.number) {
        return NonStat;
      }
      TdKeys(headers, genesis, td);
      var localTd, externTd := td[current], td[b.parent] + b.difficulty;
      StoreBlock(headers, genesis, bodies, td, canon, lookup, current, top, b, txs);
      RightTable(headers, genesis, canon, current, top);
      headers, bodies, td := headers[b.hash := b], bodies[b.hash := txs], td[b.hash := externTd];
      RightTable(headers, genesis, canon, current, top);
      TdLookup(headers, genesis, td, b.hash);
      TdLookup(headers, genesis, td, current);
      if Heaviest(old(headers), genesis, current) {
        StaysHeaviest(old(headers), headers, genesis, current, b.hash, !keepCurrent && (keepBlock || coin));
      }
      var reorg := externTd > localTd;
      if !reorg && externTd == localTd {
        if b.number < headers[current].number {
          reorg := true;
        } else if b.number == headers[current].number {
          reorg := !keepCurrent && (keepBlock || coin);
        }
      }
      if !reorg {
        return SideStat;
      }
      RepeatsAt(headers, genesis, bodies, current);
      RepeatsAt(headers, genesis, bodies, b.hash);
      WriteKnownBlock(b.hash, top);
      status := CanonStat;
    }

    /** Whole runs: blocks of one tree arriving in any order.  The stored blocks and the head are
        those the arrivals determine, the head stays the heaviest stored block, the lookup is right, the table is the
        head's ancestry up to the head, and what is left above is also determined. */
    method Import(arrivals: seq<Arrival>, ghost top: nat, ghost tree: Headers, ghost txs: Bodies)
      requires Sound(top) && NoRepeats(headers, genesis, bodies)
      requires Rooted(tree, genesis) && txs.Keys == tree.Keys && NoRepeats(tree, genesis, txs)
               && Within(headers, bodies, tree, txs)
      requires AllOf(tree, genesis, arrivals) && forall a :: a in arrivals ==> txs[a.block.hash] == a.txs
      modifies this
      ensures Within(headers, bodies, tree, txs) && current in tree && old(current) in tree
      ensures TotalDifficulty(tree, genesis, old(current)) <= TotalDifficulty(tree, genesis, current)
      ensures var r := Received(tree, genesis, Replica(old(headers), old(current), top), arrivals);
              headers == r.headers && current == r.head && Sound(r.top) && (Valid() <==> r.top == tree[current].number)
      ensures old(Heaviest(headers, genesis, current)) ==> Heaviest(headers, genesis, current)
    {
      hide Rooted, AncestorAt, TotalDifficulty, NoRepeats, CanonRight, TableTo, LookupRight, TdRight, LowerSibling,
        NotYet, NoRepeat, Within, Wins, Received, AllOf, TopAfter, Heaviest;
      var i := 0;
      HeadWithin(headers, genesis, bodies, tree, txs, current);
      ghost var start, left: nat := Replica(headers, current, top), top;
      ReceivedNone(tree, genesis, start, arrivals);
      while i < |arrivals|
        invariant i <= |arrivals| && Sound(left)
        invariant old(Heaviest(headers, genesis, current)) ==> Heaviest(headers, genesis, current)
        invariant NoRepeats(headers, genesis, bodies) && Within(headers, bodies, tree, txs)
        invariant current in tree
                  && TotalDifficulty(tree, genesis, old(current)) <= TotalDifficulty(tree, genesis, current)
        invariant AllOf(tree, genesis, arrivals[..i])
                  && Replica(headers, current, left) == Received(tree, genesis, start, arrivals[..i])
      {
        var a := arrivals[i];
        ArrivesNext(tree, genesis, start, arrivals, i);
        Arrives(headers, genesis, bodies, tree, txs, a);
        ghost var head0, left0 := current, left;
        HeadWithin(headers, genesis, bodies, tree, txs, current);
        var status := WriteBlockWithState(a.block, a.txs, a.keepCurrent, a.keepBlock, a.coin, left);
        if status != NonStat {
          HeadWithin(headers, genesis, bodies, tree, txs, head0);
          HeadWithin(headers, genesis, bodies, tree, txs, current);
          HeadWithin(headers, genesis, bodies, tree, txs, a.block.hash);
          TopStable(headers, genesis, bodies, tree, txs, head0, left, a.block.hash);
          left := if status == CanonStat then TopAfter(headers, genesis, head0, left0, a.block.hash) else left0;
        }
        i := i + 1;
      }
      assert arrivals[..i] == arrivals;
      RightTable(headers, genesis, canon, current, left);
      HeadWithin(headers, genesis, bodies, tree, txs, current);
    }
  }

  /** What a node has stored, its head, and the highest entry of its table. */
  datatype Replica = Replica(headers: Headers, head: Hash, top: nat)

  /** The arriving blocks are blocks of the tree other than the genesis. */
  ghost predicate AllOf(tree: Headers, genesis: Hash, arrivals: seq<Arrival>) {
    forall a :: a in arrivals ==> a.block.hash in tree && tree[a.block.hash] == a.block && a.block.hash != genesis
  }

  /** The block has its parent stored and wins the fork choice against the head. */
  ghost predicate Preferred(tree: Headers, genesis: Hash, st: Replica, a: Arrival)
    requires Rooted(tree, genesis) && st.head in tree && a.block.hash in tree
  {
    Attaches(st.headers, a.block) &&
    Wins(TotalDifficulty(tree, genesis, a.block.hash), TotalDifficulty(tree, genesis, st.head),
         a.block.number, tree[st.head].number, !a.keepCurrent && (a.keepBlock || a.coin))
  }

  /** What the arrivals make of a node: blocks without a stored parent are ignored, the others are
      stored, and the head follows the fork choice. */
  ghost function Received(tree: Headers, genesis: Hash, st: Replica, arrivals: seq<Arrival>): (r: Replica)
    requires Rooted(tree, genesis) && st.head in tree && AllOf(tree, genesis, arrivals)
    ensures r.head in tree
  {
    if arrivals == [] then st
    else
      var before, a := Received(tree, genesis, st, arrivals[..|arrivals| - 1]), arrivals[|arrivals| - 1];
      if !Attaches(before.headers, a.block) then before
      else if !Preferred(tree, genesis, before, a) then before.(headers := before.headers[a.block.hash := a.block])
      else Replica(before.headers[a.block.hash := a.block], a.block.hash,
                   TopAfter(tree, genesis, before.head, before.top, a.block.hash))
  }

  /** Arrival k is adopted although it is lower than the head and beside the head's own chain. */
  ghost predicate StaleAt(tree: Headers, genesis: Hash, st: Replica, arrivals: seq<Arrival>, k: nat)
    requires Rooted(tree, genesis) && st.head in tree && AllOf(tree, genesis, arrivals) && k < |arrivals|
  {
    var before, h := Received(tree, genesis, st, arrivals[..k]), arrivals[k].block.hash;
    Preferred(tree, genesis, before, arrivals[k]) && Beside(tree, genesis, before.head, h)
    && tree[h].number < tree[before.head].number
  }

  /** A table with nothing left over stays so until the first arrival adopted as a lower sibling,
      and with that one it no longer is. */
  lemma {:induction false} FirstStale(tree: Headers, genesis: Hash, st: Replica, arrivals: seq<Arrival>)
    requires Rooted(tree, genesis) && st.head in tree && AllOf(tree, genesis, arrivals)
             && st.top == tree[st.head].number
    requires forall k :: 0 <= k < |arrivals| - 1 ==> !StaleAt(tree, genesis, st, arrivals, k)
    ensures var r := Received(tree, genesis, st, arrivals);
            r.top == tree[r.head].number <==>
            (arrivals == [] || !StaleAt(tree, genesis, st, arrivals, |arrivals| - 1))
  {
    hide Rooted, AncestorAt, Wins, Beside, TopAfter;
    if arrivals != [] {
      var n := |arrivals| - 1;
      ArrivesNext(tree, genesis, st, arrivals, n);
      forall k | 0 <= k < n ensures !StaleAt(tree, genesis, st, arrivals[..n], k) {
        assert arrivals[..n][..k] == arrivals[..k];
        assert !StaleAt(tree, genesis, st, arrivals, k);
      }
      FirstStale(tree, genesis, st, arrivals[..n]);
      assert arrivals[..n + 1] == arrivals;
      TopFromRight(tree, genesis, Received(tree, genesis, st, arrivals[..n]).head, arrivals[n].block.hash);
    }
  }

  /** From a right table, a lower block beside the head's chain is the one case that leaves entries. */
  lemma TopFromRight(headers: Headers, genesis: Hash, head: Hash, h: Hash)
    requires Rooted(headers, genesis) && head in headers && h in headers
    ensures TopAfter(headers, genesis, head, headers[head].number, h) == headers[h].number <==>
            !(Beside(headers, genesis, head, h) && headers[h].number < headers[head].number)
  {
    hide AncestorAt;
    assert headers[h].number > 0 ==> ParentStored(headers, h);
  }

  lemma ReceivedNone(tree: Headers, genesis: Hash, st: Replica, arrivals: seq<Arrival>)
    requires Rooted(tree, genesis) && st.head in tree && AllOf(tree, genesis, arrivals)
    ensures AllOf(tree, genesis, arrivals[..0]) && Received(tree, genesis, st, arrivals[..0]) == st
  {
  }

  lemma ArrivesNext(tree: Headers, genesis: Hash, st: Replica, arrivals: seq<Arrival>, i: nat)
    requires Rooted(tree, genesis) && st.head in tree && AllOf(tree, genesis, arrivals) && i < |arrivals|
    ensures AllOf(tree, genesis, arrivals[..i]) && AllOf(tree, genesis, arrivals[..i + 1])
    ensures var a := arrivals[i]; a.block.hash in tree && tree[a.block.hash] == a.block && a.block.hash != genesis
    ensures var before, a := Received(tree, genesis, st, arrivals[..i]), arrivals[i];
            && Received(tree, genesis, st, arrivals[..i + 1]) ==
               (if !Attaches(before.headers, a.block) then before
                else if !Preferred(tree, genesis, before, a)
                then before.(headers := before.headers[a.block.hash := a.block])
                else Replica(before.headers[a.block.hash := a.block], a.block.hash,
                             TopAfter(tree, genesis, before.head, before.top, a.block.hash)))
  {
    hide Rooted, Preferred, TopAfter;
    assert arrivals[i] in arrivals;
    assert arrivals[..i + 1][..i] == arrivals[..i];
  }

  /** What is left over depends only on the ancestries of the two blocks. */
  lemma TopStable(headers: Headers, genesis: Hash, bodies: Bodies, tree: Headers, txs: Bodies, head: Hash, top: nat,
                  h: Hash)
    requires Rooted(headers, genesis) && Rooted(tree, genesis) && Within(headers, bodies, tree, txs)
    requires head in headers && h in headers
    ensures head in tree && h in tree
    ensures TopAfter(headers, genesis, head, top, h) == TopAfter(tree, genesis, head, top, h)
  {
    hide Rooted, AncestorAt;
    if 0 < headers[h].number <= headers[head].number + 1 {
      AncestorStable(headers, tree, genesis, head, headers[h].number - 1);
    }
  }

  /** The table is right exactly if nothing is left over. */
  lemma RightTable(headers: Headers, genesis: Hash, canon: map<nat, Hash>, head: Hash, top: nat)
    requires Rooted(headers, genesis) && TableTo(headers, genesis, canon, head, top)
    ensures CanonRight(headers, genesis, canon, head) <==> top == headers[head].number
  {
    hide Rooted, AncestorAt;
    assert top in canon;
  }

  /** A lower sibling can be read off the table. */
  lemma SiblingTop(headers: Headers, genesis: Hash, canon: map<nat, Hash>, head: Hash, top: nat, h: Hash)
    requires Rooted(headers, genesis) && TableTo(headers, genesis, canon, head, top) && h in headers
    ensures LowerSibling(headers, canon, head, h) <==>
            Beside(headers, genesis, head, h) && headers[h].number < headers[head].number
    ensures top == headers[head].number ==>
              (TopAfter(headers, genesis, head, top, h) == headers[h].number <==>
               !LowerSibling(headers, canon, head, h))
  {
    hide Rooted, AncestorAt, TopAfter;
    TopFromRight(headers, genesis, head, h);
  }

  datatype Arrival = Arrival(block: Header, txs: seq<Hash>, keepCurrent: bool, keepBlock: bool, coin: bool)

  /** The stored blocks are blocks of the tree. */
  ghost predicate Within(headers: Headers, bodies: Bodies, tree: Headers, txs: Bodies) {
    && bodies.Keys == headers.Keys && txs.Keys == tree.Keys
    && forall x :: x in headers ==> x in tree && tree[x] == headers[x] && txs[x] == bodies[x]
  }

  lemma HeadWithin(headers: Headers, genesis: Hash, bodies: Bodies, tree: Headers, txs: Bodies, h: Hash)
    requires Rooted(headers, genesis) && Rooted(tree, genesis) && Within(headers, bodies, tree, txs) && h in headers
    ensures h in tree && tree[h] == headers[h]
            && TotalDifficulty(tree, genesis, h) == TotalDifficulty(headers, genesis, h)
  {
    AncestorStable(headers, tree, genesis, h, 0);
  }

  /** What an arriving block of the tree is entitled to. */
  lemma Arrives(headers: Headers, genesis: Hash, bodies: Bodies, tree: Headers, txs: Bodies, a: Arrival)
    requires Rooted(headers, genesis) && Rooted(tree, genesis) && Within(headers, bodies, tree, txs)
             && NoRepeats(tree, genesis, txs)
    requires a.block.hash in tree && tree[a.block.hash] == a.block && txs[a.block.hash] == a.txs
             && a.block.hash != genesis
    ensures a.block.difficulty > 0
    ensures a.block.hash in headers ==> headers[a.block.hash] == a.block && bodies[a.block.hash] == a.txs
    ensures a.block.parent in headers ==> NotYet(headers, genesis, bodies, a.block.parent, a.txs)
    ensures Within(headers[a.block.hash := a.block], bodies[a.block.hash := a.txs], tree, txs)
  {
    hide Rooted, AncestorAt, InChain, NoRepeats, NotYet;
    HasWork(tree, genesis, a.block.hash);
    if a.block.parent in headers {
      ArrivesFresh(headers, genesis, bodies, tree, txs, a.block);
    }
  }

  lemma HasWork(headers: Headers, genesis: Hash, h: Hash)
    requires Rooted(headers, genesis) && h in headers && h != genesis
    ensures headers[h].number > 0 && headers[h].difficulty > 0
  {
    assert headers[h].number > 0 ==> ParentStored(headers, h);
  }

  lemma ArrivesFresh(headers: Headers, genesis: Hash, bodies: Bodies, tree: Headers, txs: Bodies, b: Header)
    requires Rooted(headers, genesis) && Rooted(tree, genesis) && Within(headers, bodies, tree, txs)
             && NoRepeats(tree, genesis, txs)
    requires b.hash in tree && tree[b.hash] == b && b.number > 0 && b.parent in headers
    ensures NotYet(headers, genesis, bodies, b.parent, txs[b.hash])
  {
    hide Rooted, AncestorAt, InChain, NoRepeats;
    ParentInStore(tree, genesis, b.hash);
    FirstSteps(tree, genesis, b.hash);
    RepeatsAt(tree, genesis, txs, b.hash);
    forall n: nat, t | InChain(headers, genesis, bodies, b.parent, n, t) ensures t !in txs[b.hash] {
      ChainStable(headers, genesis, bodies, tree, txs, b.parent, n, t);
      ChainHeight(tree, genesis, txs, b.parent, n, t);
      AncestorTransitive(tree, genesis, b.hash, b.number - 1, n);
      ChainTx(tree, genesis, txs, b.parent, n, t);
      ChainTx(tree, genesis, txs, b.hash, n, t);
      ChainTx(tree, genesis, txs, b.hash, b.number, t);
    }
  }

  /** A tie that is lower than the head and next to the canonical chain does win, and leaves the
      old chain's upper entries behind. */
  lemma LowerTieBreaksTable()
    ensures var headers: Headers := map[0 := Header(0, 9, 0, 1), 1 := Header(1, 0, 1, 1), 2 := Header(2, 1, 2, 1),
                                        3 := Header(3, 0, 1, 2)];
            var canon: map<nat, Hash> := map[0 := 0, 1 := 1, 2 := 2];
            && Rooted(headers, 0) && CanonRight(headers, 0, canon, 2)
            && Wins(TotalDifficulty(headers, 0, 3), TotalDifficulty(headers, 0, 2), 1, 2, false)
            && LowerSibling(headers, canon, 2, 3)
  {
    var headers: Headers := map[0 := Header(0, 9, 0, 1), 1 := Header(1, 0, 1, 1), 2 := Header(2, 1, 2, 1),
                                3 := Header(3, 0, 1, 2)];
    assert ParentStored(headers, 1) && ParentStored(headers, 2) && ParentStored(headers, 3);
    assert Rooted(headers, 0);
    assert AncestorAt(headers, 0, 1, 0) == 0 && AncestorAt(headers, 0, 2, 0) == 0 && AncestorAt(headers, 0, 2, 1) == 1;
    assert TotalDifficulty(headers, 0, 0) == 1 && TotalDifficulty(headers, 0, 1) == 2;
  }

  /** The block is lower than the head and its parent is canonical (or it is the genesis). */
  predicate LowerSibling(headers: Headers, canon: map<nat, Hash>, head: Hash, h: Hash)
    requires head in headers && h in headers
  {
    && headers[h].number < headers[head].number
    && (headers[h].number > 0 ==> IsCanonical(canon, headers[h].parent, headers[h].number - 1))
  }

  ghost predicate NoRepeats(headers: Headers, genesis: Hash, bodies: Bodies)
    requires Rooted(headers, genesis) && bodies.Keys == headers.Keys
  {
    forall h :: h in headers ==> NoRepeat(headers, genesis, bodies, h)
  }

  /** None of the transactions is in the chain ending in head. */
  ghost predicate NotYet(headers: Headers, genesis: Hash, bodies: Bodies, head: Hash, txs: seq<Hash>)
    requires Rooted(headers, genesis) && head in headers && bodies.Keys == headers.Keys
  {
    forall n: nat, t :: InChain(headers, genesis, bodies, head, n, t) ==> t !in txs
  }

  lemma RepeatsAt(headers: Headers, genesis: Hash, bodies: Bodies, h: Hash)
    requires Rooted(headers, genesis) && bodies.Keys == headers.Keys && NoRepeats(headers, genesis, bodies)
             && h in headers
    ensures NoRepeat(headers, genesis, bodies, h)
  {
  }

  lemma TdKeys(headers: Headers, genesis: Hash, td: map<Hash, nat>)
    requires Rooted(headers, genesis) && TdRight(headers, genesis, td)
    ensures td.Keys == headers.Keys
  {
  }

  /** How far the new branch is written: all of it but the head, when there is more than the head. */
  function WrittenTo(n1: nat, f: nat): (k: nat)
    requires f <= n1
    ensures f <= k
  {
    if f + 2 <= n1 then n1 - 1 else f
  }

  /** A branch without its head. */
  function BelowHead(chain: seq<Hash>): (r: seq<Hash>)
    ensures forall h :: h in r ==> h in chain
  {
    if |chain| == 0 then [] else chain[1..]
  }

  function Without(canon: map<nat, Hash>, lo: nat, hi: nat): (r: map<nat, Hash>) {
    map n | n in canon && !(lo < n < hi) :: canon[n]
  }

  /** What is left when the entries above lo are deleted up to the first missing one. */
  ghost predicate CutAt(canon: map<nat, Hash>, lo: nat, above: nat, r: map<nat, Hash>) {
    lo < above && above !in canon && r == Without(canon, lo, above)
  }

  ghost predicate InBranch(bodies: Bodies, chain: seq<Hash>, t: Hash)
    requires forall h :: h in chain ==> h in bodies
  {
    exists i :: 0 <= i < |chain| && t in bodies[chain[i]]
  }

  ghost function Difference(a: seq<Hash>, b: seq<Hash>): set<Hash> {
    set t | t in a && t !in b
  }

  /** The transactions of a that are not in b, in order and with their multiplicity. */
  method TxDifference(a: seq<Hash>, b: seq<Hash>) returns (keep: seq<Hash>)
    ensures forall t :: multiset(keep)[t] == if t in b then 0 else multiset(a)[t]
    ensures forall t :: t in keep <==> t in Difference(a, b)
  {
    var remove := {};
    var i := 0;
    while i < |b|
      invariant i <= |b| && remove == set t | t in b[..i]
    {
      assert b[..i + 1] == b[..i] + [b[i]];
      remove := remove + {b[i]};
      i := i + 1;
    }
    assert b[..i] == b;
    keep, i := [], 0;
    while i < |a|
      invariant i <= |a|
      invariant forall t :: multiset(keep)[t] == if t in b then 0 else multiset(a[..i])[t]
    {
      assert a[..i + 1] == a[..i] + [a[i]];
      if a[i] !in remove {
        keep := keep + [a[i]];
      }
      i := i + 1;
    }
    assert a[..i] == a;
    forall t ensures t in keep <==> t in Difference(a, b) {
      assert t in keep <==> multiset(keep)[t] > 0;
      assert t in a <==> multiset(a)[t] > 0;
    }
  }

  /** The lookup is right for head except that head's own transactions may be missing. */
  ghost predicate LookupAlmost(headers: Headers, genesis: Hash, bodies: Bodies, lookup: map<Hash, nat>, head: Hash)
    requires Rooted(headers, genesis) && head in headers && bodies.Keys == headers.Keys
  {
    && (forall t :: t in lookup ==> InChain(headers, genesis, bodies, head, lookup[t], t))
    && (forall n: nat, t ::
          n < headers[head].number && InChain(headers, genesis, bodies, head, n, t) ==> t in lookup && lookup[t] == n)
  }

  /** Both indices with the branch of newHead from height f + 1 to k written over them. */
  ghost predicate Rewrote(headers: Headers, genesis: Hash, bodies: Bodies, canon0: map<nat, Hash>, lookup0: map<Hash,
                                                                                                                nat>,
                          newHead: Hash, f: nat, k: nat, canon: map<nat, Hash>, lookup: map<Hash, nat>)
    requires Rooted(headers, genesis) && newHead in headers && bodies.Keys == headers.Keys
  {
    && f <= k <= headers[newHead].number
    && RewroteTable(headers, genesis, canon0, newHead, f, k, canon)
    && RewroteLookup(headers, genesis, bodies, lookup0, newHead, f, k, lookup)
  }

  ghost predicate RewroteTable(headers: Headers, genesis: Hash, canon0: map<nat, Hash>, newHead: Hash, f: nat, k: nat,
                               canon: map<nat, Hash>)
    requires Rooted(headers, genesis) && newHead in headers && k <= headers[newHead].number
  {
    && (forall n: nat :: n in canon <==> n in canon0 || f < n <= k)
    && (forall n: nat :: n in canon ==> canon[n] == if f < n <= k then AncestorAt(headers, genesis, newHead, n)
                                                    else canon0[n])
  }

  ghost predicate RewroteLookup(headers: Headers, genesis: Hash, bodies: Bodies, lookup0: map<Hash, nat>,
                                newHead: Hash, f: nat, k: nat, lookup: map<Hash, nat>)
    requires Rooted(headers, genesis) && newHead in headers && bodies.Keys == headers.Keys
  {
    && (forall t :: t in lookup0 ==> t in lookup)
    && (forall n: nat, t :: f < n <= k && InChain(headers, genesis, bodies, newHead, n, t) ==> t in lookup
                                                                                               && lookup[t] == n)
    && (forall t :: t in lookup ==>
                      || (f < lookup[t] <= k && InChain(headers, genesis, bodies, newHead, lookup[t], t))
                      || (t in lookup0 && lookup[t] == lookup0[t]))
  }

  lemma RewroteStart(headers: Headers, genesis: Hash, bodies: Bodies, canon0: map<nat, Hash>, lookup0: map<Hash, nat>,
                     newHead: Hash, f: nat)
    requires Rooted(headers, genesis) && newHead in headers && bodies.Keys == headers.Keys
             && f <= headers[newHead].number
    ensures Rewrote(headers, genesis, bodies, canon0, lookup0, newHead, f, f, canon0, lookup0)
  {
  }

  lemma RewroteStep(headers: Headers, genesis: Hash, bodies: Bodies, canon0: map<nat, Hash>, lookup0: map<Hash, nat>,
                    newHead: Hash, f: nat, n: nat, canon: map<nat, Hash>, lookup: map<Hash, nat>)
    requires Rooted(headers, genesis) && newHead in headers && bodies.Keys == headers.Keys
             && f < n <= headers[newHead].number
    requires NoRepeat(headers, genesis, bodies, newHead)
    requires Rewrote(headers, genesis, bodies, canon0, lookup0, newHead, f, n - 1, canon, lookup)
    ensures var h := AncestorAt(headers, genesis, newHead, n);
            Rewrote(headers, genesis, bodies, canon0, lookup0, newHead, f, n, canon[n := h],
                    Index(lookup, bodies[h], n))
  {
    hide Rooted, AncestorAt, Index, RewroteLookup, RewroteTable, NoRepeat;
    LookupStep(headers, genesis, bodies, lookup0, newHead, f, n, lookup);
    TableStep(headers, genesis, canon0, newHead, f, n, canon);
  }

  lemma TableStep(headers: Headers, genesis: Hash, canon0: map<nat, Hash>, newHead: Hash, f: nat, n: nat,
                  canon: map<nat, Hash>)
    requires Rooted(headers, genesis) && newHead in headers && f < n <= headers[newHead].number
    requires RewroteTable(headers, genesis, canon0, newHead, f, n - 1, canon)
    ensures RewroteTable(headers, genesis, canon0, newHead, f, n, canon[n := AncestorAt(headers, genesis, newHead, n)])
  {
    hide Rooted, AncestorAt;
    var after := canon[n := AncestorAt(headers, genesis, newHead, n)];
    forall m: nat
      ensures m in after <==> m in canon0 || f < m <= n
      ensures m in after ==> after[m] == if f < m <= n then AncestorAt(headers, genesis, newHead, m) else canon0[m]
    {
      assert m != n ==> (m in after <==> m in canon) && (f < m <= n <==> f < m <= n - 1);
    }
  }

  lemma LookupStep(headers: Headers, genesis: Hash, bodies: Bodies, lookup0: map<Hash, nat>, newHead: Hash, f: nat,
                   n: nat, lookup: map<Hash, nat>)
    requires Rooted(headers, genesis) && newHead in headers && bodies.Keys == headers.Keys
             && f < n <= headers[newHead].number
    requires NoRepeat(headers, genesis, bodies, newHead)
    requires RewroteLookup(headers, genesis, bodies, lookup0, newHead, f, n - 1, lookup)
    ensures var h := AncestorAt(headers, genesis, newHead, n);
            RewroteLookup(headers, genesis, bodies, lookup0, newHead, f, n, Index(lookup, bodies[h], n))
  {
    hide Rooted, AncestorAt, Index, InChain;
    var txs := bodies[AncestorAt(headers, genesis, newHead, n)];
    var after := Index(lookup, txs, n);
    forall t ensures t in txs <==> InChain(headers, genesis, bodies, newHead, n, t) {
      ChainTx(headers, genesis, bodies, newHead, n, t);
    }
    forall m: nat, t | f < m <= n && InChain(headers, genesis, bodies, newHead, m, t) ensures t in after
                                                                                              && after[t] == m {
      if m < n {
        assert t !in txs;
      }
    }
  }

  lemma ChainTx(headers: Headers, genesis: Hash, bodies: Bodies, head: Hash, n: nat, t: Hash)
    requires Rooted(headers, genesis) && head in headers && bodies.Keys == headers.Keys && n <= headers[head].number
    ensures InChain(headers, genesis, bodies, head, n, t) <==> t in bodies[AncestorAt(headers, genesis, head, n)]
  {
  }

  lemma BranchStored(headers: Headers, genesis: Hash, head: Hash, f: nat, chain: seq<Hash>)
    requires Rooted(headers, genesis) && head in headers && IsBranch(headers, genesis, head, f, chain)
    ensures forall h :: h in chain ==> h in headers
    ensures f <= headers[head].number && |chain| == headers[head].number - f
  {
  }

  lemma ParentInStore(headers: Headers, genesis: Hash, h: Hash)
    requires Rooted(headers, genesis) && h in headers
    ensures headers[h].number > 0 ==> headers[h].parent in headers
                                      && headers[headers[h].parent].number == headers[h].number - 1
  {
    assert headers[h].number > 0 ==> ParentStored(headers, h);
  }

  lemma BelowFork(headers: Headers, genesis: Hash, a: Hash, b: Hash, f: nat, n: nat)
    requires Rooted(headers, genesis) && a in headers && b in headers && IsFork(headers, genesis, a, b, f) && n <= f
    ensures AncestorAt(headers, genesis, a, n) == AncestorAt(headers, genesis, b, n)
  {
    AncestorTransitive(headers, genesis, a, f, n);
    AncestorTransitive(headers, genesis, b, f, n);
  }

  /** A branch holds the transactions of the chain at its heights. */
  lemma BranchTxs(headers: Headers, genesis: Hash, bodies: Bodies, head: Hash, f: nat, chain: seq<Hash>, skip: nat,
                  t: Hash)
    requires Rooted(headers, genesis) && head in headers && bodies.Keys == headers.Keys
    requires IsBranch(headers, genesis, head, f, chain) && skip <= |chain|
    requires forall h :: h in chain ==> h in headers
    ensures forall h :: h in chain[skip..] ==> h in headers
    ensures InBranch(bodies, chain[skip..], t) <==>
            exists n: nat :: f < n <= headers[head].number - skip && InChain(headers, genesis, bodies, head, n, t)
  {
    hide Rooted, AncestorAt;
    var n1 := headers[head].number;
    assert forall h :: h in chain[skip..] ==> h in chain;
    if InBranch(bodies, chain[skip..], t) {
      var i :| 0 <= i < |chain[skip..]| && t in bodies[chain[skip..][i]];
      assert chain[skip..][i] == chain[skip + i];
      assert InChain(headers, genesis, bodies, head, n1 - skip - i, t);
    }
    if n: nat :| f < n <= n1 - skip && InChain(headers, genesis, bodies, head, n, t) {
      assert chain[n1 - n] == chain[skip..][n1 - n - skip];
    }
  }

  /** After the clean-up every remaining entry is right for the new chain... */
  lemma CleanedSound(headers: Headers, genesis: Hash, bodies: Bodies, canon0: map<nat, Hash>, lookup0: map<Hash, nat>,
                     oldHead: Hash, newHead: Hash, f: nat, k: nat, canon: map<nat, Hash>, written: map<Hash, nat>,
                     t: Hash)
    requires Rooted(headers, genesis) && oldHead in headers && newHead in headers && bodies.Keys == headers.Keys
    requires LookupRight(headers, genesis, bodies, lookup0, oldHead) && IsFork(headers, genesis, oldHead, newHead, f)
    requires Rewrote(headers, genesis, bodies, canon0, lookup0, newHead, f, k, canon, written)
    requires t in written
    requires (exists n: nat :: f < n <= headers[oldHead].number && InChain(headers, genesis, bodies, oldHead, n, t)) ==>
               (exists n: nat :: f < n <= k && InChain(headers, genesis, bodies, newHead, n, t))
    ensures InChain(headers, genesis, bodies, newHead, written[t], t)
  {
    hide Rooted, AncestorAt;
    if !(f < written[t] <= k && InChain(headers, genesis, bodies, newHead, written[t], t)) {
      var n := lookup0[t];
      if n <= f {
        BelowFork(headers, genesis, oldHead, newHead, f, n);
      }
    }
  }

  /** ... and no entry of the new chain below its head is missing. */
  lemma CleanedComplete(headers: Headers, genesis: Hash, bodies: Bodies, canon0: map<nat, Hash>, lookup0: map<Hash,
                                                                                                              nat>,
                        oldHead: Hash, newHead: Hash, f: nat, k: nat, canon: map<nat, Hash>, written: map<Hash, nat>,
                        n: nat, t: Hash)
    requires Rooted(headers, genesis) && oldHead in headers && newHead in headers && bodies.Keys == headers.Keys
    requires NoRepeat(headers, genesis, bodies, oldHead) && NoRepeat(headers, genesis, bodies, newHead)
    requires LookupRight(headers, genesis, bodies, lookup0, oldHead) && IsFork(headers, genesis, oldHead, newHead, f)
    requires Rewrote(headers, genesis, bodies, canon0, lookup0, newHead, f, k, canon, written)
    requires n <= k && InChain(headers, genesis, bodies, newHead, n, t)
    ensures t in written && written[t] == n
    ensures (exists m: nat :: f < m <= headers[oldHead].number
                              && InChain(headers, genesis, bodies, oldHead, m, t)) ==> f < n
  {
    hide Rooted, AncestorAt;
    if n <= f {
      BelowFork(headers, genesis, oldHead, newHead, f, n);
      assert InChain(headers, genesis, bodies, oldHead, n, t);
    }
  }

  lemma LookupCleaned(headers: Headers, genesis: Hash, bodies: Bodies, canon0: map<nat, Hash>, lookup0: map<Hash, nat>,
                      oldHead: Hash, newHead: Hash, f: nat, oldChain: seq<Hash>, newChain: seq<Hash>,
                      deleted: seq<Hash>, added: seq<Hash>, canon: map<nat, Hash>, written: map<Hash, nat>)
    requires Rooted(headers, genesis) && oldHead in headers && newHead in headers && bodies.Keys == headers.Keys
    requires NoRepeat(headers, genesis, bodies, oldHead) && NoRepeat(headers, genesis, bodies, newHead)
    requires LookupRight(headers, genesis, bodies, lookup0, oldHead) && IsFork(headers, genesis, oldHead, newHead, f)
    requires IsBranch(headers, genesis, oldHead, f, oldChain) && IsBranch(headers, genesis, newHead, f, newChain)
    requires (forall h :: h in oldChain ==> h in headers) && (forall h :: h in newChain ==> h in headers)
    requires Rewrote(headers, genesis, bodies, canon0, lookup0, newHead, f, WrittenTo(headers[newHead].number, f),
                     canon, written)
    requires forall t :: t in deleted <==> InBranch(bodies, oldChain, t)
    requires forall t :: t in added <==> InBranch(bodies, BelowHead(newChain), t)
    ensures LookupAlmost(headers, genesis, bodies, written - Difference(deleted, added), newHead)
  {
    hide Rooted, AncestorAt, Rewrote, NoRepeat, LookupRight, IsFork, IsBranch, InBranch, InChain;
    var n0, n1 := headers[oldHead].number, headers[newHead].number;
    BranchLength(headers, genesis, oldHead, newHead, f, newChain);
    var k := WrittenTo(n1, f);
    forall t
      ensures t in deleted <==> exists n: nat :: f < n <= n0 && InChain(headers, genesis, bodies, oldHead, n, t)
      ensures t in added <==> exists n: nat :: f < n <= k && InChain(headers, genesis, bodies, newHead, n, t)
    {
      assert oldChain[0..] == oldChain;
      BranchTxs(headers, genesis, bodies, oldHead, f, oldChain, 0, t);
      BranchTxs(headers, genesis, bodies, newHead, f, newChain, if |newChain| == 0 then 0 else 1, t);
      assert newChain == [] ==> newChain[0..] == [];
    }
    var left := written - Difference(deleted, added);
    forall t | t in left ensures InChain(headers, genesis, bodies, newHead, left[t], t) {
      CleanedSound(headers, genesis, bodies, canon0, lookup0, oldHead, newHead, f, k, canon, written, t);
    }
    forall n: nat, t | n < n1 && InChain(headers, genesis, bodies, newHead, n, t) ensures t in left && left[t] == n {
      CleanedComplete(headers, genesis, bodies, canon0, lookup0, oldHead, newHead, f, k, canon, written, n, t);
    }
  }

  lemma BranchLength(headers: Headers, genesis: Hash, oldHead: Hash, newHead: Hash, f: nat, newChain: seq<Hash>)
    requires Rooted(headers, genesis) && oldHead in headers && newHead in headers
             && IsFork(headers, genesis, oldHead, newHead, f)
    requires IsBranch(headers, genesis, newHead, f, newChain)
    ensures f <= headers[oldHead].number && f <= headers[newHead].number && |newChain| == headers[newHead].number - f
  {
  }

  /** Cutting the rewritten table above its head leaves exactly that head's ancestry. */
  lemma CutIsRight(headers: Headers, genesis: Hash, bodies: Bodies, canon0: map<nat, Hash>, lookup0: map<Hash, nat>,
                   oldHead: Hash, top: nat, newHead: Hash, f: nat, mid: map<nat, Hash>, written: map<Hash, nat>,
                   head: Hash, above: nat, canon: map<nat, Hash>)
    requires Rooted(headers, genesis) && oldHead in headers && newHead in headers && bodies.Keys == headers.Keys
    requires TableTo(headers, genesis, canon0, oldHead, top) && IsFork(headers, genesis, oldHead, newHead, f)
    requires Rewrote(headers, genesis, bodies, canon0, lookup0, newHead, f, WrittenTo(headers[newHead].number, f),
                     mid, written)
    requires head == if f + 2 <= headers[newHead].number then headers[newHead].parent else oldHead
    requires head in headers && CutAt(mid, headers[head].number, above, canon)
    ensures CanonRight(headers, genesis, canon, head)
  {
    hide Rooted, AncestorAt;
    var n1 := headers[newHead].number;
    if f + 2 <= n1 {
      ParentInStore(headers, genesis, newHead);
      FirstSteps(headers, genesis, newHead);
      forall n: nat | n < n1 ensures AncestorAt(headers, genesis, head, n) == AncestorAt(headers, genesis, newHead, n) {
        AncestorTransitive(headers, genesis, newHead, n1 - 1, n);
      }
      forall n: nat | n <= f ensures AncestorAt(headers, genesis, oldHead, n) == AncestorAt(headers, genesis, newHead,
                                                                                            n) {
        BelowFork(headers, genesis, oldHead, newHead, f, n);
      }
    }
  }

  /** The fork lies below the block's parent exactly when the parent is not on the head's chain. */
  lemma ForkByParent(headers: Headers, genesis: Hash, oldHead: Hash, h: Hash, f: nat)
    requires Rooted(headers, genesis) && oldHead in headers && h in headers
    requires IsFork(headers, genesis, oldHead, h, f)
    ensures f + 2 <= headers[h].number <==> !Beside(headers, genesis, oldHead, h)
  {
    hide Rooted, AncestorAt;
    FirstSteps(headers, genesis, h);
    if 0 < headers[h].number <= f + 1 {
      BelowFork(headers, genesis, oldHead, h, f, headers[h].number - 1);
    }
  }

  /** Writing the head over the table that the reorganisation left. */
  lemma HeadWritten(headers: Headers, genesis: Hash, oldHead: Hash, top: nat, h: Hash, f: nat, head: Hash,
                    canon: map<nat, Hash>)
    requires Rooted(headers, genesis) && oldHead in headers && h in headers
             && (headers[h].number == 0 || headers[h].parent != oldHead)
    requires IsFork(headers, genesis, oldHead, h, f)
    requires head == if f + 2 <= headers[h].number then headers[h].parent else oldHead
    requires CanonRight(headers, genesis, canon, head)
    ensures TableTo(headers, genesis, canon[headers[h].number := h], h, TopAfter(headers, genesis, oldHead, top, h))
  {
    hide Rooted, AncestorAt;
    var n1 := headers[h].number;
    ForkByParent(headers, genesis, oldHead, h, f);
    FirstSteps(headers, genesis, h);
    FirstSteps(headers, genesis, oldHead);
    ParentInStore(headers, genesis, h);
    forall n: nat | n < n1
      ensures AncestorAt(headers, genesis, h, n) == AncestorAt(headers, genesis, head, n)
    {
      if f + 2 <= n1 {
        AncestorTransitive(headers, genesis, h, n1 - 1, n);
      } else {
        BelowFork(headers, genesis, oldHead, h, f, n);
      }
    }
  }

  lemma ExtendsHead(headers: Headers, genesis: Hash, bodies: Bodies, lookup: map<Hash, nat>, canon: map<nat, Hash>,
                    head: Hash, top: nat, h: Hash)
    requires Rooted(headers, genesis) && h in headers && headers[h].number > 0 && headers[h].parent == head
             && bodies.Keys == headers.Keys
    requires TableTo(headers, genesis, canon, head, top) && LookupRight(headers, genesis, bodies, lookup, head)
    ensures TableTo(headers, genesis, canon[headers[h].number := h], h, TopAfter(headers, genesis, head, top, h))
    ensures LookupAlmost(headers, genesis, bodies, lookup, h)
  {
    hide Rooted, AncestorAt;
    var n1 := headers[h].number;
    FirstSteps(headers, genesis, h);
    ParentInStore(headers, genesis, h);
    forall n: nat | n < n1 ensures AncestorAt(headers, genesis, h, n) == AncestorAt(headers, genesis, head, n) {
      AncestorTransitive(headers, genesis, h, n1 - 1, n);
    }
    forall n: nat, t | n < n1
      ensures InChain(headers, genesis, bodies, h, n, t) <==> InChain(headers, genesis, bodies, head, n, t)
    {
    }
  }

  lemma HeadIndexed(headers: Headers, genesis: Hash, bodies: Bodies, lookup: map<Hash, nat>, h: Hash)
    requires Rooted(headers, genesis) && h in headers && bodies.Keys == headers.Keys
    requires NoRepeat(headers, genesis, bodies, h) && LookupAlmost(headers, genesis, bodies, lookup, h)
    ensures LookupRight(headers, genesis, bodies, Index(lookup, bodies[h], headers[h].number), h)
  {
    hide Rooted, AncestorAt, Index, InChain;
    var n1 := headers[h].number;
    FirstSteps(headers, genesis, h);
    var after := Index(lookup, bodies[h], n1);
    forall t ensures t in bodies[h] <==> InChain(headers, genesis, bodies, h, n1, t) {
      ChainTx(headers, genesis, bodies, h, n1, t);
    }
    forall n: nat, t | InChain(headers, genesis, bodies, h, n, t) ensures n <= n1 && t in after && after[t] == n {
      ChainHeight(headers, genesis, bodies, h, n, t);
    }
  }

  lemma ChainHeight(headers: Headers, genesis: Hash, bodies: Bodies, head: Hash, n: nat, t: Hash)
    requires Rooted(headers, genesis) && head in headers && bodies.Keys == headers.Keys
             && InChain(headers, genesis, bodies, head, n, t)
    ensures n <= headers[head].number
  {
  }

  /** Adding a block changes nothing in the chains already stored. */
  lemma ChainStable(headers: Headers, genesis: Hash, bodies: Bodies, more: Headers, moreBodies: Bodies, h: Hash,
                    n: nat, t: Hash)
    requires Rooted(headers, genesis) && h in headers && bodies.Keys == headers.Keys
    requires Rooted(more, genesis) && moreBodies.Keys == more.Keys
    requires forall x :: x in headers ==> x in more && more[x] == headers[x] && moreBodies[x] == bodies[x]
    ensures InChain(more, genesis, moreBodies, h, n, t) <==> InChain(headers, genesis, bodies, h, n, t)
  {
    if n <= headers[h].number {
      AncestorStable(headers, more, genesis, h, n);
    }
  }

  /** A stored block with new transactions keeps every chain free of repeats. */
  lemma NewChainDistinct(headers: Headers, genesis: Hash, bodies: Bodies, more: Headers, moreBodies: Bodies, b: Header)
    requires Rooted(headers, genesis) && bodies.Keys == headers.Keys && NoRepeats(headers, genesis, bodies)
    requires Rooted(more, genesis) && moreBodies.Keys == more.Keys && b.hash in more && more[b.hash] == b
    requires forall x :: x in headers ==> x in more && more[x] == headers[x] && moreBodies[x] == bodies[x]
    requires Attaches(headers, b) && NotYet(headers, genesis, bodies, b.parent, moreBodies[b.hash])
    ensures NoRepeat(more, genesis, moreBodies, b.hash)
  {
    hide Rooted, AncestorAt, InChain;
    forall n: nat, t | InChain(more, genesis, moreBodies, b.hash, n, t)
      ensures if n < b.number then InChain(headers, genesis, bodies, b.parent, n, t) else n == b.number
                                                                                          && t in moreBodies[b.hash]
    {
      ChainHeight(more, genesis, moreBodies, b.hash, n, t);
      ChainTx(more, genesis, moreBodies, b.hash, n, t);
      FirstSteps(more, genesis, b.hash);
      if n < b.number {
        AncestorTransitive(more, genesis, b.hash, b.number - 1, n);
        ChainTx(more, genesis, moreBodies, b.parent, n, t);
        ChainStable(headers, genesis, bodies, more, moreBodies, b.parent, n, t);
      }
    }
    RepeatsAt(headers, genesis, bodies, b.parent);
  }

  lemma StoreBlock(headers: Headers, genesis: Hash, bodies: Bodies, td: map<Hash, nat>, canon: map<nat, Hash>,
                   lookup: map<Hash, nat>, head: Hash, top: nat, b: Header, txs: seq<Hash>)
    requires Rooted(headers, genesis) && TdRight(headers, genesis, td) && bodies.Keys == headers.Keys
    requires TableTo(headers, genesis, canon, head, top) && LookupRight(headers, genesis, bodies, lookup, head)
    requires NoRepeats(headers, genesis, bodies) && b.difficulty > 0 && Attaches(headers, b)
    requires b.hash in headers ==> headers[b.hash] == b && bodies[b.hash] == txs
    requires NotYet(headers, genesis, bodies, b.parent, txs)
    ensures b.parent in td && head in td && td[b.hash := td[b.parent] + b.difficulty][head] == td[head]
    ensures var more, moreBodies := headers[b.hash := b], bodies[b.hash := txs];
            && Rooted(more, genesis) && TdRight(more, genesis, td[b.hash := td[b.parent] + b.difficulty])
            && moreBodies.Keys == more.Keys && head in more && more[head] == headers[head]
            && TableTo(more, genesis, canon, head, top) && LookupRight(more, genesis, moreBodies, lookup, head)
            && NoRepeats(more, genesis, moreBodies)
  {
    hide Rooted, AncestorAt, InChain, NotYet, NoRepeat, TdRight, TotalDifficulty;
    TdKeys(headers, genesis, td);
    var more, moreBodies := headers[b.hash := b], bodies[b.hash := txs];
    if b.hash in headers {
      KnownTd(headers, genesis, td, b);
      assert more == headers && moreBodies == bodies;
    } else {
      AddOne(headers, genesis, td, b);
      forall h, n: nat, t | h in headers
        ensures InChain(more, genesis, moreBodies, h, n, t) <==> InChain(headers, genesis, bodies, h, n, t)
      {
        ChainStable(headers, genesis, bodies, more, moreBodies, h, n, t);
      }
      forall h | h in headers ensures NoRepeat(more, genesis, moreBodies, h) {
        RepeatsAt(headers, genesis, bodies, h);
        SameRepeats(headers, genesis, bodies, more, moreBodies, h);
      }
      NewChainDistinct(headers, genesis, bodies, more, moreBodies, b);
      forall n: nat | n <= headers[head].number
        ensures AncestorAt(more, genesis, head, n) == AncestorAt(headers, genesis, head, n)
      {
        AncestorStable(headers, more, genesis, head, n);
      }
    }
  }

  lemma SameRepeats(headers: Headers, genesis: Hash, bodies: Bodies, more: Headers, moreBodies: Bodies, h: Hash)
    requires Rooted(headers, genesis) && h in headers && bodies.Keys == headers.Keys
    requires Rooted(more, genesis) && h in more && moreBodies.Keys == more.Keys && NoRepeat(headers, genesis, bodies, h)
    requires forall n: nat, t :: InChain(more, genesis, moreBodies, h, n, t) <==>
                                 InChain(headers, genesis, bodies, h, n, t)
    ensures NoRepeat(more, genesis, moreBodies, h)
  {
    hide Rooted, InChain;
  }

  lemma KnownTd(headers: Headers, genesis: Hash, td: map<Hash, nat>, b: Header)
    requires Rooted(headers, genesis) && TdRight(headers, genesis, td) && b.hash in headers && headers[b.hash] == b
             && Attaches(headers, b)
    ensures b.parent in td && td[b.hash := td[b.parent] + b.difficulty] == td
  {
    hide Rooted, TdRight;
    TdOfKnown(headers, genesis, td, b);
  }
}

/** The header chain: headers with their total difficulties, the canonical number -> hash
    table, and the head. The database is a set of maps; batches are applied atomically. */
module HeaderChain {
  import opened Transactions
  import opened Ancestry

  /** Every header has its total difficulty recorded. */
  ghost predicate TdRight(headers: Headers, genesis: Hash, td: map<Hash, nat>)
    requires Rooted(headers, genesis)
  {
    td.Keys == headers.Keys && forall h :: h in headers ==> td[h] == TotalDifficulty(headers, genesis, h)
  }

  /** The canonical table is the parent walk from the head, with nothing above it. */
  ghost predicate CanonRight(headers: Headers, genesis: Hash, canon: map<nat, Hash>, head: Hash)
    requires Rooted(headers, genesis)
  {
    && head in headers
    && (forall n: nat :: n in canon <==> n <= headers[head].number)
    && (forall n: nat :: n in canon && n <= headers[head].number ==> canon[n] == AncestorAt(headers, genesis, head, n))
  }

  /** No header was built on the head. */
  ghost predicate Leaf(headers: Headers, head: Hash) {
    forall h :: h in headers && headers[h].number > 0 ==> headers[h].parent != head
  }

  /** What validation guarantees of a batch: contiguous, linked, with work on every header,
      and with hashes that determine headers. */
  ghost predicate Contiguous(batch: seq<Header>) {
    && (forall i :: 0 <= i < |batch| ==> batch[i].difficulty > 0 && batch[i].number > 0)
    && (forall i :: 0 < i < |batch| ==> Follows(batch[i - 1], batch[i]))
    && (forall i, j :: 0 <= i < j < |batch| ==> batch[i].hash != batch[j].hash)
  }

  predicate Follows(parent: Header, child: Header) {
    child.parent == parent.hash && child.number == parent.number + 1
  }

  ghost predicate Fits(headers: Headers, batch: seq<Header>) {
    forall i :: 0 <= i < |batch| && batch[i].hash in headers ==> headers[batch[i].hash] == batch[i]
  }

  predicate Attaches(headers: Headers, first: Header) {
    first.parent in headers && headers[first.parent].number + 1 == first.number
  }

  /** more is the store with the first i headers of the batch added. */
  ghost predicate Extended(headers: Headers, batch: seq<Header>, i: nat, more: Headers)
    requires i <= |batch|
  {
    && (forall h :: h in headers ==> h in more && more[h] == headers[h])
    && (forall j :: 0 <= j < i ==> batch[j].hash in more && more[batch[j].hash] == batch[j])
    && (forall h :: h in more && h !in headers ==> exists j :: 0 <= j < i && batch[j].hash == h)
  }

  /** Adding one attached header keeps the store rooted and the difficulties right. */
  lemma AddOne(headers: Headers, genesis: Hash, td: map<Hash, nat>, h: Header)
    requires Rooted(headers, genesis) && TdRight(headers, genesis, td)
    requires Attaches(headers, h) && h.difficulty > 0 && h.number > 0 && h.hash !in headers
    ensures var more := headers[h.hash := h];
            Rooted(more, genesis) && TdRight(more, genesis, td[h.hash := td[h.parent] + h.difficulty])
    ensures h.hash !in td
  {
    var more := headers[h.hash := h];
    RootedAdd(headers, genesis, h);
    hide Rooted;
    var td' := td[h.hash := td[h.parent] + h.difficulty];
    assert td'.Keys == more.Keys;
    forall x | x in more
      ensures td'[x] == TotalDifficulty(more, genesis, x)
    {
      AncestorStable(headers, more, genesis, if x in headers then x else h.parent, 0);
    }
  }

  lemma RootedAdd(headers: Headers, genesis: Hash, h: Header)
    requires Rooted(headers, genesis) && Attaches(headers, h) && h.difficulty > 0 && h.number > 0 && h.hash !in headers
    ensures Rooted(headers[h.hash := h], genesis)
  {
    var more := headers[h.hash := h];
    forall x | x in more && more[x].number > 0
      ensures ParentStored(more, x)
    {
      assert x != h.hash ==> ParentStored(headers, x);
    }
  }

  lemma ExtendedStep(headers: Headers, batch: seq<Header>, i: nat, more: Headers)
    requires i < |batch| && Extended(headers, batch, i, more) && Fits(headers, batch)
    requires forall j, k :: 0 <= j < k < |batch| ==> batch[j].hash != batch[k].hash
    ensures batch[i].hash in headers ==> Extended(headers, batch, i + 1, more)
    ensures batch[i].hash !in headers ==> batch[i].hash !in more
                                          && Extended(headers, batch, i + 1, more[batch[i].hash := batch[i]])
  {
    var x := batch[i].hash;
    if x !in headers {
      assert forall j :: 0 <= j < i ==> batch[j].hash != x;
      var plus := more[x := batch[i]];
      forall h | h in plus && h !in headers
        ensures exists j :: 0 <= j < i + 1 && batch[j].hash == h
      {
        if h == x {
          assert batch[i].hash == h;
        } else {
          var j :| 0 <= j < i && batch[j].hash == h;
        }
      }
    } else {
      forall h | h in more && h !in headers
        ensures exists j :: 0 <= j < i + 1 && batch[j].hash == h
      {
        var j :| 0 <= j < i && batch[j].hash == h;
      }
    }
  }

  /** Nothing after an unknown header of a batch is known. */
  lemma {:induction false} UnknownStaysUnknown(headers: Headers, genesis: Hash, batch: seq<Header>, i: nat, j: nat)
    requires Rooted(headers, genesis) && Contiguous(batch) && Fits(headers, batch)
    requires i <= j < |batch| && batch[i].hash !in headers
    ensures batch[j].hash !in headers
    decreases j - i
  {
    if i < j {
      UnknownStaysUnknown(headers, genesis, batch, i, j - 1);
      assert Follows(batch[j - 1], batch[j]);
      assert batch[j].hash in headers ==> ParentStored(headers, batch[j].hash);
    }
  }

  /** The ancestors of a batch's last header: first the batch, then its parent's ancestors. */
  lemma {:induction false} BatchAncestor(more: Headers, genesis: Hash, batch: seq<Header>, n: nat)
    requires Rooted(more, genesis) && batch != [] && Contiguous(batch)
    requires forall i :: 0 <= i < |batch| ==> batch[i].hash in more && more[batch[i].hash] == batch[i]
    requires n <= batch[|batch| - 1].number
    ensures var last := batch[|batch| - 1];
            && last.number == batch[0].number + |batch| - 1
            && (n >= batch[0].number ==> AncestorAt(more, genesis, last.hash, n) == batch[n - batch[0].number].hash)
            && (n < batch[0].number ==> batch[0].parent in more && more[batch[0].parent].number == batch[0].number - 1
                                        && AncestorAt(more, genesis, last.hash, n) == AncestorAt(more, genesis,
                                                                                                 batch[0].parent, n))
    decreases |batch|
  {
    var k := |batch| - 1;
    var last := batch[k];
    Numbers(batch);
    assert ParentStored(more, last.hash);
    assert AncestorAt(more, genesis, last.hash, last.number) == last.hash;
    if k > 0 {
      assert Follows(batch[k - 1], batch[k]);
      ContiguousFront(batch);
      hide Rooted, Contiguous;
      if n < last.number {
        assert AncestorAt(more, genesis, last.hash, n) == AncestorAt(more, genesis, batch[k - 1].hash, n);
        BatchAncestor(more, genesis, batch[..k], n);
      } else {
        BatchAncestor(more, genesis, batch[..k], last.number - 1);
      }
    }
  }

  lemma ContiguousFront(batch: seq<Header>)
    requires Contiguous(batch) && batch != []
    ensures Contiguous(batch[..|batch| - 1])
  {
    var front := batch[..|batch| - 1];
    assert forall i :: 0 < i < |front| ==> Follows(batch[i - 1], batch[i]);
  }

  datatype WriteStatus = NonStat | CanonStat | SideStat

  datatype WriteResult =
    | NothingToDo
    | UnknownAncestor
    | Written(status: WriteStatus, ignored: nat, imported: nat, lastHash: Hash)

  /** The fork choice: more difficulty wins; at equal difficulty the shorter chain wins, and at
      equal height the coin decides. */
  predicate Wins(newTd: nat, localTd: nat, lastNumber: nat, head: nat, coin: bool) {
    newTd > localTd || (newTd == localTd && (lastNumber < head || (lastNumber == head && coin)))
  }

  /** No stored header has more total difficulty than the head, and none with as much is lower. */
  ghost predicate Heaviest(headers: Headers, genesis: Hash, head: Hash)
    requires Rooted(headers, genesis) && head in headers
  {
    forall h :: h in headers ==>
                  || TotalDifficulty(headers, genesis, h) < TotalDifficulty(headers, genesis, head)
                  || (TotalDifficulty(headers, genesis, h) == TotalDifficulty(headers, genesis, head)
                      && headers[head].number <= headers[h].number)
  }

  /** The fork choice keeps the head heaviest, when the candidate is the heaviest of what is new. */
  lemma StaysHeaviest(headers: Headers, more: Headers, genesis: Hash, head: Hash, h: Hash, coin: bool)
    requires Rooted(headers, genesis) && Rooted(more, genesis) && head in headers && h in more
    requires forall x :: x in headers ==> x in more && more[x] == headers[x]
    requires forall x :: x in more && x !in headers ==>
                           x == h || TotalDifficulty(more, genesis, x) < TotalDifficulty(more, genesis, h)
    requires Heaviest(headers, genesis, head)
    ensures head in more
    ensures var won := Wins(TotalDifficulty(more, genesis, h), TotalDifficulty(more, genesis, head), more[h].number,
                            more[head].number, coin);
            Heaviest(more, genesis, if won then h else head)
  {
    hide Rooted, TotalDifficulty;
    forall x | x in headers ensures TotalDifficulty(more, genesis, x) == TotalDifficulty(headers, genesis, x) {
      AncestorStable(headers, more, genesis, x, 0);
    }
  }

  /** Within a stored batch the last header is the heaviest. */
  lemma {:induction false} LastIsHeaviest(headers: Headers, genesis: Hash, batch: seq<Header>, j: nat)
    requires Rooted(headers, genesis) && Contiguous(batch) && j < |batch|
    requires forall i :: 0 <= i < |batch| ==> batch[i].hash in headers && headers[batch[i].hash] == batch[i]
    ensures j < |batch| - 1 ==> TotalDifficulty(headers, genesis, batch[j].hash) <
                                TotalDifficulty(headers, genesis, batch[|batch| - 1].hash)
    decreases |batch| - j
  {
    if j < |batch| - 1 {
      LastIsHeaviest(headers, genesis, batch, j + 1);
      assert Follows(batch[j], batch[j + 1]);
      assert ParentStored(headers, batch[j + 1].hash);
    }
  }

  lemma BatchHeaviest(headers: Headers, more: Headers, genesis: Hash, head: Hash, batch: seq<Header>, coin: bool)
    requires Rooted(headers, genesis) && Rooted(more, genesis) && head in headers && batch != [] && Contiguous(batch)
    requires Extended(headers, batch, |batch|, more) && Heaviest(headers, genesis, head)
    ensures head in more && batch[|batch| - 1].hash in more
    ensures var last := batch[|batch| - 1];
            var won := Wins(TotalDifficulty(more, genesis, last.hash), TotalDifficulty(headers, genesis, head),
                            last.number, headers[head].number, coin);
            Heaviest(more, genesis, if won then last.hash else head)
  {
    hide Rooted, TotalDifficulty, Contiguous, Heaviest, Wins;
    AncestorStable(headers, more, genesis, head, 0);
    var h := batch[|batch| - 1].hash;
    forall x | x in more && x !in headers
      ensures x == h || TotalDifficulty(more, genesis, x) < TotalDifficulty(more, genesis, h)
    {
      var j :| 0 <= j < |batch| && batch[j].hash == x;
      LastIsHeaviest(more, genesis, batch, j);
    }
    StaysHeaviest(headers, more, genesis, head, h, coin);
  }

  datatype ChainEvent = Insert(batch: seq<Header>, coin: bool) | Rewind(target: nat, force: nat -> Option<nat>)

  /** What a node stores, and its head. */
  datatype Node = Node(headers: Headers, head: Hash)

  /** The event takes node a to node b; a batch breaks the table if it wins without a new header and
      is not on the head's chain. */
  ghost predicate Replays(genesis: Hash, a: Node, e: ChainEvent, b: Node, broke: bool)
    requires Rooted(a.headers, genesis) && a.head in a.headers
  {
    match e
    case Insert(batch, coin) =>
      if batch == [] || !Attaches(a.headers, batch[0]) then b == a && !broke
      else Inserted(genesis, a, batch, coin, b, broke)
    case Rewind(target, force) =>
      !broke && if a.headers[a.head].number <= target then b == a
      else exists low: nat :: RewoundTo(genesis, a, target, force, b, low)
  }

  ghost predicate Inserted(genesis: Hash, a: Node, batch: seq<Header>, coin: bool, b: Node, broke: bool)
    requires Rooted(a.headers, genesis) && a.head in a.headers && batch != []
  {
    var last := batch[|batch| - 1];
    && Extended(a.headers, batch, |batch|, b.headers) && Rooted(b.headers, genesis) && last.hash in b.headers
    && var won := Wins(TotalDifficulty(b.headers, genesis, last.hash), TotalDifficulty(a.headers, genesis, a.head),
                       last.number, a.headers[a.head].number, coin);
    && b.head == (if won then last.hash else a.head)
    && (broke <==> won && (forall i :: 0 <= i < |batch| ==> batch[i].hash in a.headers)
                   && !Aligned(a.headers, genesis, a.head, batch))
  }

  ghost predicate RewoundTo(genesis: Hash, a: Node, target: nat, force: nat -> Option<nat>, b: Node, low: nat)
    requires Rooted(a.headers, genesis) && a.head in a.headers
  {
    && low <= a.headers[a.head].number && Forced(force, target, low, a.headers[a.head].number, low)
    && b == Node(UpTo(a.headers, low), AncestorAt(a.headers, genesis, a.head, low))
  }

  /** The batch is part of the chain ending in head. */
  ghost predicate Aligned(headers: Headers, genesis: Hash, head: Hash, batch: seq<Header>)
    requires Rooted(headers, genesis) && head in headers
  {
    forall i :: 0 <= i < |batch| ==>
                  batch[i].number <= headers[head].number
                  && AncestorAt(headers, genesis, head, batch[i].number) == batch[i].hash
  }

  /** Each of the first n events takes one node to the next, and only the last may break the table. */
  ghost predicate Replay(genesis: Hash, nodes: seq<Node>, events: seq<ChainEvent>, n: nat, broken: bool) {
    && n <= |events| && |nodes| == n + 1 && (n == 0 ==> !broken)
    && forall k :: 0 <= k < n ==> ReplaysAt(genesis, nodes, events, k, n, broken)
  }

  ghost predicate ReplaysAt(genesis: Hash, nodes: seq<Node>, events: seq<ChainEvent>, k: nat, n: nat, broken: bool)
    requires k < |events| && k + 1 < |nodes|
  {
    && Rooted(nodes[k].headers, genesis) && nodes[k].head in nodes[k].headers
    && Replays(genesis, nodes[k], events[k], nodes[k + 1], broken && k == n - 1)
  }

  lemma ReplayStart(genesis: Hash, nodes: seq<Node>, events: seq<ChainEvent>)
    requires |nodes| == 1
    ensures Replay(genesis, nodes, events, 0, false)
  {
  }

  lemma ReplayNext(genesis: Hash, nodes: seq<Node>, events: seq<ChainEvent>, n: nat, b: Node, broke: bool)
    requires Replay(genesis, nodes, events, n, false) && n < |events| && |nodes| == n + 1
    requires Rooted(nodes[n].headers, genesis) && nodes[n].head in nodes[n].headers
             && Replays(genesis, nodes[n], events[n], b, broke)
    ensures Replay(genesis, nodes + [b], events, n + 1, broke)
  {
    hide Rooted, Replays;
    var more, m := nodes + [b], n + 1;
    forall k | 0 <= k < n ensures ReplaysAt(genesis, more, events, k, m, broke) {
      assert ReplaysAt(genesis, nodes, events, k, n, false);
    }
  }

  lemma BatchStored(headers: Headers, batch: seq<Header>, more: Headers)
    requires Extended(headers, batch, |batch|, more) && batch != []
    ensures batch[|batch| - 1].hash in more
  {
  }

  lemma AlignedMeans(headers: Headers, genesis: Hash, canon: map<nat, Hash>, head: Hash, batch: seq<Header>)
    requires Rooted(headers, genesis) && CanonRight(headers, genesis, canon, head)
    ensures AlreadyCanonical(canon, batch) <==> Aligned(headers, genesis, head, batch)
  {
    hide Rooted, AncestorAt;
  }

  lemma AllKnown(headers: Headers, batch: seq<Header>, ignored: nat, imported: nat)
    requires ignored + imported == |batch|
    requires forall i :: 0 <= i < |batch| ==> (batch[i].hash in headers <==> i < ignored || imported == 0)
    ensures imported == 0 <==> forall i :: 0 <= i < |batch| ==> batch[i].hash in headers
  {
    assert imported > 0 ==> batch[|batch| - 1].hash !in headers;
  }

  ghost predicate InTree(tree: Headers, h: Header) {
    h.hash in tree && tree[h.hash] == h
  }

  /** The stored headers are headers of the tree. */
  ghost predicate Part(headers: Headers, tree: Headers) {
    forall x :: x in headers ==> x in tree && tree[x] == headers[x]
  }

  lemma FitsTree(headers: Headers, tree: Headers, batch: seq<Header>)
    requires Part(headers, tree) && forall i :: 0 <= i < |batch| ==> InTree(tree, batch[i])
    ensures Fits(headers, batch)
  {
  }

  lemma PartExtended(headers: Headers, tree: Headers, batch: seq<Header>, more: Headers)
    requires Part(headers, tree) && (forall i :: 0 <= i < |batch| ==> InTree(tree, batch[i]))
             && Extended(headers, batch, |batch|, more)
    ensures Part(more, tree)
  {
  }

  lemma PartUpTo(headers: Headers, tree: Headers, n: nat)
    requires Part(headers, tree)
    ensures Part(UpTo(headers, n), tree)
  {
  }

  class HeaderChain {
    const genesis: Hash
    var headers: Headers
    var td: map<Hash, nat>
    var canon: map<nat, Hash>
    var current: Hash

    /** Headers and total difficulties are right. */
    ghost predicate Stored()
      reads this
    {
      Rooted(headers, genesis) && TdRight(headers, genesis, td) && current in headers
    }

    ghost predicate Valid()
      reads this
    {
      Stored() && CanonRight(headers, genesis, canon, current) && Leaf(headers, current)
    }

    constructor (g: Header)
      requires g.number == 0
      ensures Valid() && genesis == g.hash && current == g.hash && headers == map[g.hash := g]
      ensures Heaviest(headers, genesis, current)
    {
      genesis, current := g.hash, g.hash;
      headers, td, canon := map[g.hash := g], map[g.hash := g.difficulty], map[0 := g.hash];
      new;
      assert Rooted(headers, genesis);
      assert td.Keys == headers.Keys;
      assert TdRight(headers, genesis, td);
      assert CanonRight(headers, genesis, canon, current);
      assert Leaf(headers, current);
    }

    /** Stores the unknown headers of a batch and their total difficulties. The batch's known
        headers come first. */
    method StoreBatch(batch: seq<Header>) returns (newTd: nat, firstInserted: int)
      requires Stored() && batch != [] && Contiguous(batch) && Fits(headers, batch) && Attaches(headers, batch[0])
      modifies this`headers, this`td
      ensures Stored() && Extended(old(headers), batch, |batch|, headers)
      ensures batch[|batch| - 1].hash in td && newTd == td[batch[|batch| - 1].hash]
      ensures forall h :: h in old(td) ==> h in td && td[h] == old(td)[h]
      ensures -1 <= firstInserted < |batch|
      ensures forall i :: 0 <= i < |batch| ==>
                            (batch[i].hash in old(headers) <==> firstInserted == -1 || i < firstInserted)
    {
      hide Rooted, TdRight, Extended, Contiguous, Fits;
      ghost var headers0, td0 := headers, td;
      var db := headers;
      firstInserted := -1;
      BatchStart(headers, genesis, td, batch);
      newTd := td[batch[0].parent];
      for i := 0 to |batch|
        invariant Stored() && Extended(headers0, batch, i, headers) && db == headers0
        invariant i > 0 ==> batch[i - 1].hash in td && newTd == td[batch[i - 1].hash]
        invariant i == 0 ==> headers == headers0 && td == td0 && newTd == td[batch[0].parent]
        invariant forall h :: h in td0 ==> h in td && td[h] == td0[h]
        invariant -1 <= firstInserted < i
        invariant forall j :: 0 <= j < i ==> (batch[j].hash in headers0 <==> firstInserted == -1 || j < firstInserted)
      {
        var header := batch[i];
        BatchStep(headers0, genesis, batch, i, headers, td);
        newTd := newTd + header.difficulty;
        if header.hash !in db {
          headers := headers[header.hash := header];
          td := td[header.hash := newTd];
          if firstInserted < 0 {
            firstInserted := i;
          }
        } else if firstInserted >= 0 {
          UnknownStaysUnknown(headers0, genesis, batch, firstInserted, i);
        }
      }
    }

    /** Removes the canonical entries above a height. */
    method DeleteAbove(last: nat) returns (m: map<nat, Hash>)
      requires Stored() && CanonRight(headers, genesis, canon, current)
      ensures forall n: nat :: n in m <==> n in canon && n <= last
      ensures forall n: nat :: n in m ==> m[n] == canon[n]
    {
      hide Rooted, TdRight;
      m := canon;
      var i := last + 1;
      while i in canon
        invariant last < i
        invariant forall n: nat :: n in m <==> n in canon && !(last < n < i)
        invariant forall n: nat :: n in m ==> m[n] == canon[n]
        decreases headers[current].number + 1 - i
      {
        m := m - {i};
        i := i + 1;
      }
      assert forall n: nat :: n in canon ==> n < i;
    }

    /** Rewrites the canonical entries below a batch, going back from its parent until the
        table already agrees. */
    method RewriteBack(m0: map<nat, Hash>, parent: Hash) returns (m: map<nat, Hash>)
      requires Stored() && CanonRight(headers, genesis, canon, current) && parent in headers
      requires forall n: nat :: n <= headers[parent].number ==> (n in m0 <==> n in canon)
                                                                && (n in canon ==> m0[n] == canon[n])
      ensures forall n: nat :: n <= headers[parent].number ==> n in m && m[n] == AncestorAt(headers, genesis, parent, n)
      ensures forall n: nat :: n > headers[parent].number ==> (n in m <==> n in m0) && (n in m0 ==> m[n] == m0[n])
    {
      hide Rooted, TdRight, AncestorAt, CanonRight;
      m := m0;
      ghost var top := headers[parent].number;
      var headHash, headNumber := parent, headers[parent].number;
      WalkStart(headers, genesis, canon, current, parent);
      while !(headNumber in canon && canon[headNumber] == headHash)
        invariant headNumber <= top && headHash in headers && headers[headHash].number == headNumber
        invariant headHash == AncestorAt(headers, genesis, parent, headNumber)
        invariant forall n: nat :: headNumber < n <= top ==> n in m && m[n] == AncestorAt(headers, genesis, parent, n)
        invariant forall n: nat :: n > top || n <= headNumber ==> (n in m <==> n in m0) && (n in m0 ==> m[n] == m0[n])
        decreases headNumber
      {
        WalkStep(headers, genesis, canon, current, parent, headNumber);
        m := m[headNumber := headHash];
        headHash, headNumber := headers[headHash].parent, headNumber - 1;
      }
      WalkMeets(headers, genesis, canon, current, parent, headNumber);
    }

    /** The canonical table after the batch became canonical. Its own heights are written only
        if at least one of its headers was unknown. */
    method MarkCanonical(batch: seq<Header>, firstInserted: int) returns (m: map<nat, Hash>)
      requires Stored() && CanonRight(headers, genesis, canon, current)
      requires batch != [] && Contiguous(batch) && Attaches(headers, batch[0])
      requires -1 <= firstInserted < |batch| && (batch[0].parent == current ==> firstInserted == 0)
      ensures Marked(headers, genesis, canon, batch, firstInserted >= 0, m)
    {
      hide Rooted, TdRight, AncestorAt, CanonRight, Contiguous;
      m := canon;
      var last := batch[|batch| - 1].number;
      Numbers(batch);
      CanonMeans(headers, genesis, canon, current);
      if batch[0].parent != current {
        m := DeleteAbove(last);
        m := RewriteBack(m, batch[0].parent);
        var i := 0;
        while i < firstInserted
          invariant 0 <= i && (firstInserted == -1 ==> i == 0) && (firstInserted >= 0 ==> i <= firstInserted)
          invariant forall j :: 0 <= j < i ==> batch[j].number in m && m[batch[j].number] == batch[j].hash
          invariant forall n: nat :: n < batch[0].number ==> n in m
                                                             && m[n] == AncestorAt(headers, genesis, batch[0].parent, n)
          invariant forall n: nat :: n > last ==> n !in m
          invariant i == 0 ==> forall n: nat :: batch[0].number <= n <= last ==> (n in m <==> n in canon)
                                                                                 && (n in canon ==> m[n] == canon[n])
        {
          m := m[batch[i].number := batch[i].hash];
          i := i + 1;
        }
      }
      if firstInserted >= 0 {
        for i := firstInserted to |batch|
          invariant forall j :: 0 <= j < i ==> batch[j].number in m && m[batch[j].number] == batch[j].hash
          invariant forall n: nat :: n < batch[0].number ==> n in m
                                                             && m[n] == AncestorAt(headers, genesis, batch[0].parent, n)
          invariant forall n: nat :: n > last ==> n !in m
        {
          m := m[batch[i].number := batch[i].hash];
        }
      }
    }

    /** Writes a validated batch. If it wins the fork choice its last header becomes the head.
        The canonical table is right afterwards exactly when the batch lost, or contained a
        new header, or was canonical already. */
    method WriteHeaders(batch: seq<Header>, coin: bool) returns (res: WriteResult)
      requires Valid() && Contiguous(batch) && Fits(headers, batch)
      modifies this
      ensures batch == [] <==> res == NothingToDo
      ensures res == UnknownAncestor <==> batch != [] && !Attaches(old(headers), batch[0])
      ensures !res.Written? ==> unchanged(this)
      ensures res.Written? ==> Stored() && Extended(old(headers), batch, |batch|, headers)
      ensures res.Written? ==>
                && res.ignored + res.imported == |batch|
                && (forall i :: 0 <= i < |batch| ==>
                                  (batch[i].hash in old(headers) <==> i < res.ignored || res.imported == 0))
                && res.lastHash == batch[|batch| - 1].hash
      ensures res.Written? ==>
                var won := Wins(TotalDifficulty(headers, genesis, res.lastHash), old(td)[old(current)],
                                batch[|batch| - 1].number, old(headers)[old(current)].number, coin);
                && current == (if won then res.lastHash else old(current))
                && res.status == (if res.imported == 0 then NonStat else if won then CanonStat else SideStat)
                && (Valid() <==> !won || res.imported > 0 || AlreadyCanonical(old(canon), batch))
      ensures res.Written? ==>
                TotalDifficulty(headers, genesis, current) >= TotalDifficulty(old(headers), genesis, old(current))
      ensures res.Written? ==>
                var theirs, ours := TotalDifficulty(headers, genesis, res.lastHash),
                                    TotalDifficulty(old(headers), genesis, old(current));
                var n, m := batch[|batch| - 1].number, old(headers)[old(current)].number;
                current == if theirs != ours then (if theirs > ours then res.lastHash else old(current))
                           else if n != m then (if n < m then res.lastHash else old(current))
                           else if coin then res.lastHash else old(current)
      ensures res.Written? && old(Heaviest(headers, genesis, current)) ==> Heaviest(headers, genesis, current)
    {
      hide Rooted, TdRight, AncestorAt, TotalDifficulty, CanonRight, Contiguous, Fits, Extended, Leaf, Marked,
        AlreadyCanonical, Heaviest;
      if batch == [] {
        return NothingToDo;
      }
      if !Attaches(headers, batch[0]) {
        return UnknownAncestor;
      }
      ghost var headers0, canon0, head0 := headers, canon, current;
      TdLookup(headers, genesis, td, current);
      var head, localTd, last := headers[current].number, td[current], batch[|batch| - 1];
      var newTd, firstInserted := StoreBatch(batch);
      var imported := if firstInserted < 0 then 0 else |batch| - firstInserted;
      var won := Wins(newTd, localTd, last.number, head, coin);
      TdLookup(headers, genesis, td, last.hash);
      Stored0(headers0, headers, genesis, canon0, head0, batch);
      if Heaviest(headers0, genesis, head0) {
        BatchHeaviest(headers0, headers, genesis, head0, batch, coin);
      }
      if won {
        canon := MarkCanonical(batch, firstInserted);
        current := last.hash;
        AfterWin(headers0, headers, genesis, canon0, head0, batch, firstInserted >= 0, canon);
      } else {
        AfterLoss(headers0, headers, genesis, head0, batch);
      }
      res := Written(if imported == 0 then NonStat else if won then CanonStat else SideStat, |batch| - imported,
                     imported, last.hash);
    }

    /** Rewinds the chain to a height, or lower where the callback forces it. Every header
        above the final head is gone, on all forks.  That head's height is the first that is not
        above the target and what was forced at the heights walked to. */
    method SetHead(target: nat, force: nat -> Option<nat>)
      requires Valid()
      modifies this
      ensures old(headers)[old(current)].number <= target ==> unchanged(this)
      ensures old(headers)[old(current)].number > target ==>
                && Valid() && headers[current].number <= target
                && current == AncestorAt(old(headers), genesis, old(current), headers[current].number)
                && headers == UpTo(old(headers), headers[current].number)
                && var top, low := old(headers)[old(current)].number, headers[current].number;
                Forced(force, target, low, top, low)
    {
      hide Rooted, TdRight, AncestorAt, CanonRight, Leaf, UpTo, WithoutLevels, TdOf, Forced, Rewinding;
      var head: nat := target;
      var hdr := headers[current];
      if hdr.number <= head {
        return;
      }
      ghost var head0, top: nat := current, hdr.number;
      var gone: set<nat> := LevelsAbove(hdr.number);
      RewindStart(headers, genesis, current, gone);
      ForceStart(force, target, top);
      while hdr.number > head
        invariant headers == old(headers) && td == old(td) && canon == old(canon)
        invariant Rewinding(headers, genesis, head0, current, gone) && current in headers && hdr == headers[current]
        invariant head <= hdr.number && head <= target && Forced(force, target, hdr.number, top, head)
        decreases hdr.number
      {
        var num := hdr.number;
        RewindStep(headers, genesis, head0, current, gone);
        ForceNext(force, target, num - 1, top, head);
        var parent := headers[hdr.parent];
        var f := force(parent.number);
        if f.Some? && f.value < head {
          head := f.value;
        }
        current := parent.hash;
        gone := gone + {num};
        hdr := headers[current];
      }
      RewindDone(headers, genesis, td, canon, head0, current, gone);
      headers := WithoutLevels(headers, gone);
      td := TdOf(td, headers);
      canon := canon - gone;
    }

    /** Whole runs: any sequence of validated batches and rewinds.  Every state is the one its event
        makes of the state before; the table stays the parent walk from the head and every difficulty
        a sum, until the first batch that wins without a new header and off the head's chain. */
    method Run(events: seq<ChainEvent>, ghost tree: Headers) returns (n: nat, broken: bool, ghost nodes: seq<Node>)
      requires Valid() && Part(headers, tree)
      requires forall e :: e in events && e.Insert? ==> Contiguous(e.batch) && forall i :: 0 <= i < |e.batch| ==>
                                                                                             InTree(tree, e.batch[i])
      modifies this
      ensures Part(headers, tree) && n <= |events| && (n < |events| ==> broken)
      ensures Replay(genesis, nodes, events, n, broken)
      ensures nodes[0] == Node(old(headers), old(current)) && nodes[n] == Node(headers, current)
      ensures Valid() <==> !broken
    {
      hide Rooted, TdRight, AncestorAt, TotalDifficulty, CanonRight, Contiguous, Leaf, Part, InTree, Replays, Replay;
      n, broken, nodes := 0, false, [Node(headers, current)];
      ReplayStart(genesis, nodes, events);
      while n < |events| && !broken
        invariant n <= |events| && Part(headers, tree) && (Valid() <==> !broken)
        invariant Replay(genesis, nodes, events, n, broken) && |nodes| == n + 1
        invariant nodes[0] == Node(old(headers), old(current)) && nodes[n] == Node(headers, current)
      {
        assert events[n] in events;
        broken := Handle(events[n], tree);
        ReplayNext(genesis, nodes, events, n, Node(headers, current), broken);
        nodes := nodes + [Node(headers, current)];
        n := n + 1;
      }
    }

    /** One event, and whether it broke the table. */
    method Handle(e: ChainEvent, ghost tree: Headers) returns (broke: bool)
      requires Valid() && Part(headers, tree)
      requires e.Insert? ==> Contiguous(e.batch) && forall i :: 0 <= i < |e.batch| ==> InTree(tree, e.batch[i])
      modifies this
      ensures Part(headers, tree) && (Valid() <==> !broke)
      ensures Replays(genesis, Node(old(headers), old(current)), e, Node(headers, current), broke)
    {
      hide Rooted, TdRight, AncestorAt, TotalDifficulty, CanonRight, Contiguous, Fits, Extended, Leaf,
        AlreadyCanonical, UpTo, Part, InTree, Wins, Forced;
      broke := false;
      ghost var before := Node(headers, current);
      match e {
        case Insert(batch, coin) =>
          FitsTree(headers, tree, batch);
          var canon0, number0 := canon, headers[current].number;
          TdLookup(headers, genesis, td, current);
          var td0 := td[current];
          var res := WriteHeaders(batch, coin);
          if res.Written? {
            PartExtended(before.headers, tree, batch, headers);
            BatchStored(before.headers, batch, headers);
            TdLookup(headers, genesis, td, res.lastHash);
            var won := Wins(td[res.lastHash], td0, batch[|batch| - 1].number, number0, coin);
            broke := won && res.imported == 0 && !AlreadyCanonical(canon0, batch);
            AlignedMeans(before.headers, genesis, canon0, before.head, batch);
            AllKnown(before.headers, batch, res.ignored, res.imported);
          }
        case Rewind(target, force) =>
          SetHead(target, force);
          PartUpTo(before.headers, tree, headers[current].number);
          assert before.headers[before.head].number > target ==>
              RewoundTo(genesis, before, target, force, Node(headers, current), headers[current].number);
      }
    }

    /** The populated levels above a height, counted upwards until one is empty. */
    method LevelsAbove(num: nat) returns (levels: set<nat>)
      requires Rooted(headers, genesis)
      ensures forall x :: x in headers && headers[x].number > num ==> headers[x].number in levels
      ensures forall n :: n in levels ==> n > num
    {
      hide Rooted;
      levels := {};
      ghost var bound := HighestNumber(headers, headers.Keys);
      var n := num + 1;
      while exists x :: x in headers && headers[x].number == n
        invariant num < n
        invariant forall k :: k in levels <==> num < k < n
        decreases bound + 1 - n
      {
        levels := levels + {n};
        n := n + 1;
      }
      NoneAbove(headers, genesis, n);
    }

    /** The ancestor-th ancestor of a block, by walking back until the canonical table can be
        used. At most maxNonCanonical steps are walked; `left` of them remain. */
    method GetAncestor(hash: Hash, number: nat, ancestor: nat, maxNonCanonical: nat)
      returns (r: Option<(Hash, nat)>, left: nat)
      requires Stored() && CanonRight(headers, genesis, canon, current)
      ensures r.Some? && ancestor > 0 ==> Known(headers, hash, number)
      ensures r.Some? ==> ancestor <= number
      ensures r.Some? && Known(headers, hash, number) ==>
                r.value == (AncestorAt(headers, genesis, hash, number - ancestor), number - ancestor)
      ensures r.None? && ancestor <= number && Known(headers, hash, number) ==>
                && maxNonCanonical < ancestor && ancestor >= 2
                && forall k: nat :: number - maxNonCanonical <= k <= number ==>
                                      !IsCanonical(canon, AncestorAt(headers, genesis, hash, k), k)
      ensures left <= maxNonCanonical
      ensures ancestor > number || ancestor <= 1 ==> left == maxNonCanonical
      ensures 2 <= ancestor <= number && !Known(headers, hash, number) ==>
                r.None? && left == if maxNonCanonical == 0 then 0 else maxNonCanonical - 1
      ensures 2 <= ancestor <= number && Known(headers, hash, number) ==>
                && maxNonCanonical - left <= ancestor
                && Spent(headers, genesis, canon, hash, number, ancestor, maxNonCanonical - left, r.Some?)
                && (r.None? ==> left == 0)
    {
      hide Rooted, TdRight, AncestorAt, CanonRight, Walked, Spent;
      left := maxNonCanonical;
      if ancestor > number {
        return None, left;
      }
      if ancestor == 1 {
        if Known(headers, hash, number) {
          FirstSteps(headers, genesis, hash);
          return Some((headers[hash].parent, number - 1)), left;
        }
        return None, left;
      }
      var h, n, steps := hash, number, ancestor;
      WalkedStart(headers, genesis, canon, hash, number);
      while steps != 0
        invariant 0 <= steps <= n && n - steps == number - ancestor && left == maxNonCanonical - (number - n)
        invariant n == number ==> h == hash
        invariant Known(headers, hash, number) || n == number
        invariant Known(headers, hash, number) ==> Walked(headers, genesis, canon, hash, number, n, h)
        decreases steps
      {
        if Known(headers, hash, number) {
          SpentSoFar(headers, genesis, canon, hash, number, ancestor, n, h);
        }
        if IsCanonical(canon, h, n) {
          CanonicalJump(headers, genesis, canon, current, hash, number, n, n - steps, h);
          return Some((canon[n - steps], n - steps)), left;
        }
        if left == 0 {
          if Known(headers, hash, number) {
            WalkedMeans(headers, genesis, canon, hash, number, n, h);
          }
          return None, left;
        }
        left, steps := left - 1, steps - 1;
        if !Known(headers, h, n) {
          WalkedKnown(headers, genesis, canon, hash, number, n, h);
          return None, left;
        }
        WalkedStep(headers, genesis, canon, hash, number, n, h);
        h, n := headers[h].parent, n - 1;
      }
      if Known(headers, hash, number) {
        WalkedMeans(headers, genesis, canon, hash, number, n, h);
        SpentSoFar(headers, genesis, canon, hash, number, ancestor, n, h);
      }
      return Some((h, n)), left;
    }
  }

  /** The walk from a known block is at h at height n, having met no canonical block. */
  ghost predicate Walked(headers: Headers, genesis: Hash, canon: map<nat, Hash>, hash: Hash, number: nat, n: nat,
                         h: Hash)
    requires Rooted(headers, genesis)
  {
    && Known(headers, hash, number) && n <= number && h == AncestorAt(headers, genesis, hash, n)
    && forall k: nat :: n < k <= number ==> !IsCanonical(canon, AncestorAt(headers, genesis, hash, k), k)
  }

  /** The walk left that many blocks behind, none of them canonical, and succeeds only at a canonical
      block or at the ancestor itself. */
  ghost predicate Spent(headers: Headers, genesis: Hash, canon: map<nat, Hash>, hash: Hash, number: nat, ancestor: nat,
                        spent: nat, found: bool)
    requires Rooted(headers, genesis) && Known(headers, hash, number) && spent <= ancestor <= number
  {
    && (forall k: nat :: number - spent < k <= number ==>
                           !IsCanonical(canon, AncestorAt(headers, genesis, hash, k), k))
    && (found ==> spent == ancestor
                  || IsCanonical(canon, AncestorAt(headers, genesis, hash, number - spent), number - spent))
  }

  lemma SpentSoFar(headers: Headers, genesis: Hash, canon: map<nat, Hash>, hash: Hash, number: nat, ancestor: nat,
                   n: nat, h: Hash)
    requires Rooted(headers, genesis) && Walked(headers, genesis, canon, hash, number, n, h)
             && number - ancestor <= n && ancestor <= number
    ensures Spent(headers, genesis, canon, hash, number, ancestor, number - n,
                  number - n == ancestor || IsCanonical(canon, h, n))
    ensures Spent(headers, genesis, canon, hash, number, ancestor, number - n, false)
  {
  }

  /** The lowest of the target and the heights forced at the heights from n up to top. */
  function ForcedTo(force: nat -> Option<nat>, target: nat, n: nat, top: nat): (low: nat)
    ensures low <= target && forall k: nat :: n <= k < top && force(k).Some? ==> low <= force(k).value
    ensures low == target || exists k: nat :: n <= k < top && force(k) == Some(low)
    decreases top - n
  {
    if n >= top then target
    else
      var above := ForcedTo(force, target, n + 1, top);
      if force(n).Some? && force(n).value < above then force(n).value else above
  }

  /** low is forced at height n, and every height above n is above what was forced there. */
  ghost predicate Forced(force: nat -> Option<nat>, target: nat, n: nat, top: nat, low: nat) {
    low == ForcedTo(force, target, n, top) && forall k: nat :: n < k <= top ==> ForcedTo(force, target, k, top) < k
  }

  lemma ForceStart(force: nat -> Option<nat>, target: nat, top: nat)
    ensures Forced(force, target, top, top, target)
  {
  }

  lemma ForceNext(force: nat -> Option<nat>, target: nat, n: nat, top: nat, low: nat)
    requires Forced(force, target, n + 1, top, low) && low < n + 1 <= top
    ensures Forced(force, target, n, top, if force(n).Some? && force(n).value < low then force(n).value else low)
  {
  }

  lemma WalkedStart(headers: Headers, genesis: Hash, canon: map<nat, Hash>, hash: Hash, number: nat)
    requires Rooted(headers, genesis)
    ensures Known(headers, hash, number) ==> Walked(headers, genesis, canon, hash, number, number, hash)
  {
  }

  lemma WalkedKnown(headers: Headers, genesis: Hash, canon: map<nat, Hash>, hash: Hash, number: nat, n: nat, h: Hash)
    requires Rooted(headers, genesis)
    ensures Known(headers, hash, number) && Walked(headers, genesis, canon, hash, number, n, h) ==> Known(headers, h, n)
  {
  }

  lemma WalkedStep(headers: Headers, genesis: Hash, canon: map<nat, Hash>, hash: Hash, number: nat, n: nat, h: Hash)
    requires Rooted(headers, genesis) && n > 0 && Known(headers, h, n) && (n == number ==> h == hash)
             && (Known(headers, hash, number) || n == number)
    requires Known(headers, hash, number) ==> Walked(headers, genesis, canon, hash, number, n, h)
    requires !IsCanonical(canon, h, n)
    ensures Known(headers, hash, number) && Walked(headers, genesis, canon, hash, number, n - 1, headers[h].parent)
  {
    assert Known(headers, hash, number);
    AncestorLink(headers, genesis, hash, n - 1);
  }

  lemma WalkedMeans(headers: Headers, genesis: Hash, canon: map<nat, Hash>, hash: Hash, number: nat, n: nat, h: Hash)
    requires Rooted(headers, genesis) && Walked(headers, genesis, canon, hash, number, n, h)
    ensures Known(headers, hash, number) && n <= number && h == AncestorAt(headers, genesis, hash, n)
            && Known(headers, h, n)
    ensures forall k: nat :: n < k <= number ==> !IsCanonical(canon, AncestorAt(headers, genesis, hash, k), k)
  {
  }

  /** The header is stored under this hash and number. */
  predicate Known(headers: Headers, hash: Hash, number: nat) {
    hash in headers && headers[hash].number == number
  }

  predicate IsCanonical(canon: map<nat, Hash>, hash: Hash, number: nat) {
    number in canon && canon[number] == hash
  }

  lemma FirstSteps(headers: Headers, genesis: Hash, h: Hash)
    requires Rooted(headers, genesis) && h in headers
    ensures AncestorAt(headers, genesis, h, headers[h].number) == h
    ensures headers[h].number > 0 ==> AncestorAt(headers, genesis, h, headers[h].number - 1) == headers[h].parent
  {
    if headers[h].number > 0 {
      assert ParentStored(headers, h);
    }
  }

  /** From a canonical block the table gives every lower ancestor. */
  lemma CanonicalJump(headers: Headers, genesis: Hash, canon: map<nat, Hash>, head: Hash, hash: Hash, number: nat,
                      n: nat, k: nat, h: Hash)
    requires Rooted(headers, genesis) && CanonRight(headers, genesis, canon, head) && k <= n <= number
    requires IsCanonical(canon, h, n) && (n == number ==> h == hash) && (Known(headers, hash, number) || n == number)
    requires Known(headers, hash, number) ==> Walked(headers, genesis, canon, hash, number, n, h)
    ensures k in canon && Known(headers, hash, number) && canon[k] == AncestorAt(headers, genesis, hash, k)
  {
    AncestorTransitive(headers, genesis, head, n, k);
    assert Known(headers, canon[n], n);
    AncestorTransitive(headers, genesis, hash, n, k);
  }

  /** A known batch that wins a tie leaves a wrong table: two children of genesis of equal
      difficulty, the second one stored but not canonical, and a coin that favours it. */
  lemma KnownTieBreaksTable()
    ensures var g, a, b := Header(0, 9, 0, 1), Header(1, 0, 1, 2), Header(2, 0, 1, 2);
            var headers: Headers := map[0 := g, 1 := a, 2 := b];
            var canon: map<nat, Hash> := map[0 := 0, 1 := 1];
            && Rooted(headers, 0) && CanonRight(headers, 0, canon, 1) && Leaf(headers, 1)
            && Contiguous([b]) && Fits(headers, [b]) && Attaches(headers, b) && b.hash in headers
            && Wins(TotalDifficulty(headers, 0, 2), TotalDifficulty(headers, 0, 1), 1, 1, true)
            && !AlreadyCanonical(canon, [b])
            && forall m :: Marked(headers, 0, canon, [b], false, m) ==> !CanonRight(headers, 0, m, 2)
  {
    var g, a, b := Header(0, 9, 0, 1), Header(1, 0, 1, 2), Header(2, 0, 1, 2);
    var headers: Headers := map[0 := g, 1 := a, 2 := b];
    var canon: map<nat, Hash> := map[0 := 0, 1 := 1];
    assert ParentStored(headers, 1) && ParentStored(headers, 2);
    assert Rooted(headers, 0);
    assert AncestorAt(headers, 0, 1, 0) == 0 && AncestorAt(headers, 0, 1, 1) == 1;
    assert TotalDifficulty(headers, 0, 0) == 1;
    assert !AlreadyCanonical(canon, [b]) by {
      assert [b][0] == b;
    }
    forall m | Marked(headers, 0, canon, [b], false, m)
      ensures !CanonRight(headers, 0, m, 2)
    {
      MarkedIsRight(headers, 0, canon, [b], false, m);
    }
  }

  function WithoutLevels(headers: Headers, gone: set<nat>): Headers {
    map x | x in headers && headers[x].number !in gone :: headers[x]
  }

  function TdOf(td: map<Hash, nat>, headers: Headers): map<Hash, nat> {
    map x | x in td && x in headers :: td[x]
  }

  /** The headers up to a height. */
  ghost function UpTo(headers: Headers, n: nat): Headers {
    map x | x in headers && headers[x].number <= n :: headers[x]
  }

  lemma {:induction false} HighestNumber(headers: Headers, s: set<Hash>) returns (k: nat)
    requires s <= headers.Keys
    ensures forall x :: x in s ==> headers[x].number <= k
    decreases s
  {
    if s == {} {
      k := 0;
    } else {
      var x :| x in s;
      var r := HighestNumber(headers, s - {x});
      k := if r < headers[x].number then headers[x].number else r;
      assert forall y :: y in s ==> y == x || y in s - {x};
    }
  }

  /** Levels are contiguous: above an empty one there is nothing. */
  lemma NoneAbove(headers: Headers, genesis: Hash, n: nat)
    requires Rooted(headers, genesis) && !exists x :: x in headers && headers[x].number == n
    ensures forall x :: x in headers ==> headers[x].number < n
  {
    forall x | x in headers
      ensures headers[x].number < n
    {
      if headers[x].number >= n {
        assert AncestorAt(headers, genesis, x, n) in headers;
        assert false;
      }
    }
  }

  /** The walk back has reached cur, and every occupied level above it is to go. */
  ghost predicate Rewinding(headers: Headers, genesis: Hash, head0: Hash, cur: Hash, gone: set<nat>)
    requires Rooted(headers, genesis) && head0 in headers
  {
    && cur in headers && headers[cur].number <= headers[head0].number
    && cur == AncestorAt(headers, genesis, head0, headers[cur].number)
    && (forall x :: x in headers && headers[x].number > headers[cur].number ==> headers[x].number in gone)
    && (forall n :: n in gone ==> n > headers[cur].number)
  }

  lemma RewindStart(headers: Headers, genesis: Hash, head: Hash, gone: set<nat>)
    requires Rooted(headers, genesis) && head in headers
    requires forall x :: x in headers && headers[x].number > headers[head].number ==> headers[x].number in gone
    requires forall n :: n in gone ==> n > headers[head].number
    ensures Rewinding(headers, genesis, head, head, gone)
  {
  }

  lemma RewindStep(headers: Headers, genesis: Hash, head0: Hash, cur: Hash, gone: set<nat>)
    requires Rooted(headers, genesis) && head0 in headers && Rewinding(headers, genesis, head0, cur, gone)
             && headers[cur].number > 0
    ensures var p := headers[cur].parent;
            && p in headers && headers[p].number == headers[cur].number - 1 && headers[p].hash == p
            && Rewinding(headers, genesis, head0, p, gone + {headers[cur].number})
  {
    hide AncestorAt, Rooted;
    ParentStep(headers, genesis, head0, headers[cur].number);
  }

  lemma ParentStep(headers: Headers, genesis: Hash, head0: Hash, n: nat)
    requires Rooted(headers, genesis) && head0 in headers && 0 < n <= headers[head0].number
    ensures var h := headers[AncestorAt(headers, genesis, head0, n)];
            && h.parent in headers && headers[h.parent].number == n - 1 && headers[h.parent].hash == h.parent
            && h.parent == AncestorAt(headers, genesis, head0, n - 1)
  {
    AncestorLink(headers, genesis, head0, n - 1);
  }

  lemma RewindDone(headers: Headers, genesis: Hash, td: map<Hash, nat>, canon: map<nat, Hash>, head0: Hash,
                   head: Hash, gone: set<nat>)
    requires Rooted(headers, genesis) && TdRight(headers, genesis, td) && CanonRight(headers, genesis, canon, head0)
    requires Rewinding(headers, genesis, head0, head, gone)
    ensures headers[head].number <= headers[head0].number
            && head == AncestorAt(headers, genesis, head0, headers[head].number)
    ensures var k := headers[head].number;
            var less := WithoutLevels(headers, gone);
            && less == UpTo(headers, k)
            && Rooted(less, genesis) && head in less && less[head].number == k
            && TdRight(less, genesis, TdOf(td, less))
            && CanonRight(less, genesis, canon - gone, head)
            && Leaf(less, head)
  {
    var k := headers[head].number;
    var less := WithoutLevels(headers, gone);
    assert less == UpTo(headers, k);
    assert Rooted(less, genesis) by {
      forall x | x in less && less[x].number > 0
        ensures ParentStored(less, x)
      {
        assert ParentStored(headers, x);
      }
    }
    var td' := TdOf(td, less);
    assert td'.Keys == less.Keys;
    forall x | x in less
      ensures td'[x] == TotalDifficulty(less, genesis, x)
    {
      AncestorStable(less, headers, genesis, x, 0);
    }
    RewindCanon(headers, less, genesis, canon, head0, head, gone);
    forall h | h in less && less[h].number > 0
      ensures less[h].parent != head
    {
      assert ParentStored(less, h);
    }
  }

  lemma RewindCanon(headers: Headers, less: Headers, genesis: Hash, canon: map<nat, Hash>, head0: Hash, head: Hash,
                    gone: set<nat>)
    requires Rooted(headers, genesis) && Rooted(less, genesis) && CanonRight(headers, genesis, canon, head0)
    requires head in headers && head in less && headers[head].number <= headers[head0].number
             && less[head] == headers[head]
    requires head == AncestorAt(headers, genesis, head0, headers[head].number)
    requires forall x :: x in less ==> x in headers && headers[x] == less[x]
    requires forall x :: x in headers && headers[x].number > headers[head].number ==> headers[x].number in gone
    requires forall n :: n in gone ==> n > headers[head].number
    ensures CanonRight(less, genesis, canon - gone, head)
  {
    hide Rooted;
    var k := headers[head].number;
    forall n: nat
      ensures n in canon - gone <==> n <= k
      ensures n <= k ==> (canon - gone)[n] == AncestorAt(less, genesis, head, n)
    {
      if n <= k {
        AncestorTransitive(headers, genesis, head0, k, n);
        AncestorStable(less, headers, genesis, head, n);
      } else if n in canon {
        assert headers[AncestorAt(headers, genesis, head0, n)].number == n;
      }
    }
  }

  lemma TdLookup(headers: Headers, genesis: Hash, td: map<Hash, nat>, h: Hash)
    requires Rooted(headers, genesis) && TdRight(headers, genesis, td) && (h in headers || h in td)
    ensures h in headers && h in td && td[h] == TotalDifficulty(headers, genesis, h)
  {
  }

  /** What stays true of the old table and head once the batch is stored. */
  lemma Stored0(headers0: Headers, headers: Headers, genesis: Hash, canon: map<nat, Hash>, head: Hash,
                batch: seq<Header>)
    requires Rooted(headers0, genesis) && Rooted(headers, genesis) && CanonRight(headers0, genesis, canon, head)
    requires batch != [] && Contiguous(batch) && Fits(headers0, batch) && Attaches(headers0, batch[0])
    requires Extended(headers0, batch, |batch|, headers) && Leaf(headers0, head)
    ensures CanonRight(headers, genesis, canon, head) && Attaches(headers, batch[0]) && headers[head] == headers0[head]
    ensures TotalDifficulty(headers, genesis, head) == TotalDifficulty(headers0, genesis, head)
    ensures batch[0].parent == head ==> batch[0].hash !in headers0
  {
    AncestorStable(headers0, headers, genesis, head, 0);
    forall n: nat | n in canon
      ensures n <= headers[head].number && canon[n] == AncestorAt(headers, genesis, head, n)
    {
      AncestorStable(headers0, headers, genesis, head, n);
    }
  }

  /** A batch that lost gave the head no child: that child would have won. */
  lemma AfterLoss(headers0: Headers, headers: Headers, genesis: Hash, head: Hash, batch: seq<Header>)
    requires Rooted(headers0, genesis) && Rooted(headers, genesis) && head in headers0 && Leaf(headers0, head)
    requires batch != [] && Contiguous(batch) && Extended(headers0, batch, |batch|, headers)
    requires batch[|batch| - 1].hash in headers && head in headers
    requires TotalDifficulty(headers, genesis, batch[|batch| - 1].hash) <= TotalDifficulty(headers, genesis, head)
    ensures Leaf(headers, head)
  {
    forall h | h in headers && headers[h].number > 0
      ensures headers[h].parent != head
    {
      if h !in headers0 {
        var i :| 0 <= i < |batch| && batch[i].hash == h;
        assert headers[h] == batch[i];
        assert ParentStored(headers, h);
        Numbers(batch);
        var last := batch[|batch| - 1];
        assert headers[last.hash] == last;
        BatchAncestor(headers, genesis, batch, batch[i].number);
        DifficultyFalls(headers, genesis, last.hash, batch[i].number);
        assert TotalDifficulty(headers, genesis, h) == headers[h].difficulty + TotalDifficulty(headers, genesis,
                                                                                               headers[h].parent);
      }
    }
  }

  /** The head of a winning batch: the table is right, and nothing was built on it, exactly
      when some header was new or all were canonical already. */
  lemma AfterWin(headers0: Headers, headers: Headers, genesis: Hash, canon: map<nat, Hash>, head: Hash,
                 batch: seq<Header>, anyNew: bool, m: map<nat, Hash>)
    requires Rooted(headers0, genesis) && Rooted(headers, genesis)
    requires batch != [] && Contiguous(batch) && Attaches(headers, batch[0])
             && Extended(headers0, batch, |batch|, headers)
    requires CanonRight(headers, genesis, canon, head) && head in headers0 && Leaf(headers0, head)
    requires anyNew <==> batch[|batch| - 1].hash !in headers0
    requires !anyNew ==> forall i :: 0 <= i < |batch| ==> batch[i].hash in headers0
    requires batch[|batch| - 1].hash in headers
    requires TotalDifficulty(headers, genesis, batch[|batch| - 1].hash) >= TotalDifficulty(headers, genesis, head)
    requires Marked(headers, genesis, canon, batch, anyNew, m)
    ensures CanonRight(headers, genesis, m, batch[|batch| - 1].hash) && Leaf(headers, batch[|batch| - 1].hash)
       <==> anyNew || AlreadyCanonical(canon, batch)
  {
    var last := batch[|batch| - 1];
    assert forall i :: 0 <= i < |batch| ==> headers[batch[i].hash] == batch[i];
    MarkedIsRight(headers, genesis, canon, batch, anyNew, m);
    hide Marked;
    if anyNew {
      NewLeaf(headers0, headers, genesis, batch);
    } else if AlreadyCanonical(canon, batch) {
      assert canon[last.number] == last.hash;
      DifficultyFalls(headers, genesis, head, last.number);
      assert last.hash == head;
      assert forall h :: h in headers ==> h in headers0;
    }
  }

  lemma MarkedIsRight(headers: Headers, genesis: Hash, canon: map<nat, Hash>, batch: seq<Header>, anyNew: bool,
                      m: map<nat, Hash>)
    requires Rooted(headers, genesis) && batch != [] && Contiguous(batch) && Attaches(headers, batch[0])
    requires forall i :: 0 <= i < |batch| ==> batch[i].hash in headers && headers[batch[i].hash] == batch[i]
    requires Marked(headers, genesis, canon, batch, anyNew, m)
    ensures CanonRight(headers, genesis, m, batch[|batch| - 1].hash) <==> anyNew || AlreadyCanonical(canon, batch)
  {
    var last := batch[|batch| - 1];
    Numbers(batch);
    if anyNew || AlreadyCanonical(canon, batch) {
      forall n: nat
        ensures n in m <==> n <= last.number
        ensures n <= last.number ==> m[n] == AncestorAt(headers, genesis, last.hash, n)
      {
        if n <= last.number {
          BatchAncestor(headers, genesis, batch, n);
          if n >= batch[0].number {
            assert batch[n - batch[0].number].number == n;
          }
        }
      }
    } else {
      var i :| 0 <= i < |batch| && !(batch[i].number in canon && canon[batch[i].number] == batch[i].hash);
      BatchAncestor(headers, genesis, batch, batch[i].number);
    }
  }

  lemma NewLeaf(headers0: Headers, headers: Headers, genesis: Hash, batch: seq<Header>)
    requires Rooted(headers0, genesis) && Rooted(headers, genesis) && batch != [] && Contiguous(batch)
    requires Extended(headers0, batch, |batch|, headers) && batch[|batch| - 1].hash !in headers0
    ensures Leaf(headers, batch[|batch| - 1].hash)
  {
    var last := batch[|batch| - 1];
    Numbers(batch);
    forall h | h in headers && headers[h].number > 0
      ensures headers[h].parent != last.hash
    {
      assert ParentStored(headers, h);
      if h in headers0 {
        assert ParentStored(headers0, h);
      } else {
        var i :| 0 <= i < |batch| && batch[i].hash == h;
        assert headers[last.hash] == last && headers[h] == batch[i];
      }
    }
  }

  /** Every header of the batch is the canonical one at its height. */
  predicate AlreadyCanonical(canon: map<nat, Hash>, batch: seq<Header>) {
    forall i :: 0 <= i < |batch| ==> batch[i].number in canon && canon[batch[i].number] == batch[i].hash
  }

  /** What MarkCanonical must produce: the walk below the batch, the batch itself if any of it
      was new (else the old entries), and nothing above. */
  ghost predicate Marked(headers: Headers, genesis: Hash, canon: map<nat, Hash>, batch: seq<Header>, anyNew: bool,
                         m: map<nat, Hash>)
    requires Rooted(headers, genesis) && batch != [] && Attaches(headers, batch[0])
  {
    && (forall n: nat :: n > batch[|batch| - 1].number ==> n !in m)
    && (forall n: nat :: n < batch[0].number ==> n in m && m[n] == AncestorAt(headers, genesis, batch[0].parent, n))
    && (anyNew ==> forall i :: 0 <= i < |batch| ==> batch[i].number in m && m[batch[i].number] == batch[i].hash)
    && (!anyNew ==> forall n: nat :: batch[0].number <= n <= batch[|batch| - 1].number ==>
                                       (n in m <==> n in canon) && (n in canon ==> m[n] == canon[n]))
  }

  lemma Numbers(batch: seq<Header>)
    requires Contiguous(batch)
    ensures forall i :: 0 <= i < |batch| ==> batch[i].number == batch[0].number + i
    decreases |batch|
  {
    if |batch| > 1 {
      var k := |batch| - 1;
      var front := batch[..k];
      ContiguousFront(batch);
      Numbers(front);
      assert Follows(batch[k - 1], batch[k]);
      assert forall i :: 0 <= i < k ==> front[i] == batch[i];
    }
  }

  lemma CanonMeans(headers: Headers, genesis: Hash, canon: map<nat, Hash>, head: Hash)
    requires Rooted(headers, genesis) && CanonRight(headers, genesis, canon, head)
    ensures forall n: nat :: n in canon <==> n <= headers[head].number
    ensures forall n: nat :: n <= headers[head].number ==> canon[n] == AncestorAt(headers, genesis, head, n)
  {
  }

  lemma WalkStart(headers: Headers, genesis: Hash, canon: map<nat, Hash>, head: Hash, parent: Hash)
    requires Rooted(headers, genesis) && CanonRight(headers, genesis, canon, head) && parent in headers
    ensures AncestorAt(headers, genesis, parent, headers[parent].number) == parent
  {
  }

  lemma GenesisAtZero(headers: Headers, genesis: Hash, h: Hash)
    requires Rooted(headers, genesis) && h in headers
    ensures AncestorAt(headers, genesis, h, 0) == genesis
  {
  }

  lemma WalkStep(headers: Headers, genesis: Hash, canon: map<nat, Hash>, head: Hash, parent: Hash, n: nat)
    requires Rooted(headers, genesis) && CanonRight(headers, genesis, canon, head) && parent in headers
             && n <= headers[parent].number
    requires !(n in canon && canon[n] == AncestorAt(headers, genesis, parent, n))
    ensures n > 0 && headers[AncestorAt(headers, genesis, parent, n)].parent == AncestorAt(headers, genesis, parent,
                                                                                           n - 1)
  {
    GenesisAtZero(headers, genesis, parent);
    GenesisAtZero(headers, genesis, head);
    if n > 0 {
      AncestorLink(headers, genesis, parent, n - 1);
    }
  }

  /** Once the table agrees with the walk at one height, it does at all lower ones. */
  lemma WalkMeets(headers: Headers, genesis: Hash, canon: map<nat, Hash>, head: Hash, parent: Hash, k: nat)
    requires Rooted(headers, genesis) && CanonRight(headers, genesis, canon, head) && parent in headers
             && k <= headers[parent].number
    requires k in canon && canon[k] == AncestorAt(headers, genesis, parent, k)
    ensures forall n: nat :: n <= k ==> n in canon && canon[n] == AncestorAt(headers, genesis, parent, n)
  {
    forall n: nat | n <= k
      ensures n in canon && canon[n] == AncestorAt(headers, genesis, parent, n)
    {
      AncestorTransitive(headers, genesis, head, k, n);
      AncestorTransitive(headers, genesis, parent, k, n);
    }
  }

  lemma BatchStart(headers: Headers, genesis: Hash, td: map<Hash, nat>, batch: seq<Header>)
    requires Rooted(headers, genesis) && TdRight(headers, genesis, td) && batch != [] && Attaches(headers, batch[0])
    ensures Extended(headers, batch, 0, headers) && batch[0].parent in td
  {
  }

  /** One header of the batch: its parent is stored, and whether it is known or not, its total
      difficulty is its parent's plus its own. */
  lemma BatchStep(headers0: Headers, genesis: Hash, batch: seq<Header>, i: nat, headers: Headers, td: map<Hash, nat>)
    requires i < |batch| && Extended(headers0, batch, i, headers) && Rooted(headers0, genesis)
    requires Rooted(headers, genesis) && TdRight(headers, genesis, td) && Contiguous(batch) && Fits(headers0, batch)
    requires Attaches(headers0, batch[0])
    ensures var h := batch[i];
            var parent := if i == 0 then batch[0].parent else batch[i - 1].hash;
            && parent in td && h.parent == parent
            && (h.hash in headers0 ==> Extended(headers0, batch, i + 1, headers) && h.hash in td
                                       && td[h.hash] == td[parent] + h.difficulty)
            && (h.hash !in headers0 ==> Extended(headers0, batch, i + 1, headers[h.hash := h])
                                        && h.hash !in headers && h.hash !in td
                                        && Rooted(headers[h.hash := h], genesis)
                                        && TdRight(headers[h.hash := h], genesis,
                                                   td[h.hash := td[parent] + h.difficulty]))
  {
    hide Contiguous, Extended, Fits, Rooted, TdRight;
    var h := batch[i];
    BatchFacts(headers0, batch, i, headers);
    TdLookup(headers, genesis, td, h.parent);
    if h.hash in headers0 {
      TdOfKnown(headers, genesis, td, h);
    } else {
      AddOne(headers, genesis, td, h);
    }
  }

  lemma BatchFacts(headers0: Headers, batch: seq<Header>, i: nat, headers: Headers)
    requires i < |batch| && Extended(headers0, batch, i, headers)
    requires Contiguous(batch) && Fits(headers0, batch) && Attaches(headers0, batch[0])
    ensures var h := batch[i];
            && h.difficulty > 0 && h.number > 0 && (i > 0 ==> h.parent == batch[i - 1].hash) && Attaches(headers, h)
            && (h.hash in headers0 ==> Extended(headers0, batch, i + 1, headers) && h.hash in headers
                                       && headers[h.hash] == h)
            && (h.hash !in headers0 ==> Extended(headers0, batch, i + 1, headers[h.hash := h]) && h.hash !in headers)
  {
    assert i > 0 ==> Follows(batch[i - 1], batch[i]);
    ExtendedStep(headers0, batch, i, headers);
    ParentInExtended(headers0, batch, i, headers);
  }

  lemma TdOfKnown(headers: Headers, genesis: Hash, td: map<Hash, nat>, h: Header)
    requires Rooted(headers, genesis) && TdRight(headers, genesis, td)
    requires h.hash in headers && headers[h.hash] == h && h.number > 0
    ensures h.hash in td && h.parent in td && td[h.hash] == td[h.parent] + h.difficulty
  {
    assert ParentStored(headers, h.hash);
  }

  lemma ParentInExtended(headers0: Headers, batch: seq<Header>, i: nat, headers: Headers)
    requires i < |batch| && Extended(headers0, batch, i, headers)
    requires Attaches(headers0, batch[0]) && (i > 0 ==> Follows(batch[i - 1], batch[i]))
    ensures Attaches(headers, batch[i])
  {
  }
}

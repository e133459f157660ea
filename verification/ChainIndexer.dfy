/** The section indexer: it processes the canonical chain section by section without holding a
    lock on the chain, and records the hash of the last block of every section it finished. */
module ChainIndexer {
  import opened Transactions
  import opened Ancestry
  import HC = HeaderChain

  /** The all-zero hash: no block has it; the genesis names it as its parent. */
  const ZERO: Hash := 0

  /** What one pass of the processing loop reads: the canonical hash at a height, the header
      stored under it, and whether the backend accepted it. */
  datatype Read = Read(hash: Hash, header: Option<Header>, accepted: bool)

  type Table = map<nat, Hash>

  /** The ancestor k parent links above h. */
  ghost function Up(parentOf: Hash -> Hash, k: nat, h: Hash): Hash {
    if k == 0 then h else Up(parentOf, k - 1, parentOf(h))
  }

  /** The heights below top hold a chain from the genesis. */
  ghost predicate TableLinked(parentOf: Hash -> Hash, canon: Table, top: nat) {
    forall n: nat :: n < top ==> TableLinkedAt(parentOf, canon, n)
  }

  ghost predicate TableLinkedAt(parentOf: Hash -> Hash, canon: Table, n: nat) {
    HeadAt(canon, n) != ZERO && parentOf(HeadAt(canon, n)) == if n == 0 then ZERO else HeadAt(canon, n - 1)
  }

  lemma {:induction false} UpTable(parentOf: Hash -> Hash, canon: Table, top: nat, k: nat, n: nat)
    requires TableLinked(parentOf, canon, top) && n < top && k <= n + 1
    ensures Up(parentOf, k, HeadAt(canon, n)) == if k == n + 1 then ZERO else HeadAt(canon, n - k)
  {
    assert TableLinkedAt(parentOf, canon, n);
    if k > 0 && n > 0 {
      UpTable(parentOf, canon, top, k - 1, n - 1);
    }
  }

  /** Every section head is the section size above the one before it. */
  ghost predicate Linked(parentOf: Hash -> Hash, size: nat, heads: map<nat, Hash>, stored: nat) {
    && (forall i: nat :: i in heads <==> i < stored)
    && (forall i: nat :: i < stored ==> LinkedAt(parentOf, size, heads, i))
  }

  ghost predicate LinkedAt(parentOf: Hash -> Hash, size: nat, heads: map<nat, Hash>, i: nat) {
    HeadAt(heads, i) != ZERO && Up(parentOf, size, HeadAt(heads, i)) == if i == 0 then ZERO else HeadAt(heads, i - 1)
  }

  function HeadAt(heads: map<nat, Hash>, i: nat): Hash {
    if i in heads then heads[i] else ZERO
  }

  /** The last height of a section. */
  function LastOf(size: nat, i: nat): (n: nat)
    requires size > 0
  {
    (i + 1) * size - 1
  }

  lemma LastStep(size: nat, i: nat)
    requires size > 0 && i > 0
    ensures LastOf(size, i) == LastOf(size, i - 1) + size
  {
  }

  lemma CanonicalStep(parentOf: Hash -> Hash, size: nat, heads: map<nat, Hash>, stored: nat, canon: Table, top: nat,
                      j: nat)
    requires size > 0 && Linked(parentOf, size, heads, stored) && 0 < j < stored
    requires LastOf(size, j) < top && TableLinked(parentOf, canon, top)
    requires HeadAt(heads, j) == HeadAt(canon, LastOf(size, j))
    ensures HeadAt(heads, j - 1) == HeadAt(canon, LastOf(size, j - 1)) && LastOf(size, j - 1) < top
  {
    hide Up, TableLinked, LastOf;
    assert LinkedAt(parentOf, size, heads, j);
    LastStep(size, j);
    UpTable(parentOf, canon, top, size, LastOf(size, j));
  }

  /** If one head is canonical then so are all lower ones. */
  lemma {:induction false} CanonicalBelow(parentOf: Hash -> Hash, size: nat, heads: map<nat, Hash>, stored: nat,
                                          canon: Table, top: nat, j: nat, i: nat)
    requires size > 0 && Linked(parentOf, size, heads, stored) && i <= j < stored
    requires LastOf(size, j) < top && TableLinked(parentOf, canon, top)
    requires HeadAt(heads, j) == HeadAt(canon, LastOf(size, j))
    ensures HeadAt(heads, i) == HeadAt(canon, LastOf(size, i))
    decreases j
  {
    hide Linked, TableLinked, LastOf;
    if i < j {
      CanonicalStep(parentOf, size, heads, stored, canon, top, j);
      CanonicalBelow(parentOf, size, heads, stored, canon, top, j - 1, i);
    }
  }

  /** The header chain's table is such a chain whenever it is right. */
  lemma TableFromChain(headers: Headers, genesis: Hash, canon: map<nat, Hash>, head: Hash, parentOf: Hash -> Hash)
    requires Rooted(headers, genesis) && HC.CanonRight(headers, genesis, canon, head)
    requires ZERO !in headers && headers[genesis].parent == ZERO
    requires forall h :: h in headers ==> parentOf(h) == headers[h].parent
    ensures TableLinked(parentOf, canon, headers[head].number + 1)
  {
    hide Rooted, AncestorAt;
    forall n: nat | n <= headers[head].number
      ensures TableLinkedAt(parentOf, canon, n)
    {
      HC.GenesisAtZero(headers, genesis, head);
      if n > 0 {
        AncestorLink(headers, genesis, head, n - 1);
      }
    }
  }

  datatype Job =
    | Idle
    | Started(section: nat, oldHead: Hash)
    | Finished(section: nat, oldHead: Hash, outcome: Option<Hash>)

  /** What a job in flight knows, whatever newHead does meanwhile: sections only disappear, and
      its old head still identifies the section below it. */
  ghost predicate JobSound(parentOf: Hash -> Hash, size: nat, heads: map<nat, Hash>, stored: nat, job: Job) {
    job != Idle ==>
      && stored <= job.section
      && (job.section == 0 ==> job.oldHead == ZERO)
      && (job.section > 0 ==> job.oldHead != ZERO)
      && (job.Finished? && job.outcome.Some? ==> job.outcome.value != ZERO
                                                 && Up(parentOf, size, job.outcome.value) == job.oldHead)
  }

  /** The database returns headers under their own hash and height. */
  ghost predicate Intact(parentOf: Hash -> Hash, seen: seq<Read>) {
    forall n :: 0 <= n < |seen| && seen[n].header.Some? ==>
                  seen[n].header.value.hash == seen[n].hash && seen[n].header.value.parent == parentOf(seen[n].hash)
  }

  /** One height of a section is accepted on top of last. */
  predicate Accepts(r: Read, last: Hash) {
    r.hash != ZERO && r.header.Some? && r.header.value.parent == last && r.accepted
  }

  /** The first n heights of a section are accepted, each on top of the one before. */
  ghost predicate AllAccepted(seen: seq<Read>, oldHead: Hash, n: nat)
    requires n <= |seen|
  {
    forall k: nat :: k < n ==> AcceptedAt(seen, oldHead, k)
  }

  predicate AcceptedAt(seen: seq<Read>, oldHead: Hash, k: nat)
    requires k < |seen|
  {
    Accepts(seen[k], if k == 0 then oldHead else seen[k - 1].hash)
  }

  datatype Event =
    | NewHead(head: nat, reorg: bool)
    | Begin(table: Table)
    | Process(seen: seq<Read>, resetOk: bool, commitOk: bool)
    | Finish(table: Table)
    | Sections(table: Table)

  /** The indexer's variables. */
  datatype State = State(stored: nat, known: nat, cascaded: int, heads: map<nat, Hash>, job: Job)

  /** Comparing the last section with the table: the sections dropped from the top have another hash
      there, and the last one kept has the same. */
  ghost predicate Checked(size: nat, stored0: nat, heads0: map<nat, Hash>, table: Table, stored: nat,
                          heads: map<nat, Hash>)
    requires size > 0
  {
    && stored <= stored0 && heads == Keep(heads0, stored)
    && (forall i: nat :: stored <= i < stored0 ==> HeadAt(heads0, i) != HeadAt(table, LastOf(size, i)))
    && (stored > 0 ==> HeadAt(heads, stored - 1) == HeadAt(table, LastOf(size, stored - 1)))
  }

  /** What an event makes of the indexer; one that cannot happen changes nothing. */
  ghost predicate Steps(size: nat, confirms: nat, a: State, e: Event, b: State)
    requires size > 0
  {
    match e
    case NewHead(head, reorg) =>
      if reorg then
        var fork := (head + 1) / size;
        && b.stored == Min(a.stored, fork)
        && b == a.(stored := b.stored, known := b.known, cascaded := Min(a.cascaded, fork * size),
        heads := Keep(a.heads, b.stored))
        && b.known == Min(a.known, fork)
      else b == a.(known := b.known)
           && b.known == if head >= confirms then Max(a.known, (head + 1 - confirms) / size) else a.known
    case Begin(table) =>
      if a.job != Idle || a.known <= a.stored then b == a
      else Checked(size, a.stored, a.heads, table, b.stored, b.heads)
           && b == a.(stored := b.stored, heads := b.heads,
                   job := Started(b.stored, if b.stored == 0 then ZERO else HeadAt(b.heads, b.stored - 1)))
    case Process(seen, resetOk, commitOk) =>
      if !a.job.Started? || |seen| != size then b == a
      else
        var ok := resetOk && commitOk && AllAccepted(seen, a.job.oldHead, size);
        b == a.(stored := if resetOk then a.stored else 0, heads := if resetOk then a.heads else map[],
        job := Finished(a.job.section, a.job.oldHead, if ok then Some(seen[size - 1].hash) else None))
    case Finish(table) =>
      if !a.job.Finished? then b == a
      else if a.job.outcome.Some? && a.stored == a.job.section
              && (a.job.section == 0 || a.job.oldHead == HeadAt(a.heads, a.job.section - 1))
      then b == a.(stored := a.stored + 1, heads := a.heads[a.stored := a.job.outcome.value],
                cascaded := (a.stored + 1) * size - 1, job := Idle)
      else Checked(size, a.stored, a.heads, table, b.stored, b.heads)
           && b == a.(stored := b.stored, known := b.stored, heads := b.heads, job := Idle)
    case Sections(table) =>
      Checked(size, a.stored, a.heads, table, b.stored, b.heads) && b == a.(stored := b.stored, heads := b.heads)
  }

  /** Each of the first n events takes one state to the next. */
  ghost predicate Replay(size: nat, confirms: nat, states: seq<State>, events: seq<Event>, n: nat)
    requires size > 0
  {
    && n <= |events| && |states| == n + 1
    && forall k :: 0 <= k < n ==> StepsAt(size, confirms, states, events, k)
  }

  ghost predicate StepsAt(size: nat, confirms: nat, states: seq<State>, events: seq<Event>, k: nat)
    requires size > 0 && k < |events| && k + 1 < |states|
  {
    Steps(size, confirms, states[k], events[k], states[k + 1])
  }

  lemma ReplayStart(size: nat, confirms: nat, states: seq<State>, events: seq<Event>)
    requires size > 0 && |states| == 1
    ensures Replay(size, confirms, states, events, 0)
  {
  }

  lemma ReplayNext(size: nat, confirms: nat, states: seq<State>, events: seq<Event>, n: nat, b: State)
    requires size > 0 && Replay(size, confirms, states, events, n) && n < |events| && |states| == n + 1
    requires Steps(size, confirms, states[n], events[n], b)
    ensures Replay(size, confirms, states + [b], events, n + 1)
  {
    hide Steps;
    var more := states + [b];
    forall k | 0 <= k <= n ensures StepsAt(size, confirms, more, events, k) {
      assert k < n ==> StepsAt(size, confirms, states, events, k);
    }
  }

  class ChainIndexer {
    const size: nat
    const confirms: nat
    ghost const parentOf: Hash -> Hash
    var stored: nat
    var known: nat
    var cascaded: int
    var heads: map<nat, Hash>
    var job: Job

    ghost predicate Valid()
      reads this
    {
      size > 0 && Linked(parentOf, size, heads, stored) && JobSound(parentOf, size, heads, stored, job)
    }

    ghost function Snap(): State
      reads this
    {
      State(stored, known, cascaded, heads, job)
    }

    constructor (size: nat, confirms: nat, ghost parentOf: Hash -> Hash)
      requires size > 0
      ensures Valid() && stored == 0 && job == Idle
      ensures this.size == size && this.confirms == confirms && this.parentOf == parentOf
    {
      this.size, this.confirms, this.parentOf := size, confirms, parentOf;
      stored, known, cascaded, heads, job := 0, 0, 0, map[], Idle;
    }

    /** Sets the number of valid sections, forgetting the heads from there up to the old number. */
    method SetValidSections(sections: nat)
      modifies this`stored, this`heads
      ensures stored == sections && heads == Forget(old(heads), sections, old(stored))
    {
      assert heads == Forget(heads, stored, stored);
      while stored > sections
        invariant stored <= old(stored) && (stored >= sections || stored == old(stored))
        invariant heads == Forget(old(heads), stored, old(stored))
      {
        stored := stored - 1;
        heads := heads - {stored};
      }
      assert sections >= old(stored) ==> heads == Forget(old(heads), sections, old(stored));
      stored := sections;
    }

    /** A new chain head, or a reorganisation back to the given height. */
    method NewHead(head: nat, reorg: bool) returns (update: bool)
      requires Valid()
      modifies this`stored, this`known, this`cascaded, this`heads
      ensures Valid() && stored <= old(stored) && heads == Keep(old(heads), stored)
      ensures reorg ==> stored == Min(old(stored), (head + 1) / size) && known == Min(old(known), (head + 1) / size)
      ensures reorg ==> cascaded == Min(old(cascaded), (head + 1) / size * size)
      ensures !reorg ==> stored == old(stored) && cascaded == old(cascaded)
      ensures !reorg ==> known == if head >= confirms then Max(old(known), (head + 1 - confirms) / size) else old(known)
      ensures update <==> !reorg && known > old(known)
    {
      update := false;
      if reorg {
        var fork := (head + 1) / size;
        if fork < known {
          known := fork;
        }
        if fork < stored {
          KeepsLinks(parentOf, size, heads, stored, fork);
          ForgetIsKeep(heads, fork, stored);
          SetValidSections(fork);
        } else {
          assert heads == Keep(heads, stored);
        }
        if fork * size < cascaded {
          cascaded := fork * size;
        }
        return;
      }
      assert heads == Keep(heads, stored);
      if head >= confirms {
        var sections := (head + 1 - confirms) / size;
        if sections > known {
          known := sections;
          update := true;
        }
      }
    }

    /** Compares the last section head with the table and drops reorged sections.  On a linked
        table the sections that stay are exactly those whose head is canonical. */
    method VerifyLastHead(table: Table)
      requires Valid()
      modifies this`stored, this`heads
      ensures Valid() && Checked(size, old(stored), old(heads), table, stored, heads)
      ensures forall top: nat :: TableLinked(parentOf, table, top) && stored * size <= top ==>
                                   AllCanonical(size, heads, stored, table)
    {
      hide Linked, TableLinked;
      LinkedKeys(parentOf, size, heads, stored);
      assert heads == Keep(heads, stored);
      while stored > 0 && HeadAt(heads, stored - 1) != HeadAt(table, stored * size - 1)
        invariant stored <= old(stored) && heads == Keep(old(heads), stored)
        invariant Valid()
        invariant forall i: nat :: stored <= i < old(stored) ==> HeadAt(old(heads), i) != HeadAt(table, LastOf(size, i))
      {
        KeepsLinks(parentOf, size, heads, stored, stored - 1);
        LinkedKeys(parentOf, size, heads, stored);
        ForgetIsKeep(heads, stored - 1, stored);
        SetValidSections(stored - 1);
      }
      if stored > 0 {
        assert LastOf(size, stored - 1) == stored * size - 1;
        forall top: nat | TableLinked(parentOf, table, top)
                          && stored * size <= top ensures AllCanonical(size, heads, stored, table) {
          CanonicalPrefix(parentOf, size, heads, stored, table, top);
        }
      }
    }

    /** Picks the next section to process, under the lock. */
    method BeginUpdate(table: Table)
      requires Valid() && job == Idle
      modifies this`stored, this`heads, this`job
      ensures Valid() && stored <= old(stored) && heads == Keep(old(heads), stored)
      ensures known <= old(stored) ==> unchanged(this)
      ensures known > old(stored) ==> Checked(size, old(stored), old(heads), table, stored, heads)
      ensures known > old(stored) ==> job == Started(stored, if stored == 0 then ZERO else HeadAt(heads, stored - 1))
    {
      hide Linked, TableLinked;
      LinkedKeys(parentOf, size, heads, stored);
      assert heads == Keep(heads, stored);
      if known > stored {
        VerifyLastHead(table);
        LinkedHead(parentOf, size, heads, stored);
        job := Started(stored, if stored == 0 then ZERO else HeadAt(heads, stored - 1));
      }
    }

    /** Processes a section without the lock: seen[i] is what was read at the section's i-th
        height, and every read may see another canonical table.  It succeeds exactly when all
        heights were accepted, each on top of the one before. */
    method ProcessSection(seen: seq<Read>, resetOk: bool, commitOk: bool)
      requires Valid() && job.Started? && |seen| == size && Intact(parentOf, seen)
      modifies this`stored, this`heads, this`job
      ensures Valid() && job.Finished? && job.section == old(job.section) && job.oldHead == old(job.oldHead)
      ensures job.outcome.Some? <==> resetOk && commitOk && AllAccepted(seen, job.oldHead, size)
      ensures job.outcome.Some? ==> job.outcome.value == seen[size - 1].hash
      ensures if resetOk then stored == old(stored) && heads == old(heads) else stored == 0 && heads == map[]
    {
      hide Linked;
      var section, oldHead := job.section, job.oldHead;
      LinkedKeys(parentOf, size, heads, stored);
      if !resetOk {
        KeepsLinks(parentOf, size, heads, stored, 0);
        ForgetIsKeep(heads, 0, stored);
        SetValidSections(0);
        job := Finished(section, oldHead, None);
        return;
      }
      var last, i := oldHead, 0;
      while i < size
        invariant i <= size
        invariant last == (if i == 0 then oldHead else seen[i - 1].hash)
        invariant i > 0 ==> last != ZERO
        invariant Up(parentOf, i, last) == oldHead
        invariant AllAccepted(seen, oldHead, i)
      {
        if !Accepts(seen[i], last) {
          assert !AllAccepted(seen, oldHead, size) by {
            assert !AcceptedAt(seen, oldHead, i);
          }
          job := Finished(section, oldHead, None);
          return;
        }
        assert AcceptedAt(seen, oldHead, i);
        assert parentOf(seen[i].hash) == last;
        assert Up(parentOf, i + 1, seen[i].hash) == Up(parentOf, i, last);
        last := seen[i].hash;
        i := i + 1;
      }
      job := Finished(section, oldHead, if commitOk then Some(last) else None);
    }

    /** Records the processed section if nothing below it was reorged meanwhile; otherwise drops
        what is no longer canonical and waits for the next notification. */
    method FinishUpdate(table: Table)
      requires Valid() && job.Finished?
      modifies this`stored, this`known, this`cascaded, this`heads, this`job
      ensures Valid() && job == Idle
      ensures var j := old(job);
              if j.outcome.Some? && old(stored) == j.section
                 && (j.section == 0 || j.oldHead == HeadAt(old(heads), j.section - 1)) then
                && stored == j.section + 1 && heads == old(heads)[j.section := j.outcome.value]
                && cascaded == LastOf(size, j.section) && known == old(known)
              else
                && Checked(size, old(stored), old(heads), table, stored, heads) && known == stored
                && cascaded == old(cascaded)
                && forall top: nat :: TableLinked(parentOf, table, top) && stored * size <= top ==>
                                        AllCanonical(size, heads, stored, table)
    {
      hide Linked, TableLinked, AllCanonical;
      LinkedKeys(parentOf, size, heads, stored);
      var section, oldHead := job.section, job.oldHead;
      if job.outcome.Some? && (section == 0 || oldHead == HeadAt(heads, section - 1)) {
        AppendLinks(parentOf, size, heads, stored, job.outcome.value);
        ghost var longer := heads[section := job.outcome.value];
        heads := heads[section := job.outcome.value];
        ForgetIsKeep(heads, section + 1, stored);
        SetValidSections(section + 1);
        assert heads == longer;
        LastHeight(size, section);
        cascaded := stored * size - 1;
      } else {
        VerifyLastHead(table);
        known := stored;
      }
      job := Idle;
    }

    /** The number of valid sections, the last height they cover and its hash. */
    method GetSections(table: Table) returns (sections: nat, last: nat, head: Hash)
      requires Valid()
      modifies this`stored, this`heads
      ensures Valid() && Checked(size, old(stored), old(heads), table, stored, heads) && sections == stored
      ensures forall top: nat :: TableLinked(parentOf, table, top) && stored * size <= top ==>
                                   AllCanonical(size, heads, stored, table)
      ensures last == if sections == 0 then MAX_UINT64 else LastOf(size, sections - 1)
      ensures head == if sections == 0 then ZERO else HeadAt(table, last)
    {
      hide Linked, TableLinked, AllCanonical;
      VerifyLastHead(table);
      sections := stored;
      if stored == 0 {
        last, head := MAX_UINT64, ZERO;
      } else {
        LastHeight(size, stored - 1);
        last, head := stored * size - 1, HeadAt(heads, stored - 1);
      }
    }

    /** Whole runs: notifications, reorganisations and queries in any interleaving with the three
        phases of the update loop.  Each state is the one its event makes of the state before, and
        the section heads stay hash-linked. */
    method Run(events: seq<Event>) returns (ghost states: seq<State>)
      requires Valid() && forall e :: e in events && e.Process? ==> |e.seen| == size && Intact(parentOf, e.seen)
      modifies this
      ensures Valid()
      ensures Replay(size, confirms, states, events, |events|) && states[0] == old(Snap()) && states[|events|] == Snap()
    {
      hide Linked, TableLinked, AllCanonical, JobSound, Intact, Steps, Replay;
      states := [Snap()];
      ReplayStart(size, confirms, states, events);
      for i := 0 to |events|
        invariant Valid() && |states| == i + 1
        invariant Replay(size, confirms, states, events, i) && states[0] == old(Snap()) && states[i] == Snap()
      {
        assert events[i] in events;
        Handle(events[i]);
        ReplayNext(size, confirms, states, events, i, Snap());
        states := states + [Snap()];
      }
    }

    /** One event, if it can happen. */
    method Handle(e: Event)
      requires Valid() && (e.Process? ==> |e.seen| == size && Intact(parentOf, e.seen))
      modifies this
      ensures Valid() && Steps(size, confirms, old(Snap()), e, Snap())
    {
      hide Linked, TableLinked, AllCanonical, JobSound, Intact, AllAccepted, Checked, Keep;
      match e {
        case NewHead(head, reorg) =>
          KeepsAll(parentOf, size, heads, stored);
          var _ := NewHead(head, reorg);
        case Begin(table) =>
          if job == Idle {
            BeginUpdate(table);
          }
        case Process(seen, resetOk, commitOk) =>
          if job.Started? {
            ProcessSection(seen, resetOk, commitOk);
          }
        case Finish(table) =>
          if job.Finished? {
            LastHeight(size, job.section);
            FinishUpdate(table);
          }
        case Sections(table) =>
          var _, _, _ := GetSections(table);
      }
    }
  }

  lemma KeepsAll(parentOf: Hash -> Hash, size: nat, heads: map<nat, Hash>, stored: nat)
    requires Linked(parentOf, size, heads, stored)
    ensures Keep(heads, stored) == heads
  {
    LinkedKeys(parentOf, size, heads, stored);
  }

  lemma LastHeight(size: nat, i: nat)
    requires size > 0
    ensures LastOf(size, i) == i * size + size - 1 == (i + 1) * size - 1
  {
  }

  lemma LinkedHead(parentOf: Hash -> Hash, size: nat, heads: map<nat, Hash>, stored: nat)
    requires Linked(parentOf, size, heads, stored)
    ensures stored > 0 ==> HeadAt(heads, stored - 1) != ZERO
  {
    assert stored > 0 ==> LinkedAt(parentOf, size, heads, stored - 1);
  }

  lemma AppendLinks(parentOf: Hash -> Hash, size: nat, heads: map<nat, Hash>, stored: nat, h: Hash)
    requires Linked(parentOf, size, heads, stored) && h != ZERO
    requires Up(parentOf, size, h) == if stored == 0 then ZERO else HeadAt(heads, stored - 1)
    ensures Linked(parentOf, size, heads[stored := h], stored + 1)
    ensures heads[stored := h] == Keep(heads[stored := h], stored + 1)
  {
    hide Up;
    var longer := heads[stored := h];
    forall i: nat | i <= stored ensures LinkedAt(parentOf, size, longer, i) {
      assert i < stored ==> LinkedAt(parentOf, size, heads, i);
    }
  }

  function Min(a: int, b: int): int {
    if a < b then a else b
  }

  function Max(a: int, b: int): int {
    if a < b then b else a
  }

  /** Every stored section head is the canonical hash at its height. */
  ghost predicate AllCanonical(size: nat, heads: map<nat, Hash>, stored: nat, table: Table)
    requires size > 0
  {
    forall i: nat :: i < stored ==> HeadAt(heads, i) == HeadAt(table, LastOf(size, i))
  }

  lemma LinkedKeys(parentOf: Hash -> Hash, size: nat, heads: map<nat, Hash>, stored: nat)
    requires Linked(parentOf, size, heads, stored)
    ensures forall i: nat :: i in heads <==> i < stored
  {
  }

  lemma CanonicalPrefix(parentOf: Hash -> Hash, size: nat, heads: map<nat, Hash>, stored: nat, table: Table, top: nat)
    requires size > 0 && Linked(parentOf, size, heads, stored) && stored > 0
    requires stored * size <= top && TableLinked(parentOf, table, top)
    requires HeadAt(heads, stored - 1) == HeadAt(table, LastOf(size, stored - 1))
    ensures AllCanonical(size, heads, stored, table)
  {
    forall i: nat | i < stored ensures HeadAt(heads, i) == HeadAt(table, LastOf(size, i)) {
      CanonicalBelow(parentOf, size, heads, stored, table, top, stored - 1, i);
    }
  }

  lemma KeepsLinks(parentOf: Hash -> Hash, size: nat, heads: map<nat, Hash>, stored: nat, n: nat)
    requires Linked(parentOf, size, heads, stored) && n <= stored
    ensures Linked(parentOf, size, Keep(heads, n), n)
  {
    var kept := Keep(heads, n);
    forall i: nat | i < n ensures LinkedAt(parentOf, size, kept, i) {
      assert LinkedAt(parentOf, size, heads, i);
    }
  }

  function Forget(heads: map<nat, Hash>, lo: nat, hi: nat): map<nat, Hash> {
    map i | i in heads && !(lo <= i < hi) :: heads[i]
  }

  /** With no heads beyond the stored ones, forgetting is keeping those below. */
  lemma ForgetIsKeep(heads: map<nat, Hash>, lo: nat, hi: nat)
    requires forall i: nat :: i in heads ==> i < hi || i < lo
    ensures Forget(heads, lo, hi) == Keep(heads, lo)
  {
  }

  function Keep(heads: map<nat, Hash>, n: nat): map<nat, Hash> {
    map i | i in heads && i < n :: heads[i]
  }
}

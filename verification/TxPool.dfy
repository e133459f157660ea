/** The transaction pool. Each method is one mutex-held section or a part of one. A list is
    its plain nonce map; times are abstract numbers. */
module TxPool {
  import opened Transactions
  import opened NonceMap
  import opened TxList
  import opened PoolSpec
  import opened PoolLaws
  import opened PoolLedger
  import opened ReorgGaps
  import opened PoolFairness
  import opened PricedList
  import Heap
  import SetSum

  datatype Config = Config(accountSlots: nat, globalSlots: nat, accountQueue: nat, globalQueue: nat, priceBump: nat) {
    /** What sanitize guarantees. */
    predicate Sane() {
      accountSlots >= 1 && globalSlots >= 1 && accountQueue >= 1 && globalQueue >= 1 && priceBump >= 1
    }
  }

  /** What add answers. */
  datatype AddResult =
    | Accepted
    | AlreadyKnown
    | Malformed
    | GasLimit
    | InvalidSender
    | NonceTooLow
    | InsufficientFunds
    | IntrinsicGas
    | Underpriced
    | Overflow
    | ReplaceUnderpriced

  /** The parts of validation that are not about the pool: format (type, size, value sign),
      signature, and gas above the intrinsic cost. */
  datatype Checks = Checks(format: bool, signed: bool, intrinsic: bool)

  datatype Submission = Submission(tx: Tx, checks: Checks)

  /** A reset to a new head: whether its state could be loaded, that state, and the
      transactions to reinject. */
  datatype ResetRequest = ResetRequest(loaded: bool, nonces: map<Address, nat>, balances: map<Address, nat>,
                                       maxGas: nat,
                                       reinject: seq<Submission>)

  /** The new head descends from the old one, so that there is nothing to reinject and no state nonce
      falls; or its state could not be loaded. */
  ghost predicate Descends(nonces: map<Address, nat>, req: ResetRequest) {
    req.loaded ==> req.reinject == [] && forall a :: NonceOf(nonces, a) <= NonceOf(req.nonces, a)
  }

  datatype PoolEvent =
    | AddBatch(subs: seq<Submission>, local: bool, now: int)
    | Reorg(reset: Option<ResetRequest>, dirty: set<Address>, now: int)
    | Evict(now: int, lifetime: int)

  /** Every transaction that arrives has a positive size. */
  ghost predicate Sized(e: PoolEvent) {
    match e
    case AddBatch(subs, _, _) => forall i :: 0 <= i < |subs| ==> subs[i].tx.size > 0
    case Reorg(reset, _, _) => reset.Some? ==> forall i :: 0 <= i < |reset.value.reinject| ==>
                                                             reset.value.reinject[i].tx.size > 0
    case Evict(_, _) => true
  }

  /** Every head of the run descends from the one before it, starting from the given state. */
  ghost predicate AllDescend(nonces: map<Address, nat>, events: seq<PoolEvent>)
    decreases |events|
  {
    events == [] ||
    if events[0].Reorg? && events[0].reset.Some? then
      Descends(nonces, events[0].reset.value) && AllDescend(NoncesAfter(nonces, events[0].reset.value), events[1..])
    else AllDescend(nonces, events[1..])
  }

  function NoncesAfter(nonces: map<Address, nat>, req: ResetRequest): map<Address, nat> {
    if req.loaded then req.nonces else nonces
  }

  lemma DescendStep(nonces: map<Address, nat>, events: seq<PoolEvent>)
    requires events != [] && AllDescend(nonces, events)
    ensures if events[0].Reorg? && events[0].reset.Some?
            then Descends(nonces, events[0].reset.value)
                 && AllDescend(NoncesAfter(nonces, events[0].reset.value), events[1..])
            else AllDescend(nonces, events[1..])
  {
  }

  /** The lists and heartbeats after the reset, the promotion and the demotion of a run, and what
      became of the reinjected transactions. */
  datatype Stages = Stages(reset: View, beats0: map<Address, int>, promoted: View, beats1: map<Address, int>,
                           shuffled: View, beats: map<Address, int>, batch: Batch)

  /** Where truncation stopped: the water level, and the cut in the queue's drain order. */
  datatype Cuts = Cuts(level: nat, order: seq<Address>, cut: nat, keep: nat)

  /** Where a run starts: without a reset, or when the state does not load, from the pool as it is;
      otherwise with an empty noncer, from the same lists if there is nothing to reinject, and in
      general from lists that add up to what the reinjected batch left, with each account's pending
      nonces and virtual nonce as they were or cut below an evicted nonce. */
  ghost predicate Entered(config: Config, env: Env, reset: Option<ResetRequest>, now: int, l: Ledger, b: Sight,
                          st: Stages) {
    && (reset.None? || !reset.value.loaded ==> Ledger(st.reset, st.beats0) == l)
    && (reset.Some? && reset.value.loaded && reset.value.reinject == [] ==>
          st.reset == View(l.view.pending, l.view.queue, map[]))
    && (reset.Some? && reset.value.loaded ==>
          var subs := reset.value.reinject;
          && BatchRight(config, ResetEnv(env, reset.value), subs, false, now, st.batch, |subs|)
          && st.batch.sights[0] == b && Consistent(st.reset.pending, st.reset.queue, st.batch.sights[|subs|].all)
          && st.batch.ledgers[0] == Ledger(l.view.(noncer := map[]), l.beats)
          && st.batch.ledgers[|subs|] == Ledger(st.reset, st.beats0)
          && AllCut(reset.value.nonces, l.view.(noncer := map[]), st.reset))
  }

  /** Exactly the accounts that close after the reset end settled. */
  ghost predicate SettledWhere(env: Env, st: Stages) {
    forall a :: SettledAt(env, st.shuffled, a) <==> Closes(env, st.reset, a)
  }

  /** The state a run leaves the pool with. */
  function RunEnv(env: Env, reset: Option<ResetRequest>): Env {
    if reset.Some? && reset.value.loaded then ResetEnv(env, reset.value) else env
  }

  function ResetEnv(env: Env, req: ResetRequest): Env {
    env.(nonces := req.nonces, balances := req.balances, maxGas := req.maxGas)
  }

  /** The answers to a batch, and the pool before each submission and at the end: what admission saw of
      it, its lists and heartbeats. */
  datatype Batch = Batch(answers: seq<Answer>, sights: seq<Sight>, ledgers: seq<Ledger>)

  /** Each of the first n submissions is answered by the pool that the one before it left. */
  ghost predicate BatchRight(config: Config, env: Env, subs: seq<Submission>, local: bool, now: int, batch: Batch,
                             n: nat) {
    && |batch.answers| == n && |batch.sights| == |batch.ledgers| == n + 1 && n <= |subs|
    && forall i :: 0 <= i < n ==> AnsweredAt(config, env, subs, local, now, batch, i)
  }

  ghost predicate AnsweredAt(config: Config, env: Env, subs: seq<Submission>, local: bool, now: int, batch: Batch,
                             i: nat)
    requires i < |subs| && i < |batch.answers| && i + 1 < |batch.sights| && i + 1 < |batch.ledgers|
  {
    && AddRight(config, env, batch.sights[i], subs[i], local, batch.answers[i], batch.sights[i + 1])
    && ListsRight(env.nonces, batch.ledgers[i], subs[i].tx, batch.answers[i], now, batch.ledgers[i + 1])
  }

  /** Submission i is a new transaction of account a that replaced none. */
  ghost predicate NewFrom(subs: seq<Submission>, batch: Batch, i: nat, a: Address)
    requires i < |subs| && i < |batch.answers|
  {
    subs[i].tx.sender == a && batch.answers[i].err == Accepted && !batch.answers[i].replaced
  }

  lemma BatchStart(config: Config, env: Env, subs: seq<Submission>, local: bool, now: int, batch: Batch)
    requires batch.answers == [] && |batch.sights| == |batch.ledgers| == 1
    ensures BatchRight(config, env, subs, local, now, batch, 0)
  {
  }

  function Extended(batch: Batch, answer: Answer, c: Sight, l: Ledger): Batch {
    Batch(batch.answers + [answer], batch.sights + [c], batch.ledgers + [l])
  }

  lemma BatchStep(config: Config, env: Env, subs: seq<Submission>, local: bool, now: int, batch: Batch, i: nat,
                  answer: Answer, c: Sight, l: Ledger)
    requires BatchRight(config, env, subs, local, now, batch, i) && i < |subs|
             && |batch.sights| == |batch.ledgers| == i + 1
    requires AddRight(config, env, batch.sights[i], subs[i], local, answer, c)
    requires ListsRight(env.nonces, batch.ledgers[i], subs[i].tx, answer, now, l)
    ensures BatchRight(config, env, subs, local, now, Extended(batch, answer, c, l), i + 1)
  {
    hide AddRight, ListsRight;
    var more := Extended(batch, answer, c, l);
    forall j | 0 <= j <= i ensures AnsweredAt(config, env, subs, local, now, more, j) {
      assert j < i ==> AnsweredAt(config, env, subs, local, now, batch, j);
    }
  }

  /** Validation depends on the state, not on which accounts are local. */
  lemma SameRules(config: Config, env: Env, env': Env, b: Sight, sub: Submission, local: bool, a: Answer, c: Sight)
    requires env.nonces == env'.nonces && env.balances == env'.balances && env.maxGas == env'.maxGas
    requires AddRight(config, env, b, sub, local, a, c)
    ensures AddRight(config, env', b, sub, local, a, c)
  {
    assert InvalidWhy(sub.tx, sub.checks, env) == InvalidWhy(sub.tx, sub.checks, env');
    hide IsUnderpriced, IsOverflow, Evicts, Standing, Outbids, InvalidWhy, Full, RemotesRight;
  }

  lemma RemoteKeepsLocals(config: Config, env: Env, b: Sight, sub: Submission, local: bool, a: Answer, c: Sight)
    requires AddRight(config, env, b, sub, local, a, c)
    ensures !local ==> c.locals == b.locals
  {
    hide Evicts, Verdict, RemotesRight, Standing;
  }

  lemma DirtyStep(subs: seq<Submission>, before: Batch, batch: Batch, i: nat, d: set<Address>, dirty: set<Address>)
    requires i < |subs| && |before.answers| == i && |batch.answers| == i + 1 && batch.answers[..i] == before.answers
    requires forall a :: a in d <==> exists j :: 0 <= j < i && NewFrom(subs, before, j, a)
    requires dirty == if batch.answers[i].err == Accepted && !batch.answers[i].replaced then d + {subs[i].tx.sender}
                      else d
    ensures forall a :: a in dirty <==> exists j :: 0 <= j < i + 1 && NewFrom(subs, batch, j, a)
  {
    forall a, j | 0 <= j < i ensures NewFrom(subs, before, j, a) <==> NewFrom(subs, batch, j, a) {
      assert batch.answers[..i][j] == before.answers[j];
    }
    forall a ensures a in dirty <==> exists j :: 0 <= j < i + 1 && NewFrom(subs, batch, j, a) {
      if a in d {
        var j :| 0 <= j < i && NewFrom(subs, before, j, a);
        assert NewFrom(subs, batch, j, a);
      } else if a in dirty {
        assert NewFrom(subs, batch, i, a);
      }
    }
  }

  /** What a run does to the intervals when the state is the same. */
  lemma RunSettles(env: Env, resets: bool, accounts: set<Address>, v0: View, v1: View, v2: View)
    requires Intervals(v0.pending, v0.queue, v0.noncer, env.nonces) && AllPromoted(env, v0, v1, accounts)
    requires if resets then AllDemoted(env, v1, v2, v1.pending.Keys) else v2 == v1
    requires Payables(v0.pending, env.balances, env.maxGas)
    ensures Settled(env, v2)
  {
    hide Intervals, AllPromoted, AllDemoted, Settled, Payables;
    PromotionKeepsIntervals(env, v0, v1, accounts);
    PromotionPays(env, v0, v1, accounts);
    if resets {
      DemotionIdle(env, v1, v2);
    }
    IntervalsSettle(env, v2);
  }

  /** What it does to them under a new head: exactly the accounts that close are settled, and if the
      head descends from the old one those are all. */
  lemma HeadSettles(nonces: map<Address, nat>, was: View, env: Env, req: ResetRequest, s: set<Tx>, st: Stages)
    requires Intervals(was.pending, was.queue, was.noncer, nonces) && req.loaded && env.nonces == req.nonces
    requires AllCut(env.nonces, was.(noncer := map[]), st.reset) && Consistent(st.reset.pending, st.reset.queue, s)
    requires req.reinject == [] ==> st.reset == was.(noncer := map[])
    requires AllPromoted(env, st.reset, st.promoted, st.reset.queue.Keys)
             && AllDemoted(env, st.promoted, st.shuffled, st.promoted.pending.Keys)
    ensures SettledWhere(env, st) && (Descends(nonces, req) ==> Settled(env, st.shuffled))
  {
    hide Intervals, AllCut, AllPromoted, AllDemoted, SettledAt, Closes, Get;
    SettledExactly(nonces, was, env, st.reset, st.promoted, st.shuffled);
    if Descends(nonces, req) {
      DescendingCloses(nonces, env, st.reset, was.noncer);
    }
  }

  lemma TruncatedIs(config: Config, locals: set<Address>, st: Stages, cuts: Cuts, pending: Lists, queue: Lists)
    requires Total(st.shuffled.pending) <= config.globalSlots ==> pending == st.shuffled.pending
    requires Total(st.shuffled.pending) > config.globalSlots ==>
               && WaterLevel(st.shuffled.pending, locals, config.accountSlots, config.globalSlots, cuts.level)
               && AtLevel(st.shuffled.pending, locals, cuts.level, pending)
    requires Total(st.shuffled.queue) <= config.globalQueue ==> queue == st.shuffled.queue
    requires Total(st.shuffled.queue) > config.globalQueue ==>
               QueueCut(st.shuffled.queue, locals, st.beats, config.globalQueue, cuts.order, cuts.cut, cuts.keep, queue)
    ensures TruncatedTo(config, locals, st, cuts, pending, queue)
  {
    hide Total, WaterLevel, AtLevel, QueueCut;
  }

  /** What truncation of the pending lists means for the limits and for payability. */
  lemma LevelMeans(config: Config, m0: Lists, locals: set<Address>, level: nat, m: Lists, balances: map<Address, nat>,
                   maxGas: nat)
    requires WellListed(m0) && WellListed(m) && config.Sane()
    requires Total(m0) <= config.globalSlots ==> m == m0
    requires Total(m0) > config.globalSlots ==>
               WaterLevel(m0, locals, config.accountSlots, config.globalSlots, level) && AtLevel(m0, locals, level, m)
    ensures Total(m) <= config.globalSlots || forall a :: a !in locals ==> |Get(m, a)| <= config.accountSlots
    ensures Total(m0) > config.globalSlots ==> level >= 1
    ensures Payables(m0, balances, maxGas) ==> Payables(m, balances, maxGas)
    ensures Within(m, m0)
  {
    hide Total, WaterLevel, AtLevel, WellListed, Payables, Within, Get;
    LevelWithin(m0, locals, level, m);
    if Total(m0) > config.globalSlots {
      WaterLevelLimits(m0, locals, config.accountSlots, config.globalSlots, level, m);
      WaterLevelAbove(m0, locals, config.accountSlots, config.globalSlots, level);
    }
    if Payables(m0, balances, maxGas) {
      PayablesWithin(m, m0, balances, maxGas);
    }
  }

  lemma LevelWithin(m0: Lists, locals: set<Address>, level: nat, m: Lists)
    ensures AtLevel(m0, locals, level, m) || m == m0 ==> Within(m, m0)
  {
    hide Lowest;
  }

  /** Exactly the dirty accounts, or after a reset all queued ones, are promoted; after a reset all
      pending ones are then demoted. */
  ghost predicate Shuffled(env: Env, resets: bool, dirty: set<Address>, now: int, st: Stages) {
    var accounts := if resets then st.reset.queue.Keys else dirty;
    && AllPromoted(env, st.reset, st.promoted, accounts)
    && BeatsPromoted(Ledger(st.reset, st.beats0), Ledger(st.promoted, st.beats1), accounts, now)
    && if resets
       then AllDemoted(env, st.promoted, st.shuffled, st.promoted.pending.Keys)
            && BeatsDemoted(Ledger(st.promoted, st.beats1), Ledger(st.shuffled, st.beats), now)
       else st.shuffled == st.promoted && st.beats == st.beats1
  }

  /** Each side is cut only if it is over its limit, and then as the truncation law says. */
  ghost predicate TruncatedTo(config: Config, locals: set<Address>, st: Stages, cuts: Cuts, pending: Lists,
                              queue: Lists) {
    && (if Total(st.shuffled.pending) <= config.globalSlots then pending == st.shuffled.pending
        else WaterLevel(st.shuffled.pending, locals, config.accountSlots, config.globalSlots, cuts.level)
             && AtLevel(st.shuffled.pending, locals, cuts.level, pending))
    && (if Total(st.shuffled.queue) <= config.globalQueue then queue == st.shuffled.queue
        else QueueCut(st.shuffled.queue, locals, st.beats, config.globalQueue, cuts.order, cuts.cut, cuts.keep, queue))
  }

  /** Truncation in plain terms: locals keep everything, a shortened account keeps its guarantee, no
      remote account keeps more pending transactions than a shortened one, and of two remote queues
      the one with the later heartbeat is cut first. */
  lemma TruncationMeans(config: Config, locals: set<Address>, st: Stages, cuts: Cuts, pending: Lists, queue: Lists)
    requires TruncatedTo(config, locals, st, cuts, pending, queue) && WellListed(queue)
    ensures forall a :: a in locals ==> Get(pending, a) == Get(st.shuffled.pending, a)
                                        && Get(queue, a) == Get(st.shuffled.queue, a)
    ensures forall a :: Get(pending, a) != Get(st.shuffled.pending, a) ==> |Get(pending, a)| >= config.accountSlots
    ensures forall a, b :: Get(pending, a) != Get(st.shuffled.pending, a) && b !in locals ==>
                             |Get(pending, b)| <= |Get(pending, a)|
    ensures forall a, b :: Get(queue, a) != Get(st.shuffled.queue, a) && b !in locals && b in queue
                           && Get(queue, b) == Get(st.shuffled.queue, b) && a in st.beats && b in st.beats ==>
                             st.beats[b] <= st.beats[a]
  {
    PendingCutMeans(config, locals, st, cuts, pending);
    if Total(st.shuffled.queue) > config.globalQueue {
      QueueCutMeans(st.shuffled.queue, locals, st.beats, config.globalQueue, cuts, queue);
    }
  }

  lemma PendingCutMeans(config: Config, locals: set<Address>, st: Stages, cuts: Cuts, pending: Lists)
    requires if Total(st.shuffled.pending) <= config.globalSlots then pending == st.shuffled.pending
             else WaterLevel(st.shuffled.pending, locals, config.accountSlots, config.globalSlots, cuts.level)
                  && AtLevel(st.shuffled.pending, locals, cuts.level, pending)
    ensures forall a :: a in locals ==> Get(pending, a) == Get(st.shuffled.pending, a)
    ensures forall a :: Get(pending, a) != Get(st.shuffled.pending, a) ==> |Get(pending, a)| >= config.accountSlots
    ensures forall a, b :: Get(pending, a) != Get(st.shuffled.pending, a) && b !in locals ==>
                             |Get(pending, b)| <= |Get(pending, a)|
  {
    hide Total, LevelTotal, Get;
    if Total(st.shuffled.pending) > config.globalSlots {
      forall a
        ensures a in locals ==> Get(pending, a) == Get(st.shuffled.pending, a)
        ensures a !in locals ==> |Get(pending, a)| <= cuts.level
        ensures Get(pending, a) != Get(st.shuffled.pending, a) ==> |Get(pending, a)| == cuts.level
      {
        assert Get(pending, a) == LevelList(st.shuffled.pending, locals, cuts.level, a);
      }
    }
  }

  lemma QueueCutMeans(m0: Lists, locals: set<Address>, beats: map<Address, int>, limit: int, cuts: Cuts, m: Lists)
    requires QueueCut(m0, locals, beats, limit, cuts.order, cuts.cut, cuts.keep, m) && WellListed(m)
    ensures forall a :: a in locals ==> Get(m, a) == Get(m0, a)
    ensures forall a, b :: Get(m, a) != Get(m0, a) && b !in locals && b in m && Get(m, b) == Get(m0, b)
                           && a in beats && b in beats ==>
                             beats[b] <= beats[a]
  {
    hide Total, LocalTotal, Lowest;
    var order, cut := cuts.order, cuts.cut;
    forall a | Get(m, a) != Get(m0, a)
      ensures a !in locals && exists i :: cut - 1 <= i < |order| && 0 <= i && order[i] == a
    {
      CutPlace(m0, order, cut, cuts.keep, m, a);
    }
    forall a, b | Get(m, a) != Get(m0, a) && b !in locals && b in m && Get(m, b) == Get(m0, b)
                  && a in beats && b in beats
      ensures beats[b] <= beats[a]
    {
      var i :| cut - 1 <= i < |order| && 0 <= i && order[i] == a;
      KeptPlace(m0, order, cut, cuts.keep, m, b);
      assert b in m0;
      var j :| 0 <= j < |order| && order[j] == b;
      assert j <= i;
      assert BeatOf(beats)(order[j]) <= BeatOf(beats)(order[i]);
    }
  }

  lemma CutPlace(m0: Lists, order: seq<Address>, cut: nat, keep: nat, m: Lists, a: Address)
    requires cut <= |order| && DrainedFrom(m0, order, cut, keep, m) && Get(m, a) != Get(m0, a)
    ensures a in order && exists i :: cut - 1 <= i < |order| && 0 <= i && order[i] == a
  {
    hide Lowest, Get;
    if a in order[cut..] {
      var k :| 0 <= k < |order[cut..]| && order[cut..][k] == a;
      assert order[cut + k] == a;
    }
  }

  lemma KeptPlace(m0: Lists, order: seq<Address>, cut: nat, keep: nat, m: Lists, b: Address)
    requires cut <= |order| && DrainedFrom(m0, order, cut, keep, m) && b in m && m[b] != map[]
    ensures forall j :: cut <= j < |order| ==> order[j] != b
  {
    hide Lowest;
    forall j | cut <= j < |order| ensures order[j] in order[cut..] {
      assert order[cut..][j - cut] == order[j];
    }
  }

  /** The pool-full test: a number of transactions plus the slots of one. */
  predicate Full(s: set<Tx>, tx: Tx, config: Config) {
    |s| + NumSlots(tx) > config.globalSlots + config.globalQueue
  }

  ghost function SlotsNeeded(s: set<Tx>, tx: Tx, config: Config): int {
    SumSlots(s) - (config.globalSlots + config.globalQueue) + NumSlots(tx)
  }

  /** The state, the lists and heartbeats, and what admission sees. */
  datatype Snapshot = Snapshot(env: Env, books: Ledger, sight: Sight)

  datatype Outcome = Added(batch: Batch) | Reorged(st: Stages, cuts: Cuts, promoted: seq<Tx>) | Evicted

  /** What an event makes of the pool. */
  ghost predicate EventRight(config: Config, a: Snapshot, e: PoolEvent, o: Outcome, b: Snapshot) {
    Consistent(b.books.view.pending, b.books.view.queue, b.sight.all) &&
    match e
    case AddBatch(subs, local, now) =>
      && o.Added? && BatchRight(config, a.env, subs, local, now, o.batch, |subs|)
      && o.batch.sights[0] == a.sight && o.batch.sights[|subs|] == b.sight
      && o.batch.ledgers[0] == a.books && o.batch.ledgers[|subs|] == b.books
      && b.env == a.env.(locals := b.sight.locals)
    case Reorg(reset, dirty, now) =>
      o.Reorged? && RunRight(config, a, reset, dirty, now, o.st, o.cuts, o.promoted, b)
    case Evict(now, lifetime) =>
      var idle := set x | x in a.books.view.queue && x in a.books.beats && x !in a.env.locals
                          && now - a.books.beats[x] > lifetime;
      && o.Evicted? && b.env == a.env
      && b.books == Ledger(a.books.view.(queue := a.books.view.queue - idle), a.books.beats - idle)
  }

  /** What a reorganisation run makes of the pool. */
  ghost predicate RunRight(config: Config, a: Snapshot, reset: Option<ResetRequest>, dirty: set<Address>, now: int,
                           st: Stages, cuts: Cuts, promoted: seq<Tx>, b: Snapshot) {
    && b.env == RunEnv(a.env, reset)
    && Entered(config, a.env, reset, now, a.books, a.sight, st)
    && Shuffled(b.env, reset.Some?, dirty, now, st)
    && (forall tx :: tx in promoted <==> tx.sender in (if reset.Some? then st.reset.queue.Keys else dirty)
                                         && NewlyPromoted(b.env, st.reset, tx))
    && TruncatedTo(config, b.env.locals, st, cuts, b.books.view.pending, b.books.view.queue)
    && b.books.beats == st.beats - (st.shuffled.queue.Keys - b.books.view.queue.Keys)
    && forall x ::
         if x in b.books.view.pending
         then b.books.view.pending[x] != map[]
              && Virtual(b.books.view.noncer, b.env.nonces, x) == MaxKey(b.books.view.pending[x]) + 1
         else x !in st.shuffled.pending ==> Virtual(b.books.view.noncer, b.env.nonces, x) ==
                                            Virtual(st.shuffled.noncer, b.env.nonces, x)
  }

  /** Each of the first n events takes one snapshot to the next. */
  ghost predicate Replay(config: Config, snaps: seq<Snapshot>, events: seq<PoolEvent>, outs: seq<Outcome>, n: nat) {
    && n <= |events| && |snaps| == n + 1 && |outs| == n
    && forall k :: 0 <= k < n ==> ReplaysAt(config, snaps, events, outs, k)
  }

  ghost predicate ReplaysAt(config: Config, snaps: seq<Snapshot>, events: seq<PoolEvent>, outs: seq<Outcome>, k: nat)
    requires k < |events| && k < |outs| && k + 1 < |snaps|
  {
    EventRight(config, snaps[k], events[k], outs[k], snaps[k + 1])
  }

  lemma ReplayStart(config: Config, snaps: seq<Snapshot>, events: seq<PoolEvent>)
    requires |snaps| == 1
    ensures Replay(config, snaps, events, [], 0)
  {
  }

  lemma ReplayNext(config: Config, snaps: seq<Snapshot>, events: seq<PoolEvent>, outs: seq<Outcome>, n: nat, o: Outcome,
                   b: Snapshot)
    requires Replay(config, snaps, events, outs, n) && n < |events| && |snaps| == n + 1
    requires EventRight(config, snaps[n], events[n], o, b)
    ensures Replay(config, snaps + [b], events, outs + [o], n + 1)
  {
    hide EventRight;
    var more, all := snaps + [b], outs + [o];
    forall k | 0 <= k <= n ensures ReplaysAt(config, more, events, all, k) {
      assert k < n ==> ReplaysAt(config, snaps, events, outs, k);
    }
  }

  class TxPool {
    const config: Config
    const all: TxLookup
    const priced: TxPricedList
    var nonces: map<Address, nat>
    var balances: map<Address, nat>
    var maxGas: nat
    var noncer: map<Address, nat>
    var locals: set<Address>
    var pending: Lists
    var queue: Lists
    var beats: map<Address, int>

    /** The lists, the lookup and the heartbeats agree. */
    ghost predicate Linked()
      reads this, all
    {
      all.Valid() && Consistent(pending, queue, all.All()) && queue.Keys <= beats.Keys
    }

    /** Holds whenever the pool lock is free, in every run. */
    ghost predicate Valid()
      reads this, all, priced
    {
      priced.all == all && config.Sane() && Linked() && priced.Sound(0) && forall tx :: tx in all.All() ==> tx.size > 0
    }

    /** Holds whenever the pool lock is free, as long as every new head descends from the old. */
    ghost predicate Interval()
      reads this
    {
      Intervals(pending, queue, noncer, nonces)
    }

    /** Every pending transaction is payable; holds whenever the pool lock is free, in every run. */
    ghost predicate Funded()
      reads this
    {
      Payables(pending, balances, maxGas)
    }

    /** Both sides and the virtual nonces. */
    ghost function Sides(): View
      reads this
    {
      View(pending, queue, noncer)
    }

    ghost function Books(): Ledger
      reads this
    {
      Ledger(Sides(), beats)
    }

    function Environment(): Env
      reads this
    {
      Env(nonces, balances, maxGas, locals, config.accountQueue)
    }

    constructor (config: Config, nonces: map<Address, nat>, balances: map<Address, nat>, maxGas: nat,
                 locals: set<Address>)
      requires config.Sane()
      ensures Valid() && Interval() && Funded() && fresh(all) && fresh(priced)
      ensures pending == map[] && queue == map[] && all.All() == {}
      ensures this.config == config && this.nonces == nonces && this.balances == balances
      ensures this.maxGas == maxGas && this.locals == locals
    {
      this.config, this.nonces, this.balances, this.maxGas, this.locals := config, nonces, balances, maxGas, locals;
      noncer, pending, queue, beats := map[], map[], map[], map[];
      var lookup := new TxLookup();
      all := lookup;
      priced := new TxPricedList(lookup);
    }

    // ----- the building blocks: enqueueTx, removeTx -----

    /** Removes tx from the lookup and tells the price heap. */
    method Forget(tx: Tx)
      requires priced.all == all && all.Valid() && priced.Sound(0)
      modifies all, priced
      ensures all.Valid() && priced.Sound(0)
      ensures all.All() == old(all.All()) - {tx} && all.remotes == old(all.remotes) - {tx}
      ensures EntriesFrom(priced.heap, old(priced.heap), multiset{})
    {
      RemovalOwesOne(priced.heap, priced.stales, all.remotes, 0, tx);
      hide *;
      all.Remove(tx);
      priced.Removed(1);
    }

    /** Enters tx into the lookup and the price heap. */
    method Enter(tx: Tx, local: bool)
      requires priced.all == all && all.Valid() && priced.Sound(0) && tx !in all.All()
      modifies all, priced
      ensures all.Valid() && priced.Sound(0)
      ensures all.All() == old(all.All()) + {tx}
      ensures all.remotes == if local then old(all.remotes) else old(all.remotes) + {tx}
      ensures EntriesFrom(priced.heap, old(priced.heap), if local then multiset{} else multiset{tx})
    {
      hide Heap.IsHeap, Covers;
      all.Add(tx, local);
      priced.Put(tx, local);
      if local {
        SameEntries(old(priced.heap), priced.heap, priced.stales, all.remotes);
      } else {
        EntryOwesNothing(old(priced.heap), priced.stales, old(all.remotes), priced.heap, tx);
      }
    }

    /** Puts tx into its account's queue. With addAll it is also entered into the lookup and
        the price heap; otherwise it is expected to be there and `missing` says it is not. */
    method EnqueueTx(tx: Tx, local: bool, addAll: bool, now: int) returns (ok: bool, replaced: bool, missing: bool)
      requires priced.all == all && all.Valid()
      requires addAll || tx.nonce in Get(queue, tx.sender) ==> priced.Sound(0)
      requires addAll ==> tx !in all.All()
      modifies this`queue, this`beats, all, priced
      ensures var q := Get(old(queue), tx.sender);
              && (ok <==> (tx.nonce in q ==> Outbids(tx, q[tx.nonce], config.priceBump)))
              && queue == (if ok then old(queue)[tx.sender := With(q, tx)] else old(queue))
              && replaced == (ok && tx.nonce in q)
              && all.All() == (if !ok then old(all.All()) else
                               old(all.All()) - (if replaced then {q[tx.nonce]} else {}) + (if addAll then {tx}
                                                                                            else {}))
      ensures missing == (ok && !addAll && tx !in all.All())
      ensures all.remotes == (if !ok then old(all.remotes) else
                              old(all.remotes) - (if replaced then {Get(old(queue), tx.sender)[tx.nonce]} else {})
                              + (if addAll && !local then {tx} else {}))
      ensures ok && addAll ==> EntriesFrom(priced.heap, old(priced.heap), if local then multiset{} else multiset{tx})
      ensures beats == if ok && tx.sender !in old(beats) then old(beats)[tx.sender := now] else old(beats)
      ensures all.Valid()
      ensures addAll || tx.nonce in Get(old(queue), tx.sender) ==> priced.Sound(0)
      ensures !ok || (!addAll && !replaced) ==> unchanged(all) && unchanged(priced)
    {
      hide Outbids, all.Valid, HeapSound, EntriesFrom;
      missing := false;
      var q := Get(queue, tx.sender);
      replaced := tx.nonce in q;
      if replaced && !Outbids(tx, q[tx.nonce], config.priceBump) {
        return false, false, false;
      }
      queue := queue[tx.sender := With(q, tx)];
      if replaced {
        Forget(q[tx.nonce]);
      }
      missing := !addAll && tx !in all.All();
      if addAll {
        ghost var heap := priced.heap;
        EntriesSame(old(priced.heap));
        Enter(tx, local);
        EntriesOver(old(priced.heap), heap, priced.heap, multiset{}, if local then multiset{} else multiset{tx});
      }
      if tx.sender !in beats {
        beats := beats[tx.sender := now];
      }
      ok := true;
    }

    /** Moves transactions that lost their place in pending back to the queue. None of them
        is missing from the lookup, and none meets a queued one of the same nonce. */
    method Requeue(a: Address, txs: Txs, now: int)
      requires priced.all == all && all.Valid() && OwnedBy(txs, a)
      requires txs.Keys !! Get(queue, a).Keys
      requires forall n :: n in txs ==> txs[n] in all.All()
      modifies this`queue, this`beats, all, priced
      ensures queue == if txs == map[] then old(queue) else old(queue)[a := Get(old(queue), a) + txs]
      ensures beats == if txs == map[] || a in old(beats) then old(beats) else old(beats)[a := now]
      ensures unchanged(all) && unchanged(priced)
    {
      hide Outbids, all.Valid, HeapSound, Requeued, Get, OwnedBy;
      var todo := txs.Keys;
      RequeueStart(queue, a, txs);
      while todo != {}
        invariant todo <= txs.Keys
        invariant unchanged(all) && unchanged(priced)
        invariant Requeued(old(queue), a, txs, todo, queue)
        invariant beats == if todo == txs.Keys || a in old(beats) then old(beats) else old(beats)[a := now]
        decreases todo
      {
        var n :| n in todo;
        RequeueStep(old(queue), a, txs, todo, n, queue);
        var ok, replaced, missing := EnqueueTx(txs[n], false, false, now);
        assert ok && !replaced && !missing;
        todo := todo - {n};
      }
      RequeueDone(old(queue), a, txs, queue);
    }

    /** Removes one transaction; later pending ones of the account return to the queue. */
    method RemoveTx(tx: Tx, outofbound: bool, now: int)
      requires priced.all == all && Linked() && (outofbound ==> priced.Sound(0))
      modifies this`pending, this`queue, this`beats, this`noncer, all, priced
      ensures Linked()
      ensures all.All() == old(all.All()) - {tx} && all.remotes == old(all.remotes) - {tx}
      ensures tx !in old(all.All()) ==> pending == old(pending) && queue == old(queue) && noncer == old(noncer)
      ensures tx in old(all.All()) ==>
                && pending == PendingWithout(old(pending), tx)
                && queue == QueueWithout(old(pending), old(queue), tx)
                && noncer == if tx.nonce in Get(old(pending), tx.sender)
                             then LowerNonce(old(noncer), nonces, tx.sender, tx.nonce) else old(noncer)
      ensures outofbound ==> priced.Sound(0)
      ensures !outofbound ==> unchanged(priced)
      ensures Books() == Removed(nonces, old(Books()), tx, now)
    {
      hide all.Valid, HeapSound, Consistent, Below, AtLeast, PendingWithout, QueueWithout, Set, LowerNonce, Removed;
      RemovedIs(nonces, Books(), all.All(), tx, now);
      if tx !in all.All() {
        return;
      }
      RemovalIs(pending, queue, tx);
      RemoveConsistent(pending, queue, all.All(), tx);
      var a := tx.sender;
      RemovalLists(pending, queue, all.All(), tx);
      if outofbound {
        Forget(tx);
      } else {
        all.Remove(tx);
      }
      if tx.nonce in Get(pending, a) {
        CutPending(a, tx.nonce, now);
      } else if a in queue {
        queue := Set(queue, a, queue[a] - {tx.nonce});
        if a !in queue {
          beats := beats - {a};
        }
      }
    }

    /** Takes a nonce out of pending: the later ones return to the queue and the virtual nonce
        falls to it. */
    method CutPending(a: Address, n: nat, now: int)
      requires priced.all == all && all.Valid() && queue.Keys <= beats.Keys
      requires var later := AtLeast(Get(pending, a), n + 1);
               && OwnedBy(later, a) && later.Keys !! Get(queue, a).Keys
               && (forall k :: k in later ==> later[k] in all.All())
               && Set(queue, a, Get(queue, a)) == queue
      modifies this`pending, this`queue, this`beats, this`noncer, all, priced
      ensures pending == Set(old(pending), a, Below(Get(old(pending), a), n))
      ensures queue == Set(old(queue), a, Get(old(queue), a) + AtLeast(Get(old(pending), a), n + 1))
      ensures noncer == LowerNonce(old(noncer), nonces, a, n) && queue.Keys <= beats.Keys
      ensures beats == if AtLeast(Get(old(pending), a), n + 1) == map[] || a in old(beats) then old(beats)
                       else old(beats)[a := now]
      ensures unchanged(all) && unchanged(priced)
    {
      hide all.Valid, Below, AtLeast, Set, LowerNonce, Get, OwnedBy;
      var p := Get(pending, a);
      pending := Set(pending, a, Below(p, n));
      var later := AtLeast(p, n + 1);
      MergeIsSet(queue, a, later);
      Requeue(a, later, now);
      noncer := LowerNonce(noncer, nonces, a, n);
    }

    // ----- add -----

    /** Kicks out the transactions that Discard has popped from the price heap. */
    method MakeRoom(drop: seq<Tx>, now: int)
      requires priced.all == all && Linked() && Popped(priced.heap, priced.stales, all.remotes, drop)
      modifies this`pending, this`queue, this`beats, this`noncer, all, priced
      ensures Linked() && priced.Sound(0)
      ensures all.All() == old(all.All()) - Elements(drop) && all.remotes == old(all.remotes) - Elements(drop)
      ensures Kept(nonces, balances, maxGas, old(Sides()), Sides()) && priced.heap == old(priced.heap)
      ensures Books() == EvictedAll(nonces, old(Books()), drop, now)
    {
      hide Kept, Consistent, all.Valid, HeapSound, Popped, PendingWithout, QueueWithout, LowerNonce, Elements, Removed,
        EvictedAll;
      EvictedNone(nonces, Books(), drop, now);
      ghost var r0, v0 := all.remotes, Sides();
      ElementsEmpty(drop);
      KeptSame(nonces, balances, maxGas, v0);
      for i := 0 to |drop|
        invariant Linked() && unchanged(priced)
        invariant all.All() == old(all.All()) - Elements(drop[..i]) && all.remotes == r0 - Elements(drop[..i])
        invariant Kept(nonces, balances, maxGas, v0, Sides())
        invariant Books() == EvictedAll(nonces, old(Books()), drop[..i], now)
      {
        ghost var tx, v := drop[i], Sides();
        ElementsStep(drop, i);
        EvictedNext(nonces, old(Books()), drop, i, now);
        RemovalKeeps(nonces, balances, maxGas, v, all.All(), tx);
        RemoveTx(drop[i], false, now);
        KeptTwice(nonces, balances, maxGas, v0, v, Sides());
      }
      assert drop[..|drop|] == drop;
      PoppedSettles(priced.heap, priced.stales, r0, drop);
    }

    /** What admission depends on. */
    ghost function Sighted(): Sight
      reads this, all, priced
    {
      Sight(all.All(), all.remotes, locals, priced.heap)
    }

    /** When the pool is full, makes room for tx or refuses it. */
    method Admit(tx: Tx, isLocal: bool, now: int) returns (err: AddResult, ghost dropped: seq<Tx>)
      requires Valid() && tx.size > 0
      modifies this`pending, this`queue, this`beats, this`noncer, all, priced
      ensures Valid() && Kept(nonces, balances, maxGas, old(Sides()), Sides())
      ensures Admitted(config, old(Sighted()), tx, isLocal, err, dropped, Sighted())
      ensures err != Accepted ==> unchanged(this) && unchanged(all)
      ensures !Full(old(all.All()), tx, config) ==> unchanged(this)
      ensures Books() == EvictedAll(nonces, old(Books()), dropped, now)
    {
      hide Linked, HeapSound, Kept, Full, Admitted, EvictedAll;
      EvictedNone(nonces, Books(), [], now);
      KeptSame(nonces, balances, maxGas, Sides());
      if Full(all.All(), tx, config) {
        err, dropped := AdmitFull(tx, isLocal, now);
      } else {
        RoomLeft(config, Sighted(), tx, isLocal);
        err, dropped := Accepted, [];
      }
    }

    /** The price check and the eviction in a full pool. */
    method AdmitFull(tx: Tx, isLocal: bool, now: int) returns (err: AddResult, ghost dropped: seq<Tx>)
      requires Valid() && tx.size > 0 && Full(all.All(), tx, config)
      modifies this`pending, this`queue, this`beats, this`noncer, all, priced
      ensures Valid() && Kept(nonces, balances, maxGas, old(Sides()), Sides())
      ensures Admitted(config, old(Sighted()), tx, isLocal, err, dropped, Sighted())
      ensures err != Accepted ==> unchanged(this) && unchanged(all)
      ensures Books() == EvictedAll(nonces, old(Books()), dropped, now)
    {
      hide Kept, Linked, HeapSound, Elements, SumSlots, NumSlots, CheapestEvicted, Coverable, FreesSlots, SingleLive,
        SameLive, EntriesFrom, Admitted, Full, SlotsNeeded, EvictedAll;
      EvictedNone(nonces, Books(), [], now);
      ghost var sight := Sighted();
      KeptSame(nonces, balances, maxGas, Sides());
      HeapSame(priced.heap, all.remotes);
      if !isLocal {
        var under := priced.Underpriced(tx);
        if under {
          TooCheap(config, sight, tx, Sighted());
          return Underpriced, [];
        }
      }
      SlotsShort(tx);
      var slots := all.slots - (config.globalSlots + config.globalQueue) + NumSlots(tx);
      ghost var middle := Sighted();
      var ok;
      ok, dropped := FreeSlots(slots, isLocal, now);
      AdmittedBy(config, sight, middle, tx, isLocal, ok, dropped, Sighted());
      err := if ok then Accepted else Overflow;
    }

    /** Evicts the worst remotes until the slots are free; for a remote newcomer exactly if the live
        heap entries suffice. */
    method FreeSlots(slots: int, isLocal: bool, now: int) returns (ok: bool, ghost drop: seq<Tx>)
      requires Valid() && slots > 0
      modifies this`pending, this`queue, this`beats, this`noncer, all, priced
      ensures Valid() && Kept(nonces, balances, maxGas, old(Sides()), Sides())
      ensures ok <==> isLocal || Coverable(old(priced.heap), old(all.remotes), slots)
      ensures ok ==> CheapestEvicted(old(all.remotes), drop, slots)
      ensures ok ==> FreesSlots(old(priced.heap), old(all.remotes), isLocal, drop, slots)
      ensures !ok ==> drop == [] && unchanged(this) && unchanged(all)
                      && SameLive(priced.heap, old(priced.heap), all.remotes)
      ensures all.All() == old(all.All()) - Elements(drop) && all.remotes == old(all.remotes) - Elements(drop)
      ensures EntriesFrom(priced.heap, old(priced.heap), multiset{})
      ensures Books() == EvictedAll(nonces, old(Books()), drop, now)
    {
      hide Kept, Linked, HeapSound, Popped, PoppedPart, Coverable, CheapestFirst, ShortestCover, Elements,
        CheapestEvicted, FreesSlots, SameLive, EntriesFrom, EvictedAll;
      EvictedNone(nonces, Books(), [], now);
      ghost var heap0, stales0 := priced.heap, priced.stales;
      ElementsNone();
      KeptSame(nonces, balances, maxGas, Sides());
      var dropped, success := priced.Discard(slots, isLocal);
      drop := dropped;
      DiscardLeaves(heap0, priced.heap, priced.stales, all.remotes, drop);
      if !isLocal && !success {
        return false, [];
      }
      EvictsCheapest(heap0, priced.heap, stales0, all.remotes, drop, slots);
      EvictsEnough(heap0, priced.heap, all.remotes, isLocal, drop, slots);
      MakeRoom(dropped, now);
      ok := true;
    }

    /** A full pool lacks slots. */
    lemma SlotsShort(tx: Tx)
      requires Valid() && Full(all.All(), tx, config)
      ensures SlotsNeeded(all.All(), tx, config) > 0
      ensures all.slots - (config.globalSlots + config.globalQueue) + NumSlots(tx) == SlotsNeeded(all.All(), tx, config)
    {
      hide HeapSound, NumSlots, SumSlots, Consistent;
      EnoughSlots(all.All());
    }

    /** Marks an account as local and moves its remote transactions over. */
    method MakeLocal(a: Address)
      requires priced.all == all && all.Valid() && priced.Sound(0)
      modifies this`locals, all, priced
      ensures all.Valid() && priced.Sound(0) && all.All() == old(all.All())
      ensures locals == old(locals) + {a}
      ensures all.remotes == set tx | tx in old(all.remotes) && tx.sender !in locals
      ensures EntriesFrom(priced.heap, old(priced.heap), multiset{})
    {
      hide all.Valid, Heap.IsHeap, EntriesFrom, Rebuilt;
      locals := locals + {a};
      var migrated := all.RemoteToLocals(locals);
      priced.Removed(migrated);
    }

    /** Replaces a pending transaction of the same nonce, or else enqueues tx. */
    method Place(tx: Tx, local: bool, now: int) returns (replaced: bool, ok: bool)
      requires Valid() && tx !in all.All() && tx.size > 0 && NonceOf(nonces, tx.sender) <= tx.nonce
      requires Affordable(tx, NonceOf(balances, tx.sender), maxGas)
      modifies this`pending, this`queue, this`beats, this`locals, all, priced
      ensures Valid() && Kept(nonces, balances, maxGas, old(Sides()), Sides())
      ensures var p, q := Get(old(pending), tx.sender), Get(old(queue), tx.sender);
              && (ok <==> if tx.nonce in p then Outbids(tx, p[tx.nonce], config.priceBump)
                          else tx.nonce in q ==> Outbids(tx, q[tx.nonce], config.priceBump))
              && (tx.nonce in p ==>
                    (ok <==> tx.gasPrice > p[tx.nonce].gasPrice
                             && 100 * tx.gasPrice > (100 + config.priceBump) * p[tx.nonce].gasPrice - 100))
              && (tx.nonce !in p && tx.nonce in q ==>
                    (ok <==> tx.gasPrice > q[tx.nonce].gasPrice
                             && 100 * tx.gasPrice > (100 + config.priceBump) * q[tx.nonce].gasPrice - 100))
              && replaced == (ok && (tx.nonce in p || tx.nonce in q))
              && pending == (if ok && tx.nonce in p then old(pending)[tx.sender := With(p, tx)] else old(pending))
              && queue == (if ok && tx.nonce !in p then old(queue)[tx.sender := With(q, tx)] else old(queue))
              && all.All() == (if ok then old(all.All()) - Displaced(p, q, tx) + {tx} else old(all.All()))
              && locals == (if ok && tx.nonce !in p && local then old(locals) + {tx.sender} else old(locals))
              && all.remotes == (if ok then RemotesWith(old(all.remotes), Displaced(p, q, tx), tx,
                                                        local || tx.sender in old(locals), old(locals), locals)
                                 else old(all.remotes))
      ensures EntriesFrom(priced.heap, old(priced.heap),
                          if ok && !local && tx.sender !in old(locals) then multiset{tx} else multiset{})
      ensures Books() == if ok then Placed(old(Books()), tx, now) else old(Books())
    {
      hide Kept, Outbids, Consistent, all.Valid, HeapSound, Displaced, RemotesWith, EntriesFrom;
      var a := tx.sender;
      var p := Get(pending, a);
      var isLocal := local || a in locals;
      BidsMean(p, Get(queue, a), tx, config.priceBump);
      PlaceConsistent(pending, queue, all.All(), tx);
      PlaceKeeps(nonces, balances, maxGas, Sides(), tx);
      KeptSame(nonces, balances, maxGas, Sides());
      EntriesSame(priced.heap);
      DisplacedIs(p, Get(queue, a), tx);
      if tx.nonce in p {
        if !Outbids(tx, p[tx.nonce], config.priceBump) {
          return false, false;
        }
        SwapPending(tx, isLocal, now);
        return true, true;
      }
      replaced, ok := PlaceNew(tx, local, now);
    }

    /** Replaces a pending transaction. */
    method SwapPending(tx: Tx, isLocal: bool, now: int)
      requires priced.all == all && all.Valid() && priced.Sound(0) && tx !in all.All()
      requires tx.nonce in Get(pending, tx.sender)
      modifies this`pending, this`beats, all, priced
      ensures all.Valid() && priced.Sound(0)
      ensures var p := Get(old(pending), tx.sender);
              && pending == old(pending)[tx.sender := With(p, tx)]
              && all.All() == old(all.All()) - {p[tx.nonce]} + {tx}
      ensures beats == old(beats)[tx.sender := now]
      ensures all.remotes == RemotesWith(old(all.remotes), {Get(old(pending), tx.sender)[tx.nonce]}, tx, isLocal,
                                         locals, locals)
      ensures EntriesFrom(priced.heap, old(priced.heap), if isLocal then multiset{} else multiset{tx})
    {
      hide all.Valid, HeapSound, EntriesFrom;
      var p := Get(pending, tx.sender);
      pending := pending[tx.sender := With(p, tx)];
      Forget(p[tx.nonce]);
      ghost var heap := priced.heap;
      Enter(tx, isLocal);
      EntriesOver(old(priced.heap), heap, priced.heap, multiset{}, if isLocal then multiset{} else multiset{tx});
      beats := beats[tx.sender := now];
    }

    /** Enqueues a transaction whose nonce is not pending, and marks a new local account. */
    method PlaceNew(tx: Tx, local: bool, now: int) returns (replaced: bool, ok: bool)
      requires priced.all == all && all.Valid() && priced.Sound(0) && tx !in all.All()
      modifies this`queue, this`beats, this`locals, all, priced
      ensures all.Valid() && priced.Sound(0)
      ensures var q := Get(old(queue), tx.sender);
              && (ok <==> (tx.nonce in q ==> Outbids(tx, q[tx.nonce], config.priceBump)))
              && replaced == (ok && tx.nonce in q)
              && queue == (if ok then old(queue)[tx.sender := With(q, tx)] else old(queue))
              && beats == (if ok && tx.sender !in old(beats) then old(beats)[tx.sender := now] else old(beats))
              && all.All() == (if ok then old(all.All()) - (if tx.nonce in q then {q[tx.nonce]} else {}) + {tx}
                               else old(all.All()))
              && locals == (if ok && local then old(locals) + {tx.sender} else old(locals))
              && all.remotes == (if ok then RemotesWith(old(all.remotes), if tx.nonce in q then {q[tx.nonce]} else {},
                                                        tx, local || tx.sender in old(locals), old(locals), locals)
                                 else old(all.remotes))
      ensures EntriesFrom(priced.heap, old(priced.heap),
                          if ok && !local && tx.sender !in old(locals) then multiset{tx} else multiset{})
    {
      hide Outbids, all.Valid, HeapSound, EntriesFrom;
      var missing;
      EntriesSame(priced.heap);
      ok, replaced, missing := EnqueueTx(tx, local || tx.sender in locals, true, now);
      if ok && local && tx.sender !in locals {
        ghost var heap := priced.heap;
        MakeLocal(tx.sender);
        EntriesOver(old(priced.heap), heap, priced.heap, multiset{}, multiset{});
      }
    }

    /** Validates tx and puts it into the pool. */
    method Add(tx: Tx, local: bool, checks: Checks, now: int)
      returns (replaced: bool, err: AddResult, ghost dropped: seq<Tx>)
      requires Valid() && tx.size > 0
      modifies this`pending, this`queue, this`beats, this`noncer, this`locals, all, priced
      ensures Valid() && Kept(nonces, balances, maxGas, old(Sides()), Sides())
      ensures AddRight(config, old(Environment()), old(Sighted()), Submission(tx, checks), local,
                       Answer(err, replaced, dropped), Sighted())
      ensures err !in {Accepted, ReplaceUnderpriced} ==> unchanged(this) && unchanged(all)
      ensures ListsRight(nonces, old(Books()), tx, Answer(err, replaced, dropped), now, Books())
      ensures AddLaw(config, old(Environment()), old(Sighted()), Submission(tx, checks), local,
                     Answer(err, replaced, dropped))
    {
      hide Linked, HeapSound, Kept, AddRight, ListsRight, AddLaw;
      ghost var env, sight, sub := Environment(), Sighted(), Submission(tx, checks);
      replaced, err, dropped := ValidateAndPlace(tx, local, checks, now);
      AddObeys(config, env, sight, sub, local, Answer(err, replaced, dropped), Sighted());
    }

    /** The steps of Add. */
    method ValidateAndPlace(tx: Tx, local: bool, checks: Checks, now: int)
      returns (replaced: bool, err: AddResult, ghost dropped: seq<Tx>)
      requires Valid() && tx.size > 0
      modifies this`pending, this`queue, this`beats, this`noncer, this`locals, all, priced
      ensures Valid() && Kept(nonces, balances, maxGas, old(Sides()), Sides())
      ensures AddRight(config, old(Environment()), old(Sighted()), Submission(tx, checks), local,
                       Answer(err, replaced, dropped), Sighted())
      ensures err !in {Accepted, ReplaceUnderpriced} ==> unchanged(this) && unchanged(all)
      ensures ListsRight(nonces, old(Books()), tx, Answer(err, replaced, dropped), now, Books())
    {
      hide EvictedAll, Placed, ListsRight, Kept, Linked, HeapSound, Displaced, Outbids, Full, InvalidWhy, Get, Admitted,
        RemotesWith, EntriesFrom, Covers, Standing, AddRight, Elements;
      var sub := Submission(tx, checks);
      ghost var env, sight := Environment(), Sighted();
      replaced, dropped := false, [];
      InvalidKinds(tx, checks, env);
      KeptSame(nonces, balances, maxGas, Sides());
      HeapCovers(priced.heap, priced.stales, all.remotes);
      if tx in all.All() {
        Refused(config, env, sight, sub, local, AlreadyKnown);
        ListsRefused(nonces, Books(), tx, Answer(AlreadyKnown, false, []), now);
        return false, AlreadyKnown, [];
      }
      err := InvalidWhy(tx, checks, Environment());
      if err != Accepted {
        Refused(config, env, sight, sub, local, err);
        ListsRefused(nonces, Books(), tx, Answer(err, false, []), now);
        return;
      }
      ghost var isLocal := local || tx.sender in locals;
      err, dropped := Admit(tx, local || tx.sender in locals, now);
      HeapCovers(priced.heap, priced.stales, all.remotes);
      if err != Accepted {
        NotAdmitted(config, env, sight, sub, local, err, dropped, Sighted());
        ListsRefused(nonces, Books(), tx, Answer(err, false, []), now);
        dropped := [];
        return;
      }
      replaced, err := PlaceAdmitted(sub, local, now, env, sight, old(Books()), dropped);
    }

    /** The last step: room is made, and the newcomer is placed or refused for its price. */
    method PlaceAdmitted(sub: Submission, local: bool, now: int, ghost env: Env, ghost sight: Sight, ghost l0: Ledger,
                         ghost dropped: seq<Tx>)
      returns (replaced: bool, err: AddResult)
      requires Valid() && sub.tx !in sight.all && sub.tx.size > 0 && env == Environment() && sight.remotes <= sight.all
      requires InvalidWhy(sub.tx, sub.checks, env) == Accepted && sight.locals == locals
      requires Admitted(config, sight, sub.tx, local || sub.tx.sender in locals, Accepted, dropped, Sighted())
      requires Books() == EvictedAll(nonces, l0, dropped, now) && Kept(nonces, balances, maxGas, l0.view, Sides())
      modifies this`pending, this`queue, this`beats, this`locals, all, priced
      ensures Valid() && Kept(nonces, balances, maxGas, l0.view, Sides())
      ensures AddRight(config, env, sight, sub, local, Answer(err, replaced, dropped), Sighted())
      ensures err in {Accepted, ReplaceUnderpriced}
      ensures ListsRight(nonces, l0, sub.tx, Answer(err, replaced, dropped), now, Books())
    {
      hide EvictedAll, Placed, ListsRight, Kept, Linked, HeapSound, Displaced, Outbids, Full, InvalidWhy, Get, Admitted,
        RemotesWith, EntriesFrom, Covers, Standing, AddRight, Elements;
      var tx := sub.tx;
      ghost var isLocal, middle, v := local || tx.sender in locals, Sighted(), Sides();
      InvalidKinds(tx, sub.checks, env);
      AdmittedLeaves(config, sight, tx, isLocal, dropped, middle);
      LinkedMembers(tx, sight.all, dropped);
      ghost var p, q := Get(pending, tx.sender), Get(queue, tx.sender);
      var ok;
      replaced, ok := Place(tx, local, now);
      HeapCovers(priced.heap, priced.stales, all.remotes);
      KeptTwice(nonces, balances, maxGas, l0.view, v, Sides());
      Judged(config, env, sight, middle, sub, local, dropped, p, q, ok, replaced, Sighted());
      ListsJudged(nonces, l0, tx, dropped, ok, replaced, now, Books());
      err := if ok then Accepted else ReplaceUnderpriced;
    }

    /** What stands at the newcomer's slot after the eviction is the account's pending or queued
        transaction of that nonce. */
    lemma LinkedMembers(tx: Tx, s: set<Tx>, dropped: seq<Tx>)
      requires Linked() && all.All() == s - Elements(dropped)
      ensures StandsAt(s, dropped, tx, Get(pending, tx.sender), Get(queue, tx.sender))
    {
      var p, q := Get(pending, tx.sender), Get(queue, tx.sender);
      ListsOwned(pending, tx.sender);
      ListsOwned(queue, tx.sender);
      assert p.Keys !! q.Keys;
      forall t
        ensures Standing(s, dropped, tx, t) <==>
                (tx.nonce in p && t == p[tx.nonce]) || (tx.nonce !in p && tx.nonce in q && t == q[tx.nonce])
      {
        assert t in all.All() <==> Holds(pending, t) || Holds(queue, t);
      }
    }

    /** Adds a batch, each submission in the pool that the ones before it left; exactly the accounts
        with a new, non-replacing transaction become dirty. */
    method AddTxsLocked(subs: seq<Submission>, local: bool, now: int)
      returns (errs: seq<AddResult>, dirty: set<Address>, ghost batch: Batch)
      requires Valid() && forall i :: 0 <= i < |subs| ==> subs[i].tx.size > 0
      modifies this`pending, this`queue, this`beats, this`noncer, this`locals, all, priced
      ensures Valid() && Kept(nonces, balances, maxGas, old(Sides()), Sides())
      ensures BatchRight(config, old(Environment()), subs, local, now, batch, |subs|)
      ensures batch.sights[0] == old(Sighted()) && batch.sights[|subs|] == Sighted()
      ensures batch.ledgers[0] == old(Books()) && batch.ledgers[|subs|] == Books()
      ensures |errs| == |subs| && forall i :: 0 <= i < |subs| ==> errs[i] == batch.answers[i].err
      ensures forall a :: a in dirty <==> exists i :: 0 <= i < |subs| && NewFrom(subs, batch, i, a)
      ensures subs == [] ==> pending == old(pending) && queue == old(queue) && noncer == old(noncer)
      ensures subs == [] || !local ==> locals == old(locals)
    {
      hide Linked, HeapSound, Kept, AddRight, ListsRight, AddLaw, BatchRight;
      errs, dirty := [], {};
      KeptSame(nonces, balances, maxGas, Sides());
      batch := Batch([], [Sighted()], [Books()]);
      ghost var env := Environment();
      BatchStart(config, env, subs, local, now, batch);
      for i := 0 to |subs|
        invariant Valid() && Kept(nonces, balances, maxGas, old(Sides()), Sides())
        invariant BatchRight(config, env, subs, local, now, batch, i)
        invariant |batch.answers| == i && |batch.sights| == |batch.ledgers| == i + 1
        invariant batch.sights[0] == old(Sighted()) && batch.sights[i] == Sighted()
        invariant batch.ledgers[0] == old(Books()) && batch.ledgers[i] == Books()
        invariant |errs| == i && forall j :: 0 <= j < i ==> errs[j] == batch.answers[j].err
        invariant forall a :: a in dirty <==> exists j :: 0 <= j < i && NewFrom(subs, batch, j, a)
        invariant i == 0 || !local ==> locals == old(locals)
      {
        ghost var before, d := batch, dirty;
        ghost var here, v := Environment(), Sides();
        var replaced, err, dropped := Add(subs[i].tx, local, subs[i].checks, now);
        ghost var answer := Answer(err, replaced, dropped);
        KeptTwice(nonces, balances, maxGas, old(Sides()), v, Sides());
        RemoteKeepsLocals(config, here, batch.sights[i], subs[i], local, answer, Sighted());
        SameRules(config, here, env, batch.sights[i], subs[i], local, answer, Sighted());
        BatchStep(config, env, subs, local, now, batch, i, answer, Sighted(), Books());
        batch := Extended(batch, answer, Sighted(), Books());
        errs := errs + [err];
        if err == Accepted && !replaced {
          dirty := dirty + {subs[i].tx.sender};
        }
        DirtyStep(subs, before, batch, i, d, dirty);
      }
    }

    // ----- reorganisation runs -----

    /** Moves the pool to a new head's state and offers it again what the old branch had included. */
    method Reset(req: ResetRequest, now: int) returns (ghost batch: Batch)
      requires Valid() && forall i :: 0 <= i < |req.reinject| ==> req.reinject[i].tx.size > 0
      modifies this, all, priced
      ensures Valid()
      ensures !req.loaded ==> unchanged(this) && unchanged(all) && unchanged(priced)
      ensures req.loaded ==> nonces == req.nonces && balances == req.balances && maxGas == req.maxGas
      ensures req.loaded && req.reinject == [] ==>
                pending == old(pending) && queue == old(queue) && noncer == map[] && locals == old(locals)
      ensures req.loaded ==>
                && BatchRight(config, ResetEnv(old(Environment()), req), req.reinject, false, now, batch,
                              |req.reinject|)
                && batch.ledgers[0] == Ledger(old(Sides()).(noncer := map[]), old(beats))
                && batch.ledgers[|req.reinject|] == Books() && locals == old(locals)
                && batch.sights[0] == old(Sighted()) && batch.sights[|req.reinject|] == Sighted()
                && AllCut(nonces, old(Sides()).(noncer := map[]), Sides())
    {
      hide Consistent, all.Valid, HeapSound, Kept, BatchRight, AllCut;
      batch := Batch([], [], []);
      if !req.loaded {
        return;
      }
      nonces, balances, maxGas := req.nonces, req.balances, req.maxGas;
      noncer := map[];
      var errs, dirty;
      errs, dirty, batch := AddTxsLocked(req.reinject, false, now);
      KeptMeans(nonces, balances, maxGas, old(Sides()).(noncer := map[]), Sides());
    }

    /** Sets every pending account's virtual nonce to one past its last transaction. */
    method UpdateNonces()
      requires Linked()
      modifies this`noncer
      ensures Linked()
      ensures NoncesUpdated(nonces, pending, old(noncer), noncer)
    {
      hide MaxKey, Virtual, Consistent, all.Valid;
      LinkedListed();
      var todo := pending.Keys;
      while todo != {}
        invariant todo <= pending.Keys
        invariant forall a :: Virtual(noncer, nonces, a) == if a in pending && a !in todo then MaxKey(pending[a]) + 1
                                                            else Virtual(old(noncer), nonces, a)
        decreases todo
      {
        var a :| a in todo;
        ghost var was := noncer;
        noncer := noncer[a := MaxKey(pending[a]) + 1];
        VirtualSet(was, nonces, a, MaxKey(pending[a]) + 1);
        todo := todo - {a};
      }
    }

    /** One mutex-held reorganisation run.  The stages say what the reset, the promotion and the
        demotion left, and the cuts where truncation stopped. */
    method RunReorg(reset: Option<ResetRequest>, dirty: set<Address>, now: int)
      returns (promoted: seq<Tx>, ghost st: Stages, ghost cuts: Cuts)
      requires Valid()
      requires reset.Some? ==> forall i :: 0 <= i < |reset.value.reinject| ==> reset.value.reinject[i].tx.size > 0
      modifies this, all, priced
      ensures Valid()
      ensures old(Interval()) && old(Funded()) && (reset.Some? ==> Descends(old(nonces), reset.value)) ==> Interval()
      ensures reset.Some? || old(Funded()) ==> Funded()
      ensures forall a :: a in pending ==> Virtual(noncer, nonces, a) == MaxKey(pending[a]) + 1
      ensures Total(pending) <= config.globalSlots || forall a :: a !in locals ==>
                                                                    |Get(pending, a)| <= config.accountSlots
      ensures Total(queue) <= config.globalQueue || queue.Keys <= locals
      ensures reset.Some? && reset.value.loaded ==> nonces == reset.value.nonces
      ensures reset.None? || !reset.value.loaded ==> nonces == old(nonces)
      ensures Environment() == RunEnv(old(Environment()), reset)
      ensures Entered(config, old(Environment()), reset, now, old(Books()), old(Sighted()), st)
      ensures Shuffled(Environment(), reset.Some?, dirty, now, st)
      ensures forall tx :: tx in promoted <==>
                           tx.sender in (if reset.Some? then st.reset.queue.Keys else dirty)
                           && NewlyPromoted(Environment(), st.reset, tx)
      ensures TruncatedTo(config, locals, st, cuts, pending, queue)
      ensures beats == st.beats - (st.shuffled.queue.Keys - queue.Keys)
      ensures forall a :: a !in st.shuffled.pending ==>
                            Virtual(noncer, nonces, a) == Virtual(st.shuffled.noncer, nonces, a)
      ensures forall a :: a in locals ==> Get(pending, a) == Get(st.shuffled.pending, a)
                                          && Get(queue, a) == Get(st.shuffled.queue, a)
      ensures forall a :: Get(pending, a) != Get(st.shuffled.pending, a) ==> |Get(pending, a)| >= config.accountSlots
      ensures forall a, b :: Get(pending, a) != Get(st.shuffled.pending, a) && b !in locals ==>
                               |Get(pending, b)| <= |Get(pending, a)|
      ensures forall a, b :: Get(queue, a) != Get(st.shuffled.queue, a) && b !in locals && b in queue
                             && Get(queue, b) == Get(st.shuffled.queue, b) && a in st.beats && b in st.beats ==>
                               st.beats[b] <= st.beats[a]
      ensures old(Interval()) && reset.Some? && reset.value.loaded ==> SettledWhere(Environment(), st)
      ensures Settled(Environment(), st.shuffled) ==> Interval()
      ensures var accounts := if reset.Some? then st.reset.queue.Keys else dirty;
              && PromotedByLaw(nonces, balances, maxGas, locals, config.accountQueue, st.reset, st.promoted, accounts)
              && (forall a :: a in accounts && a !in locals ==> |Get(st.promoted.queue, a)| <= config.accountQueue)
              && LocalsLoseNone(nonces, balances, maxGas, locals, st.reset, st.promoted, accounts)
      ensures reset.Some? ==>
                && DemotedByLaw(nonces, balances, maxGas, st.promoted, st.shuffled, st.promoted.pending.Keys)
                && AllExecutable(nonces, balances, maxGas, st.shuffled.pending)
    {
      hide Linked, HeapSound, Intervals, Settled, Total, NoncesUpdated, Descends, MaxKey, Shuffled, NewlyPromoted,
        TruncatedTo, Entered, Payables, SettledWhere, PromotedByLaw, DemotedByLaw, LocalsLoseNone, AllExecutable, Get,
        NonceOf, Virtual;
      promoted, st := Shuffle(reset, dirty, now);
      cuts := Truncate(now, st);
      LinkedListed();
      TruncationMeans(config, locals, st, cuts, pending, queue);
    }

    /** The first half of a run: reset, promote, demote. */
    method Shuffle(reset: Option<ResetRequest>, dirty: set<Address>, now: int)
      returns (promoted: seq<Tx>, ghost st: Stages)
      requires Valid()
      requires reset.Some? ==> forall i :: 0 <= i < |reset.value.reinject| ==> reset.value.reinject[i].tx.size > 0
      modifies this, all, priced
      ensures Valid()
      ensures old(Interval()) && old(Funded()) && (reset.Some? ==> Descends(old(nonces), reset.value)) ==>
                Settled(Environment(), st.shuffled)
      ensures old(Interval()) && reset.Some? && reset.value.loaded ==> SettledWhere(Environment(), st)
      ensures reset.Some? && reset.value.loaded ==> nonces == reset.value.nonces
      ensures reset.None? || !reset.value.loaded ==> nonces == old(nonces)
      ensures Environment() == RunEnv(old(Environment()), reset)
      ensures Entered(config, old(Environment()), reset, now, old(Books()), old(Sighted()), st)
      ensures Shuffled(Environment(), reset.Some?, dirty, now, st)
      ensures forall tx :: tx in promoted <==>
                           tx.sender in (if reset.Some? then st.reset.queue.Keys else dirty)
                           && NewlyPromoted(Environment(), st.reset, tx)
      ensures st.shuffled == Sides() && st.beats == beats
      ensures reset.Some? || old(Funded()) ==> Funded()
      ensures var accounts := if reset.Some? then st.reset.queue.Keys else dirty;
              && PromotedByLaw(nonces, balances, maxGas, locals, config.accountQueue, st.reset, st.promoted, accounts)
              && (forall a :: a in accounts && a !in locals ==> |Get(st.promoted.queue, a)| <= config.accountQueue)
              && LocalsLoseNone(nonces, balances, maxGas, locals, st.reset, st.promoted, accounts)
      ensures reset.Some? ==>
                && DemotedByLaw(nonces, balances, maxGas, st.promoted, st.shuffled, st.promoted.pending.Keys)
                && AllExecutable(nonces, balances, maxGas, st.shuffled.pending)
    {
      hide Linked, HeapSound, Intervals, Settled, AllPromoted, AllDemoted, NewlyPromoted, Payables, BatchRight, AllCut,
        Consistent, SettledWhere, Descends, PromotedByLaw, DemotedByLaw, LocalsLoseNone, AllExecutable, Get, NonceOf,
        BeatsPromoted, BeatsDemoted;
      var accounts := dirty;
      ghost var batch := Batch([], [], []);
      if reset.Some? {
        batch := Reset(reset.value, now);
        accounts := queue.Keys;
      }
      LinkedConsistent();
      ghost var env, l0, all0 := Environment(), Books(), all.All();
      promoted := PromoteExecutables(accounts, now);
      ghost var l1 := Books();
      BeatsArePromoted(l0, l1, accounts, now);
      if reset.Some? {
        DemoteUnexecutables(now);
        BeatsAreDemoted(l1, Books(), now);
        DemotionPays(env, l1.view, Sides());
      } else if Payables(l0.view.pending, balances, maxGas) {
        PromotionPays(env, l0.view, l1.view, accounts);
      }
      st := Stages(l0.view, l0.beats, l1.view, l1.beats, Sides(), beats, batch);
      if reset.Some? && reset.value.loaded {
        if old(Interval()) {
          HeadSettles(old(nonces), old(Sides()), env, reset.value, all0, st);
        }
      } else if old(Interval()) && old(Funded()) {
        RunSettles(env, reset.Some?, accounts, l0.view, l1.view, Sides());
      }
    }

    lemma LinkedConsistent()
      requires Linked()
      ensures Consistent(pending, queue, all.All())
    {
    }

    /** The second half of a run: truncate both sides, then update the virtual nonces. */
    method Truncate(now: int, ghost st: Stages) returns (ghost cuts: Cuts)
      requires Valid()
      requires st.shuffled == Sides() && st.beats == beats
      modifies this`pending, this`queue, this`beats, this`noncer, all, priced
      ensures Valid() && (Settled(Environment(), st.shuffled) ==> Interval()) && (old(Funded()) ==> Funded())
      ensures forall a :: a in pending ==> Virtual(noncer, nonces, a) == MaxKey(pending[a]) + 1
      ensures Total(pending) <= config.globalSlots || forall a :: a !in locals ==>
                                                                    |Get(pending, a)| <= config.accountSlots
      ensures Total(queue) <= config.globalQueue || queue.Keys <= locals
      ensures TruncatedTo(config, locals, st, cuts, pending, queue)
      ensures beats == st.beats - (st.shuffled.queue.Keys - queue.Keys)
      ensures forall a :: a !in st.shuffled.pending ==>
                            Virtual(noncer, nonces, a) == Virtual(st.shuffled.noncer, nonces, a)
    {
      hide Linked, HeapSound, Intervals, Settled, AtLevel, WaterLevel, Total, LocalTotal, NoncesUpdated, ByHeartbeat,
        DrainedFrom, MaxKey, WellListed, QueueCut,
        Payables, TruncatedTo, Virtual, Within, Get;
      ghost var env, v := Environment(), View(pending, queue, noncer);
      LinkedListed();
      ghost var level := TruncatePending();
      LinkedListed();
      LevelMeans(config, v.pending, locals, level, pending, balances, maxGas);
      ghost var noncer1 := noncer;
      ghost var addresses, cut, keep := TruncateQueue(now);
      cuts := Cuts(level, addresses, cut, keep);
      TruncatedIs(config, locals, st, cuts, pending, queue);
      UpdateNonces();
      NoncesSettle(config, env, v, level, pending, queue, noncer1, noncer);
    }

    /** Everything an event's effect is told by. */
    ghost function Snap(): Snapshot
      reads this, all, priced
    {
      Snapshot(Environment(), Books(), Sighted())
    }

    /** Whole runs: batches of transactions, reorganisation runs and evictions in any order and
        number.  Each state is the one its event makes of the state before.  The pool is consistent
        at every lock release, and as long as every new head descends from the old one the nonce
        intervals hold too. */
    method Run(events: seq<PoolEvent>) returns (ghost snaps: seq<Snapshot>, ghost outs: seq<Outcome>)
      requires Valid() && forall e :: e in events ==> Sized(e)
      modifies this, all, priced
      ensures Valid() && (old(Funded()) ==> Funded())
      ensures old(Interval()) && old(Funded()) && AllDescend(old(nonces), events) ==> Interval()
      ensures Replay(config, snaps, events, outs, |events|)
      ensures snaps[0] == old(Snap()) && snaps[|events|] == Snap()
    {
      hide Linked, HeapSound, Intervals, AllDescend, Descends, Payables, EventRight, Replay;
      var i := 0;
      snaps, outs := [Snap()], [];
      ReplayStart(config, snaps, events);
      assert events[0..] == events;
      while i < |events|
        invariant i <= |events| && Valid() && (old(Funded()) ==> Funded())
        invariant old(Interval()) && old(Funded()) && AllDescend(old(nonces), events) ==>
                    Interval() && AllDescend(nonces, events[i..])
        invariant Replay(config, snaps, events, outs, i) && |snaps| == i + 1 && |outs| == i
        invariant snaps[0] == old(Snap()) && snaps[i] == Snap()
      {
        assert events[i] in events && Sized(events[i]);
        if AllDescend(nonces, events[i..]) {
          DescendStep(nonces, events[i..]);
        }
        assert events[i..][1..] == events[i + 1..];
        ghost var o := Handle(events[i]);
        ReplayNext(config, snaps, events, outs, i, o, Snap());
        snaps, outs := snaps + [Snap()], outs + [o];
        i := i + 1;
      }
    }

    /** One event. */
    method Handle(e: PoolEvent) returns (ghost o: Outcome)
      requires Valid() && Sized(e)
      modifies this, all, priced
      ensures Valid() && (old(Funded()) ==> Funded())
      ensures var good := e.Reorg? && e.reset.Some? ==> Descends(old(nonces), e.reset.value);
              old(Interval()) && old(Funded()) && good ==> Interval()
      ensures nonces == if e.Reorg? && e.reset.Some? then NoncesAfter(old(nonces), e.reset.value) else old(nonces)
      ensures EventRight(config, old(Snap()), e, o, Snap())
    {
      hide Linked, HeapSound, Intervals, Descends, Total, MaxKey, Payables, BatchRight, Entered, Shuffled, TruncatedTo,
        Kept, AllCut, SettledWhere, Settled, PromotedByLaw, DemotedByLaw, LocalsLoseNone, AllExecutable, Get, NonceOf,
        Virtual, NewlyPromoted, Consistent;
      match e {
        case AddBatch(subs, local, now) =>
          ghost var v := Sides();
          var _, _, batch := AddTxsLocked(subs, local, now);
          KeptMeans(nonces, balances, maxGas, v, Sides());
          o := Added(batch);
        case Reorg(reset, dirty, now) =>
          var promoted, st, cuts := RunReorg(reset, dirty, now);
          o := Reorged(st, cuts, promoted);
        case Evict(now, lifetime) =>
          Evict(now, lifetime);
          o := Evicted;
      }
      LinkedConsistent();
    }

    // ----- promotion -----

    /** Removes a part of a list from the lookup; the price heap is told later. */
    method Unlist(txs: Txs, ghost a: Address, ghost debt: nat)
      requires priced.all == all && all.Valid() && priced.Sound(debt) && OwnedBy(txs, a)
      modifies all
      ensures all.Valid() && priced.Sound(debt + |txs|)
      ensures all.All() == old(all.All()) - Members(txs)
    {
      hide all.Valid, HeapSound, Members, OwnedBy, Unlisted;
      var todo := txs.Keys;
      ghost var done: nat := 0;
      UnlistStart(all.All(), txs);
      while todo != {}
        invariant todo <= txs.Keys && all.Valid() && done + |todo| == |txs|
        invariant priced.Sound(debt + done)
        invariant Unlisted(old(all.All()), txs, todo, all.All())
        decreases todo
      {
        var n :| n in todo;
        RemovalOwesOne(priced.heap, priced.stales, all.remotes, debt + done, txs[n]);
        UnlistStep(old(all.All()), txs, todo, n, all.All());
        all.Remove(txs[n]);
        todo, done := todo - {n}, done + 1;
      }
      UnlistDone(old(all.All()), txs, all.All());
    }

    /** Puts tx into its account's pending list. */
    method PromoteTx(a: Address, tx: Tx, now: int) returns (ok: bool)
      requires priced.all == all && all.Valid()
      requires tx.nonce in Get(pending, a) ==> priced.Sound(0)
      modifies this`pending, this`noncer, this`beats, all, priced
      ensures var p := Get(old(pending), a);
              && (ok <==> (tx.nonce in p ==> Outbids(tx, p[tx.nonce], config.priceBump)))
              && pending == (if ok then old(pending)[a := With(p, tx)] else old(pending))
              && noncer == (if ok then old(noncer)[a := tx.nonce + 1] else old(noncer))
              && all.All() == old(all.All()) - (if !ok then {tx} else if tx.nonce in p then {p[tx.nonce]} else {})
      ensures beats == if ok then old(beats)[a := now] else old(beats)
      ensures all.Valid()
      ensures tx.nonce in Get(old(pending), a) ==> priced.Sound(0)
      ensures tx.nonce !in Get(old(pending), a) ==> unchanged(all) && unchanged(priced)
    {
      hide Outbids, all.Valid, HeapSound;
      var p := Get(pending, a);
      if tx.nonce in p && !Outbids(tx, p[tx.nonce], config.priceBump) {
        Forget(tx);
        return false;
      }
      pending := pending[a := With(p, tx)];
      if tx.nonce in p {
        Forget(p[tx.nonce]);
      }
      noncer := noncer[a := tx.nonce + 1];
      beats := beats[a := now];
      return true;
    }

    /** Promotes a run of consecutive nonces, none of which is pending already, so that every
        one of them is inserted. */
    method PromoteRun(a: Address, ready: Txs, lo: nat, hi: nat, now: int) returns (promoted: seq<Tx>)
      requires priced.all == all && all.Valid() && WellListed(pending)
      requires OwnedBy(ready, a) && ready != map[] && IsInterval(ready, lo, hi)
      requires ready.Keys !! Get(pending, a).Keys
      modifies this`pending, this`noncer, this`beats, all, priced
      ensures pending == Set(old(pending), a, Get(old(pending), a) + ready)
      ensures noncer == old(noncer)[a := hi] && beats == old(beats)[a := now]
      ensures Sorts(promoted, ready)
      ensures unchanged(all) && unchanged(priced)
    {
      hide Outbids, all.Valid, HeapSound, Sorts, WellListed, RunState;
      promoted := [];
      ghost var start := Account(pending, noncer, beats);
      RunStart(start, a, ready, lo, hi, now);
      var n := lo;
      while n < hi
        invariant lo <= n <= hi
        invariant unchanged(all) && unchanged(priced)
        invariant RunState(start, a, ready, lo, n, now, Account(pending, noncer, beats), promoted)
        decreases hi - n
      {
        RunStep(start, a, ready, lo, n, now, Account(pending, noncer, beats), promoted);
        var ok := PromoteTx(a, ready[n], now);
        promoted := promoted + [ready[n]];
        n := n + 1;
      }
      RunDone(start, a, ready, lo, hi, now, Account(pending, noncer, beats), promoted);
    }

    /** promoteExecutables for one account. */
    method PromoteAccount(a: Address, lim: Limits, now: int) returns (promoted: seq<Tx>)
      requires priced.all == all && Linked() && priced.Sound(0)
      modifies this`pending, this`queue, this`noncer, this`beats, all, priced
      ensures Linked() && priced.Sound(0)
      ensures pending == Set(old(pending), a,
                             Get(old(pending), a) + Promoted(Get(old(queue), a), Virtual(old(noncer), nonces, a), lim))
      ensures queue == Set(old(queue), a, StillQueued(Get(old(queue), a), Virtual(old(noncer), nonces, a), lim))
      ensures Virtual(noncer, nonces, a) == PromotedNonce(Get(old(queue), a), Virtual(old(noncer), nonces, a), lim)
      ensures forall b :: b != a ==> Virtual(noncer, nonces, b) == Virtual(old(noncer), nonces, b)
      ensures Sorts(promoted, Promoted(Get(old(queue), a), Virtual(old(noncer), nonces, a), lim))
      ensures all.All() <= old(all.All())
      ensures beats == BeatsAfter(old(beats), a in old(queue),
                                  Promoted(Get(old(queue), a), Virtual(old(noncer), nonces, a), lim) != map[],
                                  a in queue, a, now)
    {
      hide Get, Set, OwnedBy, IsInterval, MinKey, ReadyEnd, WellListed, Consistent, Promoted, PromotedNonce,
        StillQueued, Fresh, CappedOff, AfterReady, Members, WithoutDrops, Sorts, all.Valid, HeapSound, Below,
        Unpayable, AtLeast, Virtual;
      var pn := Virtual(noncer, nonces, a);
      promoted := [];
      ConsistentParts(pending, queue, all.All(), a);
      PromotionEmpty(pending, queue, a, pn, lim);
      if a !in queue {
        return;
      }
      promoted := PromoteQueued(a, pn, lim, now);
    }

    /** The steps for an account with a queue. */
    method PromoteQueued(a: Address, pn: nat, lim: Limits, now: int) returns (promoted: seq<Tx>)
      requires priced.all == all && Linked() && priced.Sound(0) && a in queue && pn == Virtual(noncer, nonces, a)
      modifies this`pending, this`queue, this`noncer, this`beats, all, priced
      ensures Linked() && priced.Sound(0)
      ensures pending == Set(old(pending), a, Get(old(pending), a) + Promoted(Get(old(queue), a), pn, lim))
      ensures queue == Set(old(queue), a, StillQueued(Get(old(queue), a), pn, lim))
      ensures Virtual(noncer, nonces, a) == PromotedNonce(Get(old(queue), a), pn, lim)
      ensures forall b :: b != a ==> Virtual(noncer, nonces, b) == Virtual(old(noncer), nonces, b)
      ensures Sorts(promoted, Promoted(Get(old(queue), a), pn, lim))
      ensures all.All() <= old(all.All())
      ensures beats == BeatsAfter(old(beats), true, Promoted(Get(old(queue), a), pn, lim) != map[], a in queue, a, now)
    {
      hide Get, Set, OwnedBy, IsInterval, MinKey, ReadyEnd, WellListed, Consistent, Promoted, PromotedNonce,
        StillQueued, Fresh, CappedOff, AfterReady, Members, WithoutDrops, Sorts, all.Valid, HeapSound, Below,
        Unpayable, AtLeast, Virtual;
      ConsistentParts(pending, queue, all.All(), a);
      PromotionSteps(pending, queue, a, pn, lim);
      PromotionConsistent(pending, queue, all.All(), a, pn, lim);
      WithoutDropsIs(all.All(), Get(queue, a), pn, lim);
      var owed := DropUnusable(a, Get(queue, a), lim);
      promoted := PromoteReady(a, Get(queue, a), pn, lim, now);
      CapQueue(a, Get(queue, a), pn, lim, owed);
    }

    method PromoteReady(a: Address, q: Txs, pn: nat, lim: Limits, now: int) returns (promoted: seq<Tx>)
      requires priced.all == all && all.Valid() && WellListed(pending) && pn == Virtual(noncer, nonces, a)
      requires OwnedBy(Promoted(q, pn, lim), a) && Promoted(q, pn, lim).Keys !! Get(pending, a).Keys
      requires Promoted(q, pn, lim) != map[] ==>
                 && Fresh(q, lim) != map[]
                 && IsInterval(Promoted(q, pn, lim), MinKey(Fresh(q, lim)), ReadyEnd(Fresh(q, lim), pn))
      modifies this`pending, this`noncer, this`beats, all, priced
      ensures pending == Set(old(pending), a, Get(old(pending), a) + Promoted(q, pn, lim))
      ensures Virtual(noncer, nonces, a) == PromotedNonce(q, pn, lim)
      ensures forall b :: b != a ==> Virtual(noncer, nonces, b) == Virtual(old(noncer), nonces, b)
      ensures Sorts(promoted, Promoted(q, pn, lim))
      ensures unchanged(all) && unchanged(priced) && beats.Keys >= old(beats).Keys
      ensures beats == if Promoted(q, pn, lim) == map[] then old(beats) else old(beats)[a := now]
    {
      hide Set, Sorts, OwnedBy, WellListed, IsInterval, Promoted, Fresh, MinKey, ReadyEnd, all.Valid;
      var ready := Promoted(q, pn, lim);
      promoted := [];
      if ready == map[] {
        NothingPromoted(pending, a, ready);
        return;
      }
      promoted := PromoteRun(a, ready, MinKey(Fresh(q, lim)), ReadyEnd(Fresh(q, lim), pn), now);
    }

    /** Caps what is left of the queue and settles with the price heap. */
    method CapQueue(a: Address, q: Txs, pn: nat, lim: Limits, owed: nat)
      requires priced.all == all && all.Valid() && priced.Sound(owed)
      requires queue.Keys <= beats.Keys && OwnedBy(CappedOff(AfterReady(Fresh(q, lim), pn), lim), a)
      modifies this`queue, this`beats, all, priced
      ensures all.Valid() && priced.Sound(0)
      ensures queue == Set(old(queue), a, StillQueued(q, pn, lim)) && queue.Keys <= beats.Keys + {a}
      ensures a in old(beats) ==> queue.Keys <= beats.Keys
      ensures beats == if a in queue then old(beats) else old(beats) - {a}
      ensures all.All() == old(all.All()) - Members(CappedOff(AfterReady(Fresh(q, lim), pn), lim))
    {
      hide OwnedBy, StillQueued, Fresh, CappedOff, AfterReady, Members, all.Valid, HeapSound, Rebuilt, EntriesFrom;
      var caps := CappedOff(AfterReady(Fresh(q, lim), pn), lim);
      Unlist(caps, a, owed);
      priced.Removed(owed + |caps|);
      queue := Set(queue, a, StillQueued(q, pn, lim));
      if a !in queue {
        beats := beats - {a};
      }
    }

    /** Promotes every given account; the others keep their lists and nonces. */
    method PromoteExecutables(accounts: set<Address>, now: int) returns (promoted: seq<Tx>)
      requires priced.all == all && Linked() && priced.Sound(0)
      modifies this`pending, this`queue, this`noncer, this`beats, all, priced
      ensures Linked() && priced.Sound(0)
      ensures AllPromoted(Environment(), old(Sides()), Sides(), accounts)
      ensures forall tx ::
                tx in promoted <==> tx.sender in accounts && NewlyPromoted(Environment(), old(Sides()), tx)
      ensures all.All() <= old(all.All())
      ensures PromotedByLaw(nonces, balances, maxGas, locals, config.accountQueue, old(Sides()), Sides(), accounts)
      ensures forall a :: a in accounts && a !in locals ==> |Get(queue, a)| <= config.accountQueue
      ensures forall a, n :: a in accounts && a in locals && n in Get(old(queue), a) && NonceOf(nonces, a) <= n
                             && Get(old(queue), a)[n].gas <= maxGas
                             && Get(old(queue), a)[n].cost <= NonceOf(balances, a) ==>
                               n in Get(pending, a) || n in Get(queue, a)
      ensures LocalsLoseNone(nonces, balances, maxGas, locals, old(Sides()), Sides(), accounts)
      ensures forall a ::
                if a !in accounts || a !in old(queue) then SameBeat(old(beats), beats, a)
                else if a !in queue then a !in beats
                else if Get(pending, a) != Get(old(pending), a) then a in beats && beats[a] == now
                else SameBeat(old(beats), beats, a)
    {
      hide Linked, HeapSound, AllPromoted, NewlyPromoted, PromotedByLaw, BeatsPromoted, Get, NonceOf, Consistent, Apart,
        SameBeat;
      ghost var env, l0 := Environment(), Books();
      LinkedConsistent();
      ConsistentApart(Sides(), all.All());
      promoted := PromoteEach(accounts, now);
      AllPromotedObey(env, l0.view, Sides(), accounts);
      LawMeans(nonces, balances, maxGas, locals, config.accountQueue, l0.view, Sides(), accounts);
      BeatsMean(l0, Books(), accounts, now);
    }

    /** The loop of PromoteExecutables. */
    method PromoteEach(accounts: set<Address>, now: int) returns (promoted: seq<Tx>)
      requires priced.all == all && Linked() && priced.Sound(0)
      modifies this`pending, this`queue, this`noncer, this`beats, all, priced
      ensures Linked() && priced.Sound(0)
      ensures AllPromoted(Environment(), old(Sides()), Sides(), accounts)
      ensures forall tx ::
                tx in promoted <==> tx.sender in accounts && NewlyPromoted(Environment(), old(Sides()), tx)
      ensures all.All() <= old(all.All()) && BeatsPromoted(old(Books()), Books(), accounts, now)
    {
      hide AllPromoted, SameAt, PromotedAt, Linked, HeapSound, NewlyPromoted, Sorts, Set, Promoted, StillQueued,
        PromotedNonce, BeatsPromoted, BeatPromoted, WellListed;
      var env := Environment();
      ghost var l0 := Books();
      promoted := [];
      var todo := accounts;
      PromotionStart(env, l0.view);
      BeatsStart(l0, now);
      LinkedListed();
      assert accounts - todo == {};
      while todo != {}
        invariant todo <= accounts && Linked() && priced.Sound(0)
        invariant AllPromoted(env, l0.view, Sides(), accounts - todo)
        invariant forall tx :: tx in promoted <==> tx.sender in accounts - todo && NewlyPromoted(env, l0.view, tx)
        invariant all.All() <= old(all.All()) && BeatsPromoted(l0, Books(), accounts - todo, now)
        decreases todo
      {
        var a :| a in todo;
        ghost var l := Books();
        LinkedOwned(a);
        LinkedListed();
        var readies := PromoteAccount(a, LimitsIn(env, a), now);
        PromotionStep(env, l0.view, l.view, Sides(), accounts - todo, a);
        PromotionListed(env, l0.view, l.view, accounts - todo, a, readies);
        PromotionBeats(env, l0, l, Books(), accounts - todo, a, now);
        promoted := promoted + readies;
        assert accounts - (todo - {a}) == (accounts - todo) + {a};
        todo := todo - {a};
      }
      assert accounts - {} == accounts;
    }

    lemma LinkedOwned(a: Address)
      requires Linked()
      ensures OwnedBy(Get(queue, a), a) && Get(pending, a).Keys !! Get(queue, a).Keys
    {
    }

    // ----- demotion -----

    /** Demotes every pending account: what can no longer be executed leaves or returns to the queue. */
    method DemoteUnexecutables(now: int)
      requires priced.all == all && Linked() && priced.Sound(0)
      modifies this`pending, this`queue, this`beats, all, priced
      ensures Linked() && priced.Sound(0)
      ensures AllDemoted(Environment(), old(Sides()), Sides(), old(pending).Keys)
      ensures all.All() <= old(all.All())
      ensures DemotedByLaw(nonces, balances, maxGas, old(Sides()), Sides(), old(pending).Keys)
      ensures AllExecutable(nonces, balances, maxGas, pending)
      ensures forall a :: if a in queue && a !in old(beats) then a in beats && beats[a] == now
                          else SameBeat(old(beats), beats, a)
    {
      hide Linked, HeapSound, AllDemoted, DemotedByLaw, AllExecutable, Get, NonceOf, Consistent, Apart, SameBeat;
      ghost var env, l0 := Environment(), Books();
      LinkedConsistent();
      LinkedListed();
      ConsistentApart(Sides(), all.All());
      DemoteEach(now);
      AllDemotedObey(env, l0.view, Sides(), l0.view.pending.Keys);
      LinkedListed();
      DemotionLeaves(env, l0.view, Sides());
    }

    /** The loop of DemoteUnexecutables. */
    method DemoteEach(now: int)
      requires priced.all == all && Linked() && priced.Sound(0)
      modifies this`pending, this`queue, this`beats, all, priced
      ensures Linked() && priced.Sound(0)
      ensures AllDemoted(Environment(), old(Sides()), Sides(), old(pending).Keys)
      ensures all.All() <= old(all.All()) && BeatsDemoted(old(Books()), Books(), now)
    {
      hide AllDemoted, SameAt, DemotedAt, Linked, HeapSound, DemoteKept, DemoteBack, BeatsDemoted;
      var env := Environment();
      ghost var l0 := Books();
      var accounts := pending.Keys;
      var todo := accounts;
      DemotionStart(env, l0.view);
      LinkedBeats();
      BeatsUndemoted(l0, now);
      assert accounts - todo == {};
      while todo != {}
        invariant todo <= accounts && Linked() && priced.Sound(0)
        invariant AllDemoted(env, l0.view, Sides(), accounts - todo)
        invariant all.All() <= old(all.All()) && BeatsDemoted(l0, Books(), now)
        decreases todo
      {
        var a :| a in todo;
        ghost var l := Books();
        LinkedBeats();
        DemoteAccount(a, LimitsIn(env, a), now);
        DemotionStep(env, l0.view, l.view, Sides(), accounts - todo, a);
        BeatsDemotedStep(l0, l, Books(), a, now);
        assert accounts - (todo - {a}) == (accounts - todo) + {a};
        todo := todo - {a};
      }
      assert accounts - {} == accounts;
    }

    lemma LinkedBeats()
      requires Linked()
      ensures queue.Keys <= beats.Keys && WellListed(queue)
    {
    }


    /** demoteUnexecutables for one account. */
    method DemoteAccount(a: Address, lim: Limits, now: int)
      requires priced.all == all && Linked() && priced.Sound(0)
      modifies this`pending, this`queue, this`beats, all, priced
      ensures Linked() && priced.Sound(0)
      ensures pending == Set(old(pending), a, DemoteKept(Get(old(pending), a), lim))
      ensures queue == Set(old(queue), a, Get(old(queue), a) + DemoteBack(Get(old(pending), a), lim))
      ensures all.All() <= old(all.All())
      ensures beats == if a in queue && a !in old(beats) then old(beats)[a := now] else old(beats)
    {
      hide Get, Set, OwnedBy, WellListed, Consistent, FilterKept, FilterInvalid, DemoteKept, DemoteBack, Members,
        WithoutDemoted, all.Valid, HeapSound, Below, Unpayable, AtLeast;
      DemotionSteps(pending, queue, all.All(), a, lim);
      DemotionConsistent(pending, queue, all.All(), a, lim);
      WithoutDemotedIs(all.All(), Get(pending, a), lim);
      DemotionMoves(queue, Get(pending, a), a, lim);
      var list := Get(pending, a);
      DropAndSettle(a, list, lim);
      list := AtLeast(list, lim.sn);
      var invalids := FilterInvalid(list, true, lim.balance, lim.maxGas);
      list := FilterKept(list, true, lim.balance, lim.maxGas);
      Requeue(a, invalids, now);
      if list != map[] && lim.sn !in list {
        Requeue(a, list, now);
        list := map[];
      }
      pending := Set(pending, a, list);
    }

    // ----- truncation -----

    /** Drops the highest pending nonce of one account. */
    method CapOne(a: Address)
      requires priced.all == all && Linked() && priced.Sound(0) && a in pending && |pending[a]| >= 2
      modifies this`pending, this`noncer, all, priced
      ensures Linked() && priced.Sound(0)
      ensures pending == old(pending)[a := Lowest(old(pending)[a], |old(pending)[a]| - 1)]
      ensures forall b :: b != a ==> Virtual(noncer, nonces, b) == Virtual(old(noncer), nonces, b)
      ensures Total(pending) == Total(old(pending)) - 1 && all.All() <= old(all.All())
    {
      hide Consistent, all.Valid, HeapSound, Lowest, MaxKey, Virtual, Total;
      var list := pending[a];
      var tx := list[MaxKey(list)];
      CapConsistent(pending, queue, all.All(), a);
      TotalDrop(pending, a, Lowest(list, |list| - 1));
      Forget(tx);
      pending := pending[a := Lowest(list, |list| - 1)];
      noncer := LowerNonce(noncer, nonces, a, tx.nonce);
    }

    /** Caps every given account by one. */
    method CapRound(front: seq<Address>, ghost level: nat)
      requires priced.all == all && Linked() && priced.Sound(0) && level >= 2
      requires forall i, j :: 0 <= i < j < |front| ==> front[i] != front[j]
      requires forall a :: a in front ==> |Get(pending, a)| == level
      modifies this`pending, this`noncer, all, priced
      ensures Linked() && priced.Sound(0)
      ensures forall a :: Get(pending, a) == if a in front then Lowest(Get(old(pending), a), level - 1)
                                             else Get(old(pending), a)
      ensures Total(pending) == Total(old(pending)) - |front| && all.All() <= old(all.All())
      ensures forall a :: a !in front ==> Virtual(noncer, nonces, a) == Virtual(old(noncer), nonces, a)
    {
      hide Linked, HeapSound, Lowest, Virtual, Total;
      for i := 0 to |front|
        invariant Linked() && priced.Sound(0)
        invariant forall a :: Get(pending, a) == if a in front[..i] then Lowest(Get(old(pending), a), level - 1)
                                                 else Get(old(pending), a)
        invariant Total(pending) == Total(old(pending)) - i && all.All() <= old(all.All())
        invariant forall a :: a !in front[..i] ==> Virtual(noncer, nonces, a) == Virtual(old(noncer), nonces, a)
      {
        assert front[i] !in front[..i];
        assert Get(pending, front[i]) == Get(old(pending), front[i]);
        CapOne(front[i]);
        assert front[..i + 1] == front[..i] + [front[i]];
      }
      assert front[..|front|] == front;
    }

    /** Rounds of caps on the accounts at the level, until the total fits or the level has
        come down to `floor`. */
    method LowerLevel(front: seq<Address>, floor: nat, count0: int, ghost m0: Lists, ghost level0: nat,
                      ghost spammers: set<Address>)
      returns (count: int, ghost level: nat)
      requires priced.all == all && Linked() && priced.Sound(0) && WellListed(m0) && front != []
      requires config.Sane() && config.accountSlots <= floor <= level0
      requires Leveling(m0, locals, config.accountSlots, config.globalSlots, level0, front, spammers)
      requires AtLevel(m0, locals, level0, pending) && count0 == Total(pending) && count0 > config.globalSlots
      requires forall a :: a !in locals && a !in front ==> |Get(m0, a)| <= floor
      modifies this`pending, this`noncer, all, priced
      ensures Linked() && priced.Sound(0)
      ensures floor <= level && count == Total(pending) && AtLevel(m0, locals, level, pending)
      ensures Leveling(m0, locals, config.accountSlots, config.globalSlots, level, front, spammers)
      ensures (count <= config.globalSlots || level == floor) && all.All() <= old(all.All())
      ensures forall a :: a !in m0 ==> Virtual(noncer, nonces, a) == Virtual(old(noncer), nonces, a)
    {
      hide Linked, HeapSound, Lowest, Virtual, Total, LevelTotal, Leveling, AtLevel, WellListed;
      count, level := count0, level0;
      OffendersAtLevel(m0, locals, config.accountSlots, config.globalSlots, level, front, spammers, pending);
      while count > config.globalSlots && |pending[front[|front| - 1]]| > floor
        invariant Linked() && priced.Sound(0)
        invariant floor <= level && count == Total(pending) && AtLevel(m0, locals, level, pending)
        invariant Leveling(m0, locals, config.accountSlots, config.globalSlots, level, front, spammers)
        invariant front[|front| - 1] in pending && |pending[front[|front| - 1]]| == level && all.All() <= old(all.All())
        invariant forall a :: a !in m0 ==> Virtual(noncer, nonces, a) == Virtual(old(noncer), nonces, a)
        decreases level
      {
        ghost var m := pending;
        LinkedListed();
        OffendersAtLevel(m0, locals, config.accountSlots, config.globalSlots, level, front, spammers, pending);
        CapRound(front, level);
        RoundStep(m0, locals, config.accountSlots, config.globalSlots, level, front, spammers, m, pending);
        count := count - |front|;
        level := level - 1;
        OffendersAtLevel(m0, locals, config.accountSlots, config.globalSlots, level, front, spammers, pending);
      }
    }

    lemma LinkedListed()
      requires Linked()
      ensures WellListed(pending) && WellListed(queue)
    {
    }

    /** Truncates pending to the fair water level: the largest one that brings the total within
        the global slots, or the per-account guarantee. Locals are untouched. */
    method TruncatePending() returns (ghost level: nat)
      requires priced.all == all && config.Sane() && Linked() && priced.Sound(0)
      modifies this`pending, this`noncer, all, priced
      ensures Linked() && priced.Sound(0)
      ensures Total(old(pending)) <= config.globalSlots ==> pending == old(pending)
      ensures Total(old(pending)) > config.globalSlots ==>
                && WaterLevel(old(pending), locals, config.accountSlots, config.globalSlots, level)
                && AtLevel(old(pending), locals, level, pending)
      ensures forall a :: a !in old(pending) ==> Virtual(noncer, nonces, a) == Virtual(old(noncer), nonces, a)
      ensures all.All() <= old(all.All())
    {
      hide Linked, HeapSound, Lowest, Virtual, Total, LevelTotal, Leveling, AtLevel, WellListed, IsLongest, Get;
      ghost var m0 := pending;
      LinkedListed();
      var limit, guarantee := config.globalSlots, config.accountSlots;
      level := guarantee;
      var count := CountLists(pending);
      if count <= limit {
        return;
      }
      var spammers := Spammers(pending, locals, guarantee);
      var offenders: seq<Address> := [];
      level := LevelingStart(m0, locals, guarantee, limit);
      while count > limit && spammers != {}
        invariant Linked() && priced.Sound(0) && spammers <= m0.Keys && all.All() <= old(all.All())
        invariant count == Total(pending) && AtLevel(m0, locals, level, pending)
        invariant guarantee <= level && LevelTotal(m0, locals, level + 1) > limit
        invariant count > limit ==> Leveling(m0, locals, guarantee, limit, level, offenders, spammers)
        invariant offenders == [] ==> pending == m0 && LevelTotal(m0, locals, level) == Total(m0)
        invariant forall a :: a !in m0 ==> Virtual(noncer, nonces, a) == Virtual(old(noncer), nonces, a)
        decreases spammers
      {
        LongestExists(pending, spammers);
        var offender :| IsLongest(pending, spammers, offender);
        WaitingUntouched(m0, locals, guarantee, limit, level, offenders, spammers, pending, offender);
        LongestIn(pending, spammers, offender);
        if |offenders| > 0 {
          NextOffender(m0, locals, guarantee, limit, level, offenders, spammers, offender);
          var threshold := |pending[offender]|;
          count, level := LowerLevel(offenders, threshold, count, m0, level, spammers);
          LevelingBounds(m0, locals, guarantee, limit, level, offenders, spammers);
          NextOffender(m0, locals, guarantee, limit, level, offenders, spammers, offender);
        } else {
          FirstOffender(m0, locals, guarantee, limit, level, spammers, offender);
          level := |Get(m0, offender)|;
          LevelingBounds(m0, locals, guarantee, limit, level, [offender], spammers - {offender});
          assert offenders + [offender] == [offender];
        }
        offenders := offenders + [offender];
        spammers := spammers - {offender};
      }
      if count > limit {
        AllPopped(m0, locals, guarantee, limit, level, offenders);
        if |offenders| > 0 {
          count, level := LowerLevel(offenders, guarantee, count, m0, level, {});
          LevelingBounds(m0, locals, guarantee, limit, level, offenders, {});
        } else {
          level := guarantee;
          HighLevel(m0, locals, level);
        }
      }
      LinkedListed();
      TotalAtLevel(m0, locals, level, pending);
    }

    /** removeTx of a queued transaction: since no nonce is both pending and queued, it never
        touches pending. */
    method RemoveQueued(a: Address, n: nat, now: int)
      requires priced.all == all && Linked() && priced.Sound(0) && n in Get(queue, a)
      modifies this`pending, this`queue, this`beats, this`noncer, all, priced
      ensures Linked() && priced.Sound(0)
      ensures pending == old(pending) && noncer == old(noncer)
      ensures queue == Set(old(queue), a, Get(old(queue), a) - {n})
      ensures all.All() <= old(all.All())
      ensures beats == if a in queue then old(beats) else old(beats) - {a}
    {
      hide Set, HeapSound, all.Valid, LowerNonce;
      var tx := queue[a][n];
      QueuedOnly(pending, queue, all.All(), a, n);
      RemovedIs(nonces, Books(), all.All(), tx, now);
      hide Consistent, Removed;
      RemoveTx(tx, true, now);
    }

    /** Removes all queued transactions of an account, lowest nonce first. */
    method DrainAccount(a: Address, now: int)
      requires priced.all == all && Linked() && priced.Sound(0) && a in queue
      modifies this`pending, this`queue, this`beats, this`noncer, all, priced
      ensures Linked() && priced.Sound(0)
      ensures pending == old(pending) && noncer == old(noncer)
      ensures queue == old(queue) - {a} && beats == old(beats) - {a}
      ensures all.All() <= old(all.All())
    {
      hide Linked, HeapSound, MinKey, Set;
      while a in queue
        invariant Linked() && priced.Sound(0)
        invariant pending == old(pending) && noncer == old(noncer) && all.All() <= old(all.All())
        invariant queue - {a} == old(queue) - {a} && beats == if a in queue then old(beats) else old(beats) - {a}
        decreases |Get(queue, a)|
      {
        LinkedNonempty(a);
        var n := MinKey(queue[a]);
        RemoveSize(queue[a], n);
        OthersStay(queue, a, queue[a] - {n});
        RemoveQueued(a, n, now);
      }
      assert queue - {a} == queue;
    }

    /** Removes the `drop` highest queued nonces of an account. */
    method TrimAccount(a: Address, drop: nat, now: int)
      requires priced.all == all && Linked() && priced.Sound(0) && a in queue && drop < |queue[a]|
      modifies this`pending, this`queue, this`beats, this`noncer, all, priced
      ensures Linked() && priced.Sound(0)
      ensures pending == old(pending) && noncer == old(noncer)
      ensures queue == old(queue)[a := Lowest(old(queue)[a], |old(queue)[a]| - drop)] && beats == old(beats)
      ensures all.All() <= old(all.All())
    {
      hide Linked, HeapSound, MaxKey, Lowest, Trimmed, Set, Get;
      ghost var list := queue[a];
      var left: nat := drop;
      TrimEnds(queue, a);
      while left > 0
        invariant Linked() && priced.Sound(0) && left <= drop && beats == old(beats)
        invariant pending == old(pending) && noncer == old(noncer) && all.All() <= old(all.All())
        invariant Trimmed(old(queue), a, |list| - drop + left, queue)
        decreases left
      {
        TrimNext(old(queue), a, |list| - drop + left, queue);
        var n := MaxKey(queue[a]);
        RemoveQueued(a, n, now);
        left := left - 1;
      }
      TrimIs(old(queue), a, |list| - drop, queue);
    }

    /** The last step of TruncateQueue: part of one account. */
    method TrimTo(ghost m0: Lists, ghost beats0: map<Address, int>, order: seq<Address>, k: nat, drop: nat, now: int)
      requires priced.all == all && Linked() && priced.Sound(0) && WellListed(m0)
               && ByHeartbeat(m0, locals, beats0, order)
      requires 0 < k <= |order| && DrainedWhole(m0, order, k, queue) && order[k - 1] in queue
      requires drop == Total(queue) - config.globalQueue && drop < |queue[order[k - 1]]|
      modifies this`pending, this`queue, this`beats, this`noncer, all, priced
      ensures Linked() && priced.Sound(0)
      ensures pending == old(pending) && noncer == old(noncer) && all.All() <= old(all.All())
      ensures queue.Keys == old(queue).Keys && beats == old(beats)
      ensures QueueCut(m0, locals, beats0, config.globalQueue, order, k, |old(queue)[order[k - 1]]| - drop, queue)
      ensures Total(queue) <= config.globalQueue
      ensures forall a, n :: n in Get(queue, a) ==> n in Get(m0, a)
    {
      hide Linked, HeapSound, Lowest, Total, LocalTotal, DrainedFrom, DrainedWhole, ByHeartbeat, WellListed, Set,
        QueueCut, Get;
      var addr := order[k - 1];
      ghost var m, keep := queue, |queue[addr]| - drop;
      TotalReplace(queue, addr, Lowest(queue[addr], keep));
      TrimAccount(addr, drop, now);
      TrimmedLast(m0, locals, beats0, order, k, m, queue, keep);
      LinkedListed();
      CutDone(m0, locals, beats0, config.globalQueue, order, k, keep, queue);
    }

    /** Over the limit, drains the most recently active accounts first, trims at most one of
        them from the top, and ends exactly at the limit or at what the locals hold. */
    method TruncateQueue(now: int) returns (ghost addresses: seq<Address>, ghost cut: nat, ghost keep: nat)
      requires priced.all == all && config.Sane() && Linked() && priced.Sound(0)
      modifies this`pending, this`queue, this`beats, this`noncer, all, priced
      ensures Linked() && priced.Sound(0)
      ensures pending == old(pending) && noncer == old(noncer)
      ensures Total(old(queue)) <= config.globalQueue ==> queue == old(queue)
      ensures Total(old(queue)) > config.globalQueue ==>
                QueueCut(old(queue), locals, old(beats), config.globalQueue, addresses, cut, keep, queue)
      ensures Total(queue) <= config.globalQueue || queue.Keys <= locals
      ensures all.All() <= old(all.All())
      ensures forall a, n :: n in Get(queue, a) ==> n in Get(old(queue), a)
      ensures beats == old(beats) - (old(queue).Keys - queue.Keys)
    {
      hide Linked, HeapSound, Lowest, Total, LocalTotal, DrainedFrom, DrainedWhole, ByHeartbeat, WellListed, Set,
        QueueCut, Get;
      addresses, cut, keep := [], 0, 0;
      ghost var m0, beats0 := queue, beats;
      LinkedListed();
      var queued := CountLists(queue);
      if queued <= config.globalQueue {
        return;
      }
      var order := SortByHeartbeat(queue, locals, beats);
      addresses := order;
      var k, drop := |order|, queued - config.globalQueue;
      DrainStart(m0, order);
      while drop > 0 && k > 0
        invariant 0 <= k <= |order| && 0 <= drop == Total(queue) - config.globalQueue
        invariant Linked() && priced.Sound(0)
        invariant pending == old(pending) && noncer == old(noncer) && all.All() <= old(all.All())
        invariant queue.Keys <= m0.Keys && beats == beats0 - (m0.Keys - queue.Keys)
        invariant DrainedWhole(m0, order, k, queue)
        decreases k
      {
        var addr := order[k - 1];
        DrainStep(m0, locals, beats0, order, k, queue);
        DrainNext(m0, order, k, queue);
        var size := |queue[addr]|;
        if size <= drop {
          TotalWithout(queue, addr);
          DrainAccount(addr, now);
          drop := drop - size;
          k := k - 1;
        } else {
          cut, keep := k, size - drop;
          TrimTo(m0, beats0, order, k, drop, now);
          return;
        }
      }
      cut := k;
      keep := WholeIsFrom(m0, order, k, queue);
      KeepPositive(m0, locals, beats0, order, cut);
      LinkedListed();
      CutDone(m0, locals, beats0, config.globalQueue, order, cut, keep, queue);
    }

    /** Drops the queued transactions of inactive remote accounts. */
    method Evict(now: int, lifetime: int)
      requires Valid()
      modifies this`pending, this`queue, this`beats, this`noncer, all, priced
      ensures Valid() && (old(Interval()) ==> Interval()) && (old(Funded()) ==> Funded())
      ensures pending == old(pending) && noncer == old(noncer)
      ensures var idle := set a | a in old(queue) && a in old(beats) && a !in locals && now - old(beats)[a] > lifetime;
              queue == old(queue) - idle && beats == old(beats) - idle
    {
      hide Linked, HeapSound, Intervals;
      LinkedBeats();
      ghost var idle := set a | a in queue && a in beats && a !in locals && now - beats[a] > lifetime;
      var todo := queue.Keys;
      ghost var gone: set<Address> := {};
      while todo != {}
        invariant Linked() && priced.Sound(0) && todo <= queue.Keys
        invariant pending == old(pending) && noncer == old(noncer) && all.All() <= old(all.All())
        invariant gone == idle - todo && queue == old(queue) - gone && beats == old(beats) - gone
        decreases todo
      {
        var a :| a in todo;
        if a !in locals && now - beats[a] > lifetime {
          DrainAccount(a, now);
          gone := gone + {a};
        }
        todo := todo - {a};
      }
      assert gone == idle;
      if old(Interval()) {
        QueueShrinks(pending, old(queue), queue, noncer, nonces);
      }
    }

    lemma LinkedNonempty(a: Address)
      requires Linked() && a in queue
      ensures queue[a] != map[] && |queue[a]| > 0
    {
    }

    /** Drops the transactions that are too old or too costly from the lookup. */
    method DropAndSettle(a: Address, q: Txs, lim: Limits)
      requires priced.all == all && all.Valid() && priced.Sound(0)
      requires OwnedBy(Below(q, lim.sn), a) && OwnedBy(Unpayable(AtLeast(q, lim.sn), lim.balance, lim.maxGas), a)
      modifies all, priced
      ensures all.Valid() && priced.Sound(0)
      ensures all.All() == old(all.All()) - Members(Below(q, lim.sn)) - Members(Unpayable(AtLeast(q, lim.sn),
                                                                                          lim.balance, lim.maxGas))
    {
      hide *;
      var owed := DropUnusable(a, q, lim);
      priced.Removed(owed);
    }

    method DropUnusable(a: Address, q: Txs, lim: Limits) returns (owed: nat)
      requires priced.all == all && all.Valid() && priced.Sound(0)
      requires OwnedBy(Below(q, lim.sn), a) && OwnedBy(Unpayable(AtLeast(q, lim.sn), lim.balance, lim.maxGas), a)
      modifies all
      ensures all.Valid() && priced.Sound(owed)
      ensures all.All() == old(all.All()) - Members(Below(q, lim.sn)) - Members(Unpayable(AtLeast(q, lim.sn),
                                                                                          lim.balance, lim.maxGas))
    {
      hide *;
      var forwards := Below(q, lim.sn);
      Unlist(forwards, a, 0);
      var drops := Unpayable(AtLeast(q, lim.sn), lim.balance, lim.maxGas);
      Unlist(drops, a, |forwards|);
      owed := |forwards| + |drops|;
    }
  }

  /** The two ways back to the queue, taken one after the other, amount to DemoteBack. */
  lemma DemotionMoves(queue: Lists, p: Txs, a: Address, lim: Limits)
    requires OwnedBy(DemoteBack(p, lim), a) && DemoteBack(p, lim).Keys !! Get(queue, a).Keys
    requires Set(queue, a, Get(queue, a)) == queue
    ensures var live := AtLeast(p, lim.sn);
            var invalids, kept := FilterInvalid(live, true, lim.balance, lim.maxGas),
                                  FilterKept(live, true, lim.balance, lim.maxGas);
            var q := Get(queue, a);
            var queue' := if invalids == map[] then queue else queue[a := q + invalids];
            var gap := kept != map[] && lim.sn !in kept;
            && OwnedBy(invalids, a) && invalids.Keys !! q.Keys
            && (forall n :: n in invalids ==> n in DemoteBack(p, lim) && DemoteBack(p, lim)[n] == invalids[n])
            && (gap ==> OwnedBy(kept, a) && kept.Keys !! Get(queue', a).Keys && kept.Keys <= DemoteBack(p, lim).Keys)
            && (gap ==> forall n :: n in kept ==> DemoteBack(p, lim)[n] == kept[n])
            && DemoteKept(p, lim) == (if gap then map[] else kept)
            && Set(queue, a, q + DemoteBack(p, lim)) == (if gap then queue'[a := Get(queue', a) + kept] else queue')
            && (a in Set(queue, a, q + DemoteBack(p, lim)) <==> a in queue || invalids != map[] || gap)
  {
    hide FilterInvalid, FilterKept, DemoteBack, DemoteKept, Set, OwnedBy;
    var live := AtLeast(p, lim.sn);
    var invalids, kept := FilterInvalid(live, true, lim.balance, lim.maxGas),
                          FilterKept(live, true, lim.balance, lim.maxGas);
    BackIs(p, lim);
    MovesBack(queue, a, invalids, kept, kept != map[] && lim.sn !in kept, DemoteBack(p, lim));
  }

  lemma BackIs(p: Txs, lim: Limits)
    ensures var live := AtLeast(p, lim.sn);
            var invalids, kept := FilterInvalid(live, true, lim.balance, lim.maxGas),
                                  FilterKept(live, true, lim.balance, lim.maxGas);
            var gap := kept != map[] && lim.sn !in kept;
            && invalids.Keys !! kept.Keys
            && DemoteBack(p, lim) == (if gap then invalids + kept else invalids)
            && DemoteKept(p, lim) == (if gap then map[] else kept)
  {
    FilterPartition(AtLeast(p, lim.sn), true, lim.balance, lim.maxGas);
    hide FilterInvalid, FilterKept;
  }

  lemma MovesBack(queue: Lists, a: Address, invalids: Txs, kept: Txs, gap: bool, back: Txs)
    requires back == (if gap then invalids + kept else invalids) && invalids.Keys !! kept.Keys
    requires OwnedBy(back, a) && back.Keys !! Get(queue, a).Keys && Set(queue, a, Get(queue, a)) == queue
             && (gap ==> kept != map[])
    ensures var q := Get(queue, a);
            var queue' := if invalids == map[] then queue else queue[a := q + invalids];
            && OwnedBy(invalids, a) && invalids.Keys !! q.Keys
            && (forall n :: n in invalids ==> n in back && back[n] == invalids[n])
            && (gap ==> OwnedBy(kept, a) && kept.Keys !! Get(queue', a).Keys && kept.Keys <= back.Keys)
            && (gap ==> forall n :: n in kept ==> back[n] == kept[n])
            && Set(queue, a, q + back) == (if gap then queue'[a := Get(queue', a) + kept] else queue')
  {
    hide Set;
    var q := Get(queue, a);
    MergeIsSet(queue, a, back);
    if gap {
      var n :| n in kept;
      assert n in back;
      assert q + back == q + invalids + kept;
      assert invalids == map[] ==> q + invalids == q;
    }
  }

  lemma WithoutDemotedIs(s: set<Tx>, p: Txs, lim: Limits)
    ensures WithoutDemoted(s, p, lim) ==
            s - Members(Below(p, lim.sn)) - Members(Unpayable(AtLeast(p, lim.sn), lim.balance, lim.maxGas))
  {
  }

  lemma NothingPromoted(pending: Lists, a: Address, ready: Txs)
    requires WellListed(pending) && ready == map[]
    ensures Set(pending, a, Get(pending, a) + ready) == pending
    ensures Sorts([], ready)
  {
    assert Get(pending, a) + ready == Get(pending, a);
    SetSelf(pending, a);
  }

  lemma WithoutDropsIs(s: set<Tx>, q: Txs, pn: nat, lim: Limits)
    ensures WithoutDrops(s, q, pn, lim) ==
            s - Members(Below(q, lim.sn)) - Members(Unpayable(AtLeast(q, lim.sn), lim.balance, lim.maxGas))
            - Members(CappedOff(AfterReady(Fresh(q, lim), pn), lim))
  {
  }

  lemma ConsistentParts(pending: Lists, queue: Lists, s: set<Tx>, a: Address)
    requires Consistent(pending, queue, s)
    ensures WellListed(pending) && WellListed(queue) && Get(pending, a).Keys !! Get(queue, a).Keys
  {
  }

  lemma CapConsistent(pending: Lists, queue: Lists, s: set<Tx>, a: Address)
    requires Consistent(pending, queue, s) && a in pending && |pending[a]| >= 2
    ensures var l := pending[a];
            Consistent(pending[a := Lowest(l, |l| - 1)], queue, s - {l[MaxKey(l)]})
  {
    var l := pending[a];
    var r := Lowest(l, |l| - 1);
    var tx := l[MaxKey(l)];
    ListsOwned(pending, a);
    ListsOwned(queue, a);
    SetSelf(queue, a);
    CapKeeps(l);
    hide Lowest, MaxKey, WellListed;
    assert Get(pending, a).Keys !! Get(queue, a).Keys;
    forall t: Tx | t.sender == a
      ensures t in s - {tx} <==> InList(r, t) || InList(Get(queue, a), t)
    {
      assert t in s <==> Holds(pending, t) || Holds(queue, t);
    }
    AccountChange(pending, queue, s, a, r, Get(queue, a), s - {tx});
    assert r != map[];
  }

  lemma CapKeeps(l: Txs)
    requires |l| >= 2
    ensures Lowest(l, |l| - 1) == l - {MaxKey(l)}
  {
    RemoveSize(l, MaxKey(l));
  }

  function Max(x: int, y: int): int {
    if x < y then y else x
  }

  lemma QueuedOnly(pending: Lists, queue: Lists, s: set<Tx>, a: Address, n: nat)
    requires Consistent(pending, queue, s) && n in Get(queue, a)
    ensures a in queue && queue[a][n] in s && queue[a][n].sender == a && queue[a][n].nonce == n && n !in Get(pending, a)
  {
    var tx := queue[a][n];
    assert Get(pending, a).Keys !! Get(queue, a).Keys;
    assert Holds(queue, tx);
  }

  /** m is m0 with only the k lowest nonces of a left. */
  ghost predicate Trimmed(m0: Lists, a: Address, k: nat, m: Lists) {
    a in m0 && m == m0[a := Lowest(m0[a], k)]
  }

  lemma OthersStay(m: Lists, a: Address, l: Txs)
    ensures Set(m, a, l) - {a} == m - {a} && Get(Set(m, a, l), a) == l
  {
  }

  lemma TrimEnds(m: Lists, a: Address)
    requires a in m
    ensures Trimmed(m, a, |m[a]|, m)
  {
    hide Lowest;
    assert Lowest(m[a], |m[a]|) == m[a];
  }

  lemma TrimNext(m0: Lists, a: Address, k: nat, m: Lists)
    requires Trimmed(m0, a, k, m) && 1 < k <= |m0[a]|
    ensures a in m && m[a] != map[] && MaxKey(m[a]) in Get(m, a)
    ensures Trimmed(m0, a, k - 1, Set(m, a, Get(m, a) - {MaxKey(m[a])}))
    ensures a in Set(m, a, Get(m, a) - {MaxKey(m[a])})
  {
    hide Lowest, MaxKey;
    TrimOne(m0[a], k);
  }

  lemma TrimIs(m0: Lists, a: Address, k: nat, m: Lists)
    requires Trimmed(m0, a, k, m)
    ensures a in m0 && m == m0[a := Lowest(m0[a], k)]
  {
  }

  lemma TrimOne(list: Txs, k: nat)
    requires 0 < k <= |list|
    ensures |Lowest(list, k)| == k
    ensures Lowest(list, k) - {MaxKey(Lowest(list, k))} == Lowest(list, k - 1)
    ensures k > 1 ==> Lowest(list, k) - {MaxKey(Lowest(list, k))} != map[]
  {
    var l := Lowest(list, k);
    RemoveSize(l, MaxKey(l));
    LowestOfLowest(list, k, k - 1);
    assert Lowest(l - {MaxKey(l)}, k - 1) == l - {MaxKey(l)};
  }

  lemma DrainStart(m0: Lists, order: seq<Address>)
    ensures DrainedWhole(m0, order, |order|, m0)
  {
    assert order[|order|..] == [];
  }

  lemma DrainNext(m0: Lists, order: seq<Address>, k: nat, m: Lists)
    requires 0 < k <= |order| && Get(m, order[k - 1]) == Get(m0, order[k - 1]) && order[k - 1] in m0 && WellListed(m0)
    ensures order[k - 1] in m
  {
  }

  /** What truncateQueue leaves of m0: most recently active remote accounts are drained first, at
      most one is trimmed from the top, and the total ends exactly at the limit or at what the
      local accounts hold. */
  ghost predicate QueueCut(m0: Lists, locals: set<Address>, beats: map<Address, int>, limit: int,
                           order: seq<Address>, cut: nat, keep: nat, m: Lists)
  {
    && ByHeartbeat(m0, locals, beats, order) && cut <= |order|
    && DrainedFrom(m0, order, cut, keep, m) && (cut > 0 ==> keep > 0)
    && Total(m) == Max(limit, LocalTotal(m0, locals))
  }

  lemma CutDone(m0: Lists, locals: set<Address>, beats: map<Address, int>, limit: int,
                order: seq<Address>, cut: nat, keep: nat, m: Lists)
    requires WellListed(m0) && WellListed(m) && ByHeartbeat(m0, locals, beats, order) && cut <= |order|
    requires DrainedFrom(m0, order, cut, keep, m) && (cut > 0 ==> keep > 0)
    requires Total(m) == limit || (cut == 0 && Total(m) >= limit)
    ensures QueueCut(m0, locals, beats, limit, order, cut, keep, m)
    ensures Total(m) <= limit || m.Keys <= locals
    ensures forall a, n :: n in Get(m, a) ==> n in Get(m0, a)
  {
    hide Total, LocalTotal, DrainedFrom, ByHeartbeat;
    DrainKeepsLocals(m0, locals, beats, order, cut, keep, m);
    LocalsRemain(m0, locals, m);
    assert forall a :: a in m ==> Get(m, a) != map[];
  }

  lemma TrimmedLast(m0: Lists, locals: set<Address>, beats: map<Address, int>, order: seq<Address>, k: nat, m: Lists,
                    m': Lists, keep: nat)
    requires ByHeartbeat(m0, locals, beats, order) && 0 < k <= |order| && DrainedWhole(m0, order, k, m)
    requires order[k - 1] in m && m' == m[order[k - 1] := Lowest(m[order[k - 1]], keep)]
    ensures DrainedFrom(m0, order, k, keep, m')
  {
    hide Lowest, DrainedWhole, ByHeartbeat, DrainedFrom;
    TrimStep(m0, locals, beats, order, k, m, m', keep);
  }

  lemma KeepPositive(m0: Lists, locals: set<Address>, beats: map<Address, int>, order: seq<Address>, cut: nat)
    requires ByHeartbeat(m0, locals, beats, order) && cut <= |order| && WellListed(m0)
    ensures cut > 0 ==> order[cut - 1] in m0 && Get(m0, order[cut - 1]) != map[]
  {
    assert cut > 0 ==> order[cut - 1] in order;
  }

  lemma DrainKeepsLocals(m0: Lists, locals: set<Address>, beats: map<Address, int>, order: seq<Address>, cut: nat,
                         keep: nat, m: Lists)
    requires ByHeartbeat(m0, locals, beats, order) && cut <= |order| && DrainedFrom(m0, order, cut, keep, m)
    ensures forall a :: a in locals ==> Get(m, a) == Get(m0, a)
    ensures cut == 0 ==> forall a :: a !in locals ==> Get(m, a) == map[]
    ensures forall a, n :: n in Get(m, a) ==> n in Get(m0, a)
  {
    hide Lowest;
    forall a
      ensures a in locals ==> Get(m, a) == Get(m0, a)
      ensures cut == 0 && a !in locals ==> Get(m, a) == map[]
      ensures forall n :: n in Get(m, a) ==> n in Get(m0, a)
    {
      assert a in order <==> a in m0 && a !in locals;
      assert forall i :: 0 <= i < |order| ==> order[i] in order;
      assert order[0..] == order;
    }
  }

  lemma QueueShrinks(pending: Lists, queue: Lists, queue': Lists, noncer: map<Address, nat>, nonces: map<Address, nat>)
    requires Intervals(pending, queue, noncer, nonces)
    requires forall a, n :: n in Get(queue', a) ==> n in Get(queue, a)
    ensures Intervals(pending, queue', noncer, nonces)
  {
    forall a
      ensures AccountInterval(Get(pending, a), Get(queue', a), NonceOf(nonces, a), Virtual(noncer, nonces, a))
    {
      assert AccountInterval(Get(pending, a), Get(queue, a), NonceOf(nonces, a), Virtual(noncer, nonces, a));
    }
  }

  function Elements(txs: seq<Tx>): (s: set<Tx>) {
    set t | t in txs
  }

  lemma ElementsEmpty(txs: seq<Tx>)
    ensures Elements(txs[..0]) == {}
  {
  }

  lemma ElementsStep(txs: seq<Tx>, i: nat)
    requires i < |txs|
    ensures Elements(txs[..i + 1]) == Elements(txs[..i]) + {txs[i]}
  {
    assert txs[..i + 1] == txs[..i] + [txs[i]];
  }

  lemma {:induction false} ElementsSize(txs: seq<Tx>)
    ensures |Elements(txs)| <= |txs|
  {
    if txs == [] {
      assert Elements(txs) == {};
    } else {
      var k := |txs| - 1;
      ElementsSize(txs[..k]);
      ElementsStep(txs, k);
      assert txs[..k + 1] == txs;
    }
  }

  /** The transaction that tx pushes out. */
  function Displaced(p: Txs, q: Txs, tx: Tx): (s: set<Tx>) {
    if tx.nonce in p then {p[tx.nonce]} else if tx.nonce in q then {q[tx.nonce]} else {}
  }

  lemma DisplacedIs(p: Txs, q: Txs, tx: Tx)
    ensures Displaced(p, q, tx) == if tx.nonce in p then {p[tx.nonce]} else if tx.nonce in q then {q[tx.nonce]} else {}
  {
  }

  /** The first validation step that tx fails. */
  function InvalidWhy(tx: Tx, checks: Checks, env: Env): AddResult {
    if !checks.format then Malformed
    else if env.maxGas < tx.gas then GasLimit
    else if !checks.signed then InvalidSender
    else if NonceOf(env.nonces, tx.sender) > tx.nonce then NonceTooLow
    else if NonceOf(env.balances, tx.sender) < tx.cost then InsufficientFunds
    else if !checks.intrinsic then IntrinsicGas
    else Accepted
  }

  lemma InvalidKinds(tx: Tx, checks: Checks, env: Env)
    ensures InvalidWhy(tx, checks, env) !in {AlreadyKnown, Underpriced, Overflow, ReplaceUnderpriced}
    ensures InvalidWhy(tx, checks, env) == Accepted ==>
              NonceOf(env.nonces, tx.sender) <= tx.nonce && Affordable(tx, NonceOf(env.balances, tx.sender), env.maxGas)
  {
  }

  lemma PlaceConsistent(pending: Lists, queue: Lists, s: set<Tx>, tx: Tx)
    requires Consistent(pending, queue, s) && tx !in s
    ensures var a := tx.sender;
            var p, q := Get(pending, a), Get(queue, a);
            if tx.nonce in p then Consistent(pending[a := With(p, tx)], queue, s - {p[tx.nonce]} + {tx})
            else Consistent(pending, queue[a := With(q, tx)], s - (if tx.nonce in q then {q[tx.nonce]} else {}) + {tx})
  {
    hide Consistent;
    if tx.nonce in Get(pending, tx.sender) {
      PlacePending(pending, queue, s, tx);
    } else {
      PlaceQueued(pending, queue, s, tx);
    }
  }

  lemma PlacePending(pending: Lists, queue: Lists, s: set<Tx>, tx: Tx)
    requires Consistent(pending, queue, s) && tx !in s && tx.nonce in Get(pending, tx.sender)
    ensures var p := Get(pending, tx.sender);
            Consistent(pending[tx.sender := With(p, tx)], queue, s - {p[tx.nonce]} + {tx})
  {
    var a := tx.sender;
    var p, q := Get(pending, a), Get(queue, a);
    ListsOwned(pending, a);
    ListsOwned(queue, a);
    SetSelf(queue, a);
    hide WellListed, Set;
    assert p.Keys !! q.Keys;
    var s' := s - {p[tx.nonce]} + {tx};
    forall t: Tx | t.sender == a ensures t in s' <==> InList(With(p, tx), t) || InList(q, t) {
      assert t in s <==> Holds(pending, t) || Holds(queue, t);
    }
    AccountChange(pending, queue, s, a, With(p, tx), q, s');
    SetNonempty(pending, a, With(p, tx), tx.nonce);
  }

  lemma PlaceQueued(pending: Lists, queue: Lists, s: set<Tx>, tx: Tx)
    requires Consistent(pending, queue, s) && tx !in s && tx.nonce !in Get(pending, tx.sender)
    ensures var q := Get(queue, tx.sender);
            Consistent(pending, queue[tx.sender := With(q, tx)],
                       s - (if tx.nonce in q then {q[tx.nonce]} else {}) + {tx})
  {
    var a := tx.sender;
    var p, q := Get(pending, a), Get(queue, a);
    ListsOwned(pending, a);
    ListsOwned(queue, a);
    SetSelf(pending, a);
    hide WellListed, Set;
    assert p.Keys !! q.Keys;
    var s' := s - (if tx.nonce in q then {q[tx.nonce]} else {}) + {tx};
    forall t: Tx | t.sender == a ensures t in s' <==> InList(p, t) || InList(With(q, tx), t) {
      assert t in s <==> Holds(pending, t) || Holds(queue, t);
    }
    AccountChange(pending, queue, s, a, p, With(q, tx), s');
    SetNonempty(queue, a, With(q, tx), tx.nonce);
  }

  lemma SetNonempty(m: Lists, a: Address, l: Txs, n: nat)
    requires n in l
    ensures Set(m, a, l) == m[a := l]
  {
  }

  /** What adding transactions keeps: intervals, payable lists, and pending parts that are at most
      cut. */
  ghost predicate Kept(nonces: map<Address, nat>, balances: map<Address, nat>, maxGas: nat, v0: View, v: View) {
    && (Intervals(v0.pending, v0.queue, v0.noncer, nonces) ==> Intervals(v.pending, v.queue, v.noncer, nonces))
    && (Payables(v0.pending, balances, maxGas) ==> Payables(v.pending, balances, maxGas))
    && AllCut(nonces, v0, v)
  }

  lemma KeptSame(nonces: map<Address, nat>, balances: map<Address, nat>, maxGas: nat, v: View)
    ensures Kept(nonces, balances, maxGas, v, v)
  {
  }

  lemma KeptMeans(nonces: map<Address, nat>, balances: map<Address, nat>, maxGas: nat, v0: View, v: View)
    requires Kept(nonces, balances, maxGas, v0, v)
    ensures Intervals(v0.pending, v0.queue, v0.noncer, nonces) ==> Intervals(v.pending, v.queue, v.noncer, nonces)
    ensures Payables(v0.pending, balances, maxGas) ==> Payables(v.pending, balances, maxGas)
    ensures AllCut(nonces, v0, v)
  {
  }

  lemma KeptTwice(nonces: map<Address, nat>, balances: map<Address, nat>, maxGas: nat, v0: View, v1: View, v2: View)
    requires Kept(nonces, balances, maxGas, v0, v1) && Kept(nonces, balances, maxGas, v1, v2)
    ensures Kept(nonces, balances, maxGas, v0, v2)
  {
    hide Intervals, Payables, AllCut;
    AllCutTwice(nonces, v0, v1, v2);
  }

  lemma RemovalKeeps(nonces: map<Address, nat>, balances: map<Address, nat>, maxGas: nat, v: View, s: set<Tx>, tx: Tx)
    requires Consistent(v.pending, v.queue, s)
    ensures Kept(nonces, balances, maxGas, v, v)
    ensures tx in s ==>
              Kept(nonces, balances, maxGas, v,
                   View(PendingWithout(v.pending, tx), QueueWithout(v.pending, v.queue, tx),
                        if tx.nonce in Get(v.pending, tx.sender) then LowerNonce(v.noncer, nonces, tx.sender, tx.nonce)
                        else v.noncer))
  {
    hide Intervals, Payables, AllCut, Consistent, PendingWithout, QueueWithout, LowerNonce, Get;
    KeptSame(nonces, balances, maxGas, v);
    RemovalCuts(nonces, v.pending, v.queue, v.noncer, tx);
    RemovalWithin(v.pending, tx);
    if Payables(v.pending, balances, maxGas) {
      PayablesWithin(PendingWithout(v.pending, tx), v.pending, balances, maxGas);
    }
    if tx in s && Intervals(v.pending, v.queue, v.noncer, nonces) {
      RemoveIntervals(v.pending, v.queue, v.noncer, nonces, s, tx,
                      if tx.nonce in Get(v.pending, tx.sender) then LowerNonce(v.noncer, nonces, tx.sender, tx.nonce)
                      else v.noncer);
    }
  }

  lemma PlaceKeeps(nonces: map<Address, nat>, balances: map<Address, nat>, maxGas: nat, v: View, tx: Tx)
    requires NonceOf(nonces, tx.sender) <= tx.nonce && Affordable(tx, NonceOf(balances, tx.sender), maxGas)
    ensures var p, q := Get(v.pending, tx.sender), Get(v.queue, tx.sender);
            if tx.nonce in p then Kept(nonces, balances, maxGas, v, v.(pending := v.pending[tx.sender := With(p, tx)]))
            else Kept(nonces, balances, maxGas, v, v.(queue := v.queue[tx.sender := With(q, tx)]))
  {
    hide Intervals, Payables;
    PlacePays(v.pending, balances, maxGas, tx);
    PlaceIntervals(v.pending, v.queue, v.noncer, nonces, tx);
  }

  lemma PlacePays(pending: Lists, balances: map<Address, nat>, maxGas: nat, tx: Tx)
    requires Affordable(tx, NonceOf(balances, tx.sender), maxGas)
    ensures Payables(pending, balances, maxGas) ==>
              Payables(pending[tx.sender := With(Get(pending, tx.sender), tx)], balances, maxGas)
  {
    if Payables(pending, balances, maxGas) {
      var a, m := tx.sender, pending[tx.sender := With(Get(pending, tx.sender), tx)];
      forall b ensures PayableList(Get(m, b), NonceOf(balances, b), maxGas) {
        assert PayableList(Get(pending, b), NonceOf(balances, b), maxGas);
      }
    }
  }

  lemma PlaceIntervals(pending: Lists, queue: Lists, noncer: map<Address, nat>, nonces: map<Address, nat>, tx: Tx)
    requires NonceOf(nonces, tx.sender) <= tx.nonce
    ensures var a := tx.sender;
            var p, q := Get(pending, a), Get(queue, a);
            Intervals(pending, queue, noncer, nonces) ==>
              if tx.nonce in p then Intervals(pending[a := With(p, tx)], queue, noncer, nonces)
              else Intervals(pending, queue[a := With(q, tx)], noncer, nonces)
  {
    if Intervals(pending, queue, noncer, nonces) {
      var a := tx.sender;
      var p, q := Get(pending, a), Get(queue, a);
      assert AccountInterval(p, q, NonceOf(nonces, a), Virtual(noncer, nonces, a));
      var pending' := if tx.nonce in p then pending[a := With(p, tx)] else pending;
      var queue' := if tx.nonce in p then queue else queue[a := With(q, tx)];
      forall b
        ensures AccountInterval(Get(pending', b), Get(queue', b), NonceOf(nonces, b), Virtual(noncer, nonces, b))
      {
        assert AccountInterval(Get(pending, b), Get(queue, b), NonceOf(nonces, b), Virtual(noncer, nonces, b));
      }
    }
  }

  lemma VirtualSet(noncer: map<Address, nat>, nonces: map<Address, nat>, a: Address, n: nat)
    ensures forall b: Address :: Virtual(noncer[a := n], nonces, b) == if b == a then n else Virtual(noncer, nonces, b)
  {
    var r := noncer[a := n];
    forall b: Address
      ensures Virtual(r, nonces, b) == if b == a then n else Virtual(noncer, nonces, b)
    {
      assert b in r <==> b == a || b in noncer;
    }
  }

  lemma WaterLevelAbove(m0: Lists, locals: set<Address>, guarantee: nat, limit: nat, level: nat)
    requires WaterLevel(m0, locals, guarantee, limit, level)
    ensures guarantee <= level
  {
  }

  lemma NoncesAre(nonces: map<Address, nat>, pending: Lists, noncer: map<Address, nat>, noncer': map<Address, nat>)
    requires NoncesUpdated(nonces, pending, noncer, noncer') && WellListed(pending)
    ensures forall a :: a in pending ==> Virtual(noncer', nonces, a) == MaxKey(pending[a]) + 1
  {
  }

  lemma OthersKeepNonces(nonces: map<Address, nat>, pending0: Lists, pending: Lists, noncer: map<Address, nat>,
                         noncer': map<Address, nat>)
    requires NoncesUpdated(nonces, pending, noncer, noncer') && Within(pending, pending0)
    ensures forall a :: a !in pending0 ==> Virtual(noncer', nonces, a) == Virtual(noncer, nonces, a)
  {
    hide Virtual, MaxKey;
    forall a | a !in pending0 ensures Get(pending, a) == map[] {
      assert forall n :: n in Get(pending, a) ==> n in Get(pending0, a);
    }
  }

  /** The virtual nonces and, from settled accounts, the intervals after truncation. */
  lemma NoncesSettle(config: Config, env: Env, v: View, level: nat, pending: Lists, queue: Lists,
                     noncer: map<Address, nat>, noncer': map<Address, nat>)
    requires WellListed(v.pending) && WellListed(pending) && Within(pending, v.pending)
    requires Total(v.pending) <= config.globalSlots ==> pending == v.pending
    requires Total(v.pending) > config.globalSlots ==> AtLevel(v.pending, env.locals, level, pending) && level >= 1
    requires forall a, n :: n in Get(queue, a) ==> n in Get(v.queue, a)
    requires forall a :: a !in v.pending ==> Virtual(noncer, env.nonces, a) == Virtual(v.noncer, env.nonces, a)
    requires NoncesUpdated(env.nonces, pending, noncer, noncer')
    ensures forall a :: a in pending ==> pending[a] != map[]
                                         && Virtual(noncer', env.nonces, a) == MaxKey(pending[a]) + 1
    ensures forall a :: a !in v.pending ==> Virtual(noncer', env.nonces, a) == Virtual(v.noncer, env.nonces, a)
    ensures Settled(env, v) ==> Intervals(pending, queue, noncer', env.nonces)
  {
    NoncesAre(env.nonces, pending, noncer, noncer');
    OthersKeepNonces(env.nonces, v.pending, pending, noncer, noncer');
    hide Intervals, Settled, AtLevel, Total, NoncesUpdated, MaxKey, Virtual, Within, Get;
    if Settled(env, v) {
      TruncationIntervals(env, v, pending, queue, noncer, noncer', env.locals,
                          if Total(v.pending) > config.globalSlots then level else 1);
    }
  }

  lemma ElementsNone()
    ensures Elements([]) == {}
  {
  }

  /** Every pooled transaction takes at least one slot. */
  lemma {:induction false} EnoughSlots(s: set<Tx>)
    requires forall t :: t in s ==> t.size > 0
    ensures SumSlots(s) >= |s|
  {
    if s != {} {
      var t :| t in s;
      SetSum.SumRemove(s, SlotsOf, t);
      EnoughSlots(s - {t});
    }
  }

  /** If the slots cannot be covered from the heap, all remotes together do not cover them. */
  lemma CoverableRemotes(heap: seq<Tx>, stales: int, remotes: set<Tx>, slots: int)
    requires HeapSound(heap, stales, remotes, 0)
    ensures SumSlots(remotes) >= slots ==> Coverable(heap, remotes, slots)
  {
    var txs := Enumeration(remotes);
    assert LivePart(txs, heap, remotes) by {
      forall t | t in multiset(txs)
        ensures multiset(txs)[t] <= multiset(heap)[t] && t in remotes
      {
        assert t in txs;
      }
    }
    DistinctSlots(txs);
    assert (set t | t in txs) == remotes;
  }

  lemma {:induction false} Enumeration(s: set<Tx>) returns (txs: seq<Tx>)
    ensures NoDuplicates(txs) && forall t :: t in txs <==> t in s
  {
    if s == {} {
      txs := [];
    } else {
      var t :| t in s;
      var rest := Enumeration(s - {t});
      txs := rest + [t];
      assert t !in rest;
      assert multiset(rest)[t] == 0;
    }
  }

  /** The part of the pool that admission depends on. */
  datatype Sight = Sight(all: set<Tx>, remotes: set<Tx>, locals: set<Address>, heap: seq<Tx>)

  datatype Answer = Answer(err: AddResult, replaced: bool, dropped: seq<Tx>)

  /** The pool is full and no remote transaction is cheaper than the remote newcomer. */
  ghost predicate IsUnderpriced(config: Config, b: Sight, tx: Tx, isLocal: bool) {
    && Full(b.all, tx, config) && !isLocal && b.remotes != {}
    && forall t :: t in b.remotes ==> t.gasPrice >= tx.gasPrice
  }

  /** The pool is full and the live entries of the price heap do not free the slots a remote newcomer
      needs. */
  ghost predicate IsOverflow(config: Config, b: Sight, tx: Tx, isLocal: bool) {
    && Full(b.all, tx, config) && !isLocal && !IsUnderpriced(config, b, tx, isLocal)
    && !Coverable(b.heap, b.remotes, SlotsNeeded(b.all, tx, config))
  }

  /** No live transaction is in the heap twice. */
  ghost predicate SingleLive(heap: seq<Tx>, remotes: set<Tx>) {
    forall t :: t in remotes ==> multiset(heap)[t] <= 1
  }

  /** t has the newcomer's account and nonce and was not evicted for it. */
  ghost predicate Standing(s: set<Tx>, dropped: seq<Tx>, tx: Tx, t: Tx) {
    t in s && t !in dropped && t.sender == tx.sender && t.nonce == tx.nonce
  }

  /** That is the account's pending or queued transaction of the nonce. */
  ghost predicate StandsAt(s: set<Tx>, dropped: seq<Tx>, tx: Tx, p: Txs, q: Txs) {
    && (forall t ::
          Standing(s, dropped, tx, t) <==>
          (tx.nonce in p && t == p[tx.nonce]) || (tx.nonce !in p && tx.nonce in q && t == q[tx.nonce]))
    && (forall t :: t in Displaced(p, q, tx) <==> Standing(s, dropped, tx, t))
  }

  /** For a remote newcomer the entries dropped cover the slots, and without duplicate entries the
      transactions dropped do. */
  ghost predicate FreesSlots(heap: seq<Tx>, remotes: set<Tx>, isLocal: bool, drop: seq<Tx>, slots: int) {
    !isLocal ==> SeqSlots(drop) >= slots && (SingleLive(heap, remotes) ==> SumSlots(Elements(drop)) >= slots)
  }

  /** What is evicted for a newcomer: nothing unless the pool is full; then the worst remotes, and for
      a remote newcomer enough of them that, short of duplicate heap entries, the pool with it is
      within its slots. */
  ghost predicate Evicts(config: Config, b: Sight, tx: Tx, isLocal: bool, err: AddResult, dropped: seq<Tx>) {
    && (!Full(b.all, tx, config) || err in {Underpriced, Overflow} ==> dropped == [])
    && (Full(b.all, tx, config) && err !in {Underpriced, Overflow} ==>
          && CheapestEvicted(b.remotes, dropped, SlotsNeeded(b.all, tx, config))
          && (!isLocal && SingleLive(b.heap, b.remotes) ==>
                SumSlots(b.all - Elements(dropped)) + NumSlots(tx) <= config.globalSlots + config.globalQueue))
    && Elements(dropped) <= b.remotes
    && (dropped == [] <==> !Full(b.all, tx, config) || b.remotes == {} || err in {Underpriced, Overflow})
  }

  /** The answer to a submission, given what was evicted for it. */
  ghost function Verdict(config: Config, env: Env, b: Sight, sub: Submission, local: bool,
                         dropped: seq<Tx>): AddResult {
    var isLocal := local || sub.tx.sender in b.locals;
    if sub.tx in b.all then AlreadyKnown
    else if InvalidWhy(sub.tx, sub.checks, env) != Accepted then InvalidWhy(sub.tx, sub.checks, env)
    else if IsUnderpriced(config, b, sub.tx, isLocal) then Underpriced
    else if IsOverflow(config, b, sub.tx, isLocal) then Overflow
    else if exists t :: Standing(b.all, dropped, sub.tx, t) && !Outbids(sub.tx, t, config.priceBump)
    then ReplaceUnderpriced
    else Accepted
  }

  /** One submission: the answer has exactly its cause, and the lookup changes by the newcomer, what
      stood at its slot, and what was evicted, in that a refusal for the price bump keeps the
      eviction. */
  ghost predicate AddRight(config: Config, env: Env, b: Sight, sub: Submission, local: bool, a: Answer, c: Sight) {
    var tx, isLocal := sub.tx, local || sub.tx.sender in b.locals;
    && a.err == Verdict(config, env, b, sub, local, a.dropped)
    && (a.replaced <==> a.err == Accepted && exists t :: Standing(b.all, a.dropped, tx, t))
    && (a.err !in {Accepted, ReplaceUnderpriced} ==> a.dropped == [] && c.all == b.all)
    && (a.err in {Accepted, ReplaceUnderpriced} ==> Evicts(config, b, tx, isLocal, Accepted, a.dropped))
    && (a.err == ReplaceUnderpriced ==>
          && c.all == b.all - Elements(a.dropped)
          && (c.all == b.all <==> !Full(b.all, tx, config) || b.remotes == {}))
    && (a.err == Accepted ==>
          && (forall t :: t in c.all <==> t == tx
                                          || (t in b.all && t !in a.dropped && !Standing(b.all, a.dropped, tx, t)))
          && (tx in c.remotes <==> !isLocal))
    && (a.err == Accepted && local && !a.replaced ==> tx.sender in c.locals)
    && (c.locals == b.locals || (a.err == Accepted && local && c.locals == b.locals + {tx.sender}))
    && RemotesRight(b, tx, isLocal, a, c)
  }

  /** The same for the remote part and the price heap: a refusal leaves both as they were, short of
      stale heap entries; otherwise the evicted and the replaced leave, a newly local account's
      transactions move over, and a remote newcomer enters.  Every remote has its heap entry, and
      no entry is new but the newcomer's. */
  ghost predicate RemotesRight(b: Sight, tx: Tx, isLocal: bool, a: Answer, c: Sight) {
    && (a.err !in {Accepted, ReplaceUnderpriced} ==> c.remotes == b.remotes && SameLive(c.heap, b.heap, b.remotes))
    && (a.err == ReplaceUnderpriced ==> c.remotes == b.remotes - Elements(a.dropped))
    && (a.err == Accepted ==>
          forall t :: t in c.remotes <==>
                      || (t == tx && !isLocal)
                      || (t in b.remotes && t !in a.dropped && !Standing(b.all, a.dropped, tx, t)
                          && (c.locals == b.locals || t.sender !in c.locals)))
    && Covers(c.heap, c.remotes)
    && EntriesFrom(c.heap, b.heap, if a.err == Accepted && !isLocal then multiset{tx} else multiset{})
  }

  /** The same for the lists and heartbeats. */
  ghost predicate ListsRight(nonces: map<Address, nat>, l: Ledger, tx: Tx, a: Answer, now: int, l': Ledger) {
    if a.err !in {Accepted, ReplaceUnderpriced} then l' == l
    else
      var left := EvictedAll(nonces, l, a.dropped, now);
      l' == if a.err == Accepted then Placed(left, tx, now) else left
  }

  lemma ListsRefused(nonces: map<Address, nat>, l: Ledger, tx: Tx, a: Answer, now: int)
    requires a.err !in {Accepted, ReplaceUnderpriced}
    ensures ListsRight(nonces, l, tx, a, now, l)
  {
  }

  lemma ListsJudged(nonces: map<Address, nat>, l: Ledger, tx: Tx, dropped: seq<Tx>, ok: bool, replaced: bool, now: int,
                    l': Ledger)
    requires var left := EvictedAll(nonces, l, dropped, now); l' == if ok then Placed(left, tx, now) else left
    ensures ListsRight(nonces, l, tx, Answer(if ok then Accepted else ReplaceUnderpriced, replaced, dropped), now, l')
  {
  }

  /** One submission in terms of prices, nonces, gas, cost and counts only. */
  ghost predicate AddLaw(config: Config, env: Env, b: Sight, sub: Submission, local: bool, a: Answer) {
    && (sub.tx in b.all ==> a.err == AlreadyKnown)
    && (sub.tx !in b.all ==> RefusalLaw(env, sub, a.err))
    && RoomLaw(config, b, sub.tx, local, a)
    && PriceLaw(config, b, sub.tx, a)
  }

  /** Each refusal of validation has exactly its cause, the earlier checks being passed. */
  ghost predicate RefusalLaw(env: Env, sub: Submission, err: AddResult) {
    var tx, checks := sub.tx, sub.checks;
    var sn, balance := NonceOf(env.nonces, tx.sender), NonceOf(env.balances, tx.sender);
    && (err == Malformed <==> !checks.format)
    && (err == GasLimit <==> checks.format && tx.gas > env.maxGas)
    && (err == InvalidSender <==> checks.format && tx.gas <= env.maxGas && !checks.signed)
    && (err == NonceTooLow <==> checks.format && tx.gas <= env.maxGas && checks.signed && tx.nonce < sn)
    && (err == InsufficientFunds <==> checks.format && tx.gas <= env.maxGas && checks.signed && tx.nonce >= sn
                                      && tx.cost > balance)
    && (err == IntrinsicGas <==> checks.format && tx.gas <= env.maxGas && checks.signed && tx.nonce >= sn
                                 && tx.cost <= balance && !checks.intrinsic)
  }

  /** When the pool counts as full, what is refused then, and which others are evicted: in which
      order, no more than the slots in excess take, and enough for them unless no remote is left. */
  ghost predicate RoomLaw(config: Config, b: Sight, tx: Tx, local: bool, a: Answer) {
    var full := |b.all| + NumSlots(tx) > config.globalSlots + config.globalQueue;
    var remote := !local && tx.sender !in b.locals;
    var cheap := b.remotes != {} && forall t :: t in b.remotes ==> t.gasPrice >= tx.gasPrice;
    && (a.err == Underpriced ==> full && remote && cheap)
    && (a.err in {Accepted, Overflow, ReplaceUnderpriced} ==> !(full && remote && cheap))
    && (a.err == Overflow ==> full && remote)
    && (a.dropped != [] ==> full && a.err in {Accepted, ReplaceUnderpriced})
    && (forall t :: t in a.dropped ==> t in b.remotes)
    && var excess := SumSlots(b.all) + NumSlots(tx) - (config.globalSlots + config.globalQueue);
    && (a.dropped != [] ==> SeqSlots(a.dropped[..|a.dropped| - 1]) < excess)
    && (full && a.err in {Accepted, ReplaceUnderpriced} ==>
          SeqSlots(a.dropped) >= excess || forall u :: u in b.remotes ==> u in a.dropped)
    && forall t, u :: t in a.dropped && u in b.remotes && u !in a.dropped ==>
                        t.gasPrice < u.gasPrice || (t.gasPrice == u.gasPrice && t.nonce >= u.nonce)
  }

  /** An accepted replacement raises the price, and by the bump short of less than one; a replacement
      refused for its price does not. */
  ghost predicate PriceLaw(config: Config, b: Sight, tx: Tx, a: Answer) {
    && (a.err == Accepted ==>
          forall t :: t in b.all && t !in a.dropped && t.sender == tx.sender && t.nonce == tx.nonce ==>
                        tx.gasPrice > t.gasPrice && 100 * tx.gasPrice > (100 + config.priceBump) * t.gasPrice - 100)
    && (a.err == ReplaceUnderpriced ==>
          exists t :: t in b.all && t !in a.dropped && t.sender == tx.sender && t.nonce == tx.nonce
                      && !(tx.gasPrice > t.gasPrice
                           && 100 * tx.gasPrice > (100 + config.priceBump) * t.gasPrice - 100))
  }

  lemma BidsMean(p: Txs, q: Txs, tx: Tx, priceBump: nat)
    ensures tx.nonce in p ==>
              (Outbids(tx, p[tx.nonce], priceBump) <==>
               tx.gasPrice > p[tx.nonce].gasPrice
               && 100 * tx.gasPrice > (100 + priceBump) * p[tx.nonce].gasPrice - 100)
    ensures tx.nonce in q ==>
              (Outbids(tx, q[tx.nonce], priceBump) <==>
               tx.gasPrice > q[tx.nonce].gasPrice
               && 100 * tx.gasPrice > (100 + priceBump) * q[tx.nonce].gasPrice - 100)
  {
    if tx.nonce in p {
      OutbidsMeans(tx, p[tx.nonce], priceBump);
    }
    if tx.nonce in q {
      OutbidsMeans(tx, q[tx.nonce], priceBump);
    }
  }

  lemma AddObeys(config: Config, env: Env, b: Sight, sub: Submission, local: bool, a: Answer, c: Sight)
    requires AddRight(config, env, b, sub, local, a, c)
    ensures AddLaw(config, env, b, sub, local, a)
  {
    hide AddRight, RefusalLaw, RoomLaw, PriceLaw;
    RefusalsMean(config, env, b, sub, local, a, c);
    RoomMeans(config, env, b, sub, local, a, c);
    PricesMean(config, env, b, sub, local, a, c);
  }

  lemma RefusalsMean(config: Config, env: Env, b: Sight, sub: Submission, local: bool, a: Answer, c: Sight)
    requires AddRight(config, env, b, sub, local, a, c)
    ensures sub.tx in b.all ==> a.err == AlreadyKnown
    ensures sub.tx !in b.all ==> RefusalLaw(env, sub, a.err)
  {
    hide RemotesRight, Evicts, IsUnderpriced, IsOverflow, Outbids, Standing, NonceOf;
  }

  lemma RoomMeans(config: Config, env: Env, b: Sight, sub: Submission, local: bool, a: Answer, c: Sight)
    requires AddRight(config, env, b, sub, local, a, c)
    ensures RoomLaw(config, b, sub.tx, local, a)
  {
    hide RemotesRight, Outbids, Standing, NumSlots, SumSlots, Coverable, SeqSlots, SingleLive;
    InvalidKinds(sub.tx, sub.checks, env);
    hide InvalidWhy;
  }

  lemma PricesMean(config: Config, env: Env, b: Sight, sub: Submission, local: bool, a: Answer, c: Sight)
    requires AddRight(config, env, b, sub, local, a, c)
    ensures PriceLaw(config, b, sub.tx, a)
  {
    hide RemotesRight, Evicts, IsUnderpriced, IsOverflow, Outbids;
    InvalidKinds(sub.tx, sub.checks, env);
    hide InvalidWhy;
    forall t | Standing(b.all, a.dropped, sub.tx, t)
      ensures Outbids(sub.tx, t, config.priceBump) <==>
              sub.tx.gasPrice > t.gasPrice
              && 100 * sub.tx.gasPrice > (100 + config.priceBump) * t.gasPrice - 100
    {
      OutbidsMeans(sub.tx, t, config.priceBump);
    }
  }

  /** Without duplicate entries there are none afterwards, unless the newcomer has a stale one. */
  lemma StaysSingle(b: Sight, tx: Tx, isLocal: bool, a: Answer, c: Sight)
    requires RemotesRight(b, tx, isLocal, a, c) && SingleLive(b.heap, b.remotes)
    requires a.err == Accepted && !isLocal ==> tx !in multiset(b.heap)
    ensures SingleLive(c.heap, c.remotes)
  {
    hide Standing;
    forall t | t in c.remotes ensures multiset(c.heap)[t] <= 1 {
      assert multiset(c.heap)[t] <= (multiset(b.heap) + if a.err == Accepted && !isLocal then multiset{tx}
                                                        else multiset{})[t];
    }
  }

  /** A refusal before the eviction changes no later answer. */
  lemma RefusalIsInert(config: Config, env: Env, b: Sight, sub: Submission, local: bool, a: Answer, c: Sight,
                       later: Submission, laterLocal: bool, dropped: seq<Tx>)
    requires AddRight(config, env, b, sub, local, a, c) && a.err !in {Accepted, ReplaceUnderpriced}
    ensures Verdict(config, env, c, later, laterLocal, dropped) == Verdict(config, env, b, later, laterLocal, dropped)
  {
    hide Verdict, Evicts, Full, Coverable, SameLive, SumSlots, EntriesFrom, Covers;
    assert c.all == b.all && c.remotes == b.remotes && c.locals == b.locals && SameLive(c.heap, b.heap, b.remotes);
    SameVerdict(config, env, b, c, later, laterLocal, dropped);
  }

  lemma SameVerdict(config: Config, env: Env, b: Sight, c: Sight, sub: Submission, local: bool, dropped: seq<Tx>)
    requires c.all == b.all && c.remotes == b.remotes && c.locals == b.locals && SameLive(c.heap, b.heap, b.remotes)
    ensures Verdict(config, env, c, sub, local, dropped) == Verdict(config, env, b, sub, local, dropped)
  {
    hide Full, Coverable, SameLive, Outbids, InvalidWhy, Standing;
    LiveSame(c.heap, b.heap, b.remotes, SlotsNeeded(b.all, sub.tx, config));
  }

  /** The remotes after a newcomer was placed. */
  function RemotesWith(remotes: set<Tx>, gone: set<Tx>, tx: Tx, isLocal: bool, locals0: set<Address>,
                       locals: set<Address>): set<Tx> {
    (set t | t in remotes && t !in gone && (locals == locals0 || t.sender !in locals)) + if isLocal then {} else {tx}
  }

  lemma HeapSame(heap: seq<Tx>, remotes: set<Tx>)
    ensures SameLive(heap, heap, remotes) && EntriesFrom(heap, heap, multiset{})
  {
  }

  lemma EntriesSame(heap: seq<Tx>)
    ensures EntriesFrom(heap, heap, multiset{})
  {
  }

  lemma HeapCovers(heap: seq<Tx>, stales: int, remotes: set<Tx>)
    requires HeapSound(heap, stales, remotes, 0)
    ensures Covers(heap, remotes)
  {
  }

  lemma EntriesOver(h0: seq<Tx>, h1: seq<Tx>, h2: seq<Tx>, m1: multiset<Tx>, m2: multiset<Tx>)
    requires EntriesFrom(h1, h0, m1) && EntriesFrom(h2, h1, m2) && (m1 == multiset{} || m2 == multiset{})
    ensures EntriesFrom(h2, h0, if m1 == multiset{} then m2 else m1)
  {
  }

  /** What admission leaves: the verdict, and the pool without the evicted. */
  ghost predicate Admitted(config: Config, b: Sight, tx: Tx, isLocal: bool, err: AddResult, dropped: seq<Tx>,
                           c: Sight) {
    && err == (if IsUnderpriced(config, b, tx, isLocal) then Underpriced
               else if IsOverflow(config, b, tx, isLocal) then Overflow else Accepted)
    && Evicts(config, b, tx, isLocal, err, dropped)
    && c.all == b.all - Elements(dropped) && c.remotes == b.remotes - Elements(dropped) && c.locals == b.locals
    && EntriesFrom(c.heap, b.heap, multiset{})
    && (err != Accepted ==> SameLive(c.heap, b.heap, b.remotes))
  }

  lemma RoomLeft(config: Config, b: Sight, tx: Tx, isLocal: bool)
    requires !Full(b.all, tx, config)
    ensures Admitted(config, b, tx, isLocal, Accepted, [], b)
  {
    hide Full, SumSlots, CheapestEvicted, Coverable;
    ElementsNone();
  }

  lemma TooCheap(config: Config, b: Sight, tx: Tx, c: Sight)
    requires Full(b.all, tx, config) && b.remotes != {} && forall t :: t in b.remotes ==> t.gasPrice >= tx.gasPrice
    requires c.all == b.all && c.remotes == b.remotes && c.locals == b.locals
             && SameLive(c.heap, b.heap, b.remotes) && EntriesFrom(c.heap, b.heap, multiset{})
    ensures Admitted(config, b, tx, false, Underpriced, [], c)
  {
    hide Full, SumSlots, CheapestEvicted, Coverable, EntriesFrom, SameLive;
    ElementsNone();
  }

  lemma AdmittedBy(config: Config, b: Sight, m: Sight, tx: Tx, isLocal: bool, ok: bool, dropped: seq<Tx>, c: Sight)
    requires Full(b.all, tx, config) && SlotsNeeded(b.all, tx, config) > 0 && b.remotes <= b.all
    requires !isLocal ==> !(b.remotes != {} && forall t :: t in b.remotes ==> t.gasPrice >= tx.gasPrice)
    requires m.all == b.all && m.remotes == b.remotes && m.locals == b.locals
             && SameLive(m.heap, b.heap, b.remotes) && EntriesFrom(m.heap, b.heap, multiset{})
    requires ok <==> isLocal || Coverable(m.heap, m.remotes, SlotsNeeded(b.all, tx, config))
    requires ok ==> CheapestEvicted(b.remotes, dropped, SlotsNeeded(b.all, tx, config))
                    && FreesSlots(m.heap, b.remotes, isLocal, dropped, SlotsNeeded(b.all, tx, config))
    requires !ok ==> dropped == [] && SameLive(c.heap, m.heap, b.remotes)
    requires c.all == m.all - Elements(dropped) && c.remotes == m.remotes - Elements(dropped) && c.locals == m.locals
             && EntriesFrom(c.heap, m.heap, multiset{})
    ensures Admitted(config, b, tx, isLocal, if ok then Accepted else Overflow, dropped, c)
  {
    hide Full, SumSlots, NumSlots, CheapestEvicted, Coverable, EntriesFrom, FreesSlots, SingleLive, Evicts;
    LiveSame(m.heap, b.heap, b.remotes, SlotsNeeded(b.all, tx, config));
    EntriesOver(b.heap, m.heap, c.heap, multiset{}, multiset{});
    if ok {
      FreedRoom(b, tx, config, isLocal, m.heap, dropped);
    } else {
      EvictsNothing(config, b, tx, isLocal);
    }
  }

  lemma EvictsNothing(config: Config, b: Sight, tx: Tx, isLocal: bool)
    ensures Evicts(config, b, tx, isLocal, Overflow, [])
  {
    hide Full, SumSlots, CheapestEvicted;
    ElementsNone();
  }

  /** The evicted transactions are the worst remotes, the fewest in that order that free the slots,
      or all remotes if even those do not. */
  ghost predicate CheapestEvicted(remotes: set<Tx>, drop: seq<Tx>, slots: int) {
    && (forall t :: t in drop ==> t in remotes)
    && (forall t, u :: t in drop && u in remotes && u !in drop ==> !Worse(u, t))
    && (drop != [] ==> SeqSlots(drop[..|drop| - 1]) < slots)
    && (SeqSlots(drop) >= slots || forall u :: u in remotes ==> u in drop)
  }

  lemma EvictsCheapest(heap0: seq<Tx>, heap: seq<Tx>, stales0: int, remotes: set<Tx>, drop: seq<Tx>, slots: int)
    requires HeapSound(heap0, stales0, remotes, 0) && PoppedPart(heap0, heap, drop, remotes)
    requires CheapestFirst(heap, drop, remotes) && ShortestCover(drop, slots, heap)
    ensures CheapestEvicted(remotes, drop, slots)
  {
    hide Heap.IsHeap, SeqSlots, PriceKey, Worse;
    forall u | u in remotes && u !in drop ensures u in multiset(heap) {
      assert multiset(drop)[u] == 0;
    }
    forall t, u | t in drop && u in remotes && u !in drop ensures !Worse(u, t) {
      PriceKeyOrder(u, t);
    }
  }

  /** A remote newcomer's eviction frees the slots: the heap cannot have run out before. */
  lemma EvictsEnough(heap0: seq<Tx>, heap: seq<Tx>, remotes: set<Tx>, isLocal: bool, drop: seq<Tx>, slots: int)
    requires PoppedPart(heap0, heap, drop, remotes) && ShortestCover(drop, slots, heap)
    requires isLocal || Coverable(heap0, remotes, slots)
    ensures FreesSlots(heap0, remotes, isLocal, drop, slots)
  {
    hide SeqSlots, SumSlots;
    if !isLocal {
      var txs :| LivePart(txs, heap0, remotes) && SeqSlots(txs) >= slots;
      if heap == [] {
        forall t ensures multiset(txs)[t] <= multiset(drop)[t] {
          assert t in multiset(txs) ==> t in txs;
        }
        SlotsMonotone(txs, drop);
      }
      if SingleLive(heap0, remotes) {
        forall i | 0 <= i < |drop| ensures drop[i] in remotes {
          assert drop[i] in multiset(drop);
        }
        DropsAreDistinct(heap0, heap, drop, remotes);
        assert Elements(drop) == (set t | t in drop);
      }
    }
  }

  /** Popping stale entries changes neither what is coverable nor whether live entries are single. */
  lemma LiveSame(heap: seq<Tx>, other: seq<Tx>, remotes: set<Tx>, slots: int)
    ensures SameLive(heap, other, remotes) ==>
              && (Coverable(heap, remotes, slots) <==> Coverable(other, remotes, slots))
              && (SingleLive(heap, remotes) <==> SingleLive(other, remotes))
  {
    if SameLive(heap, other, remotes) {
      assert SameLive(other, heap, remotes);
      if Coverable(heap, remotes, slots) {
        CoverableSame(heap, other, remotes, slots);
      } else if Coverable(other, remotes, slots) {
        CoverableSame(other, heap, remotes, slots);
      }
    }
  }

  lemma CoverableSame(heap: seq<Tx>, other: seq<Tx>, remotes: set<Tx>, slots: int)
    requires SameLive(heap, other, remotes) && Coverable(heap, remotes, slots)
    ensures Coverable(other, remotes, slots)
  {
    var txs :| LivePart(txs, heap, remotes) && SeqSlots(txs) >= slots;
    forall t ensures multiset(txs)[t] <= multiset(other)[t] {
      assert t in multiset(txs) ==> t in txs;
    }
    assert LivePart(txs, other, remotes);
  }

  /** Without duplicate entries, coverable means that the remotes together have the slots. */
  lemma CoverableSingle(heap: seq<Tx>, stales: int, remotes: set<Tx>, slots: int)
    requires HeapSound(heap, stales, remotes, 0) && SingleLive(heap, remotes)
    ensures Coverable(heap, remotes, slots) <==> SumSlots(remotes) >= slots || slots <= 0
  {
    hide Heap.IsHeap;
    CoverableRemotes(heap, stales, remotes, slots);
    if Coverable(heap, remotes, slots) {
      var txs :| LivePart(txs, heap, remotes) && SeqSlots(txs) >= slots;
      var whole := Enumeration(remotes);
      DistinctSlots(whole);
      assert (set t | t in whole) == remotes;
      forall t ensures multiset(txs)[t] <= multiset(whole)[t] {
        assert t in multiset(txs) ==> t in txs && t in whole;
      }
      SlotsMonotone(txs, whole);
    }
    var none: seq<Tx> := [];
    assert LivePart(none, heap, remotes) && SeqSlots(none) == 0;
  }

  /** What FreeSlots does is what the eviction law asks for. */
  lemma FreedRoom(b: Sight, tx: Tx, config: Config, isLocal: bool, heap: seq<Tx>, dropped: seq<Tx>)
    requires Full(b.all, tx, config) && SlotsNeeded(b.all, tx, config) > 0 && b.remotes <= b.all
    requires CheapestEvicted(b.remotes, dropped, SlotsNeeded(b.all, tx, config))
    requires FreesSlots(heap, b.remotes, isLocal, dropped, SlotsNeeded(b.all, tx, config))
    requires SingleLive(heap, b.remotes) <==> SingleLive(b.heap, b.remotes)
    ensures Evicts(config, b, tx, isLocal, Accepted, dropped)
  {
    hide NumSlots, SingleLive, Full, Worse;
    var gone, kept := Elements(dropped), b.all - Elements(dropped);
    assert b.all == kept + gone;
    SetSum.SumUnion(kept, gone, SlotsOf);
    if dropped == [] {
      assert SeqSlots(dropped) == 0;
    } else {
      assert dropped[0] in dropped;
    }
  }

  /** A refusal before the eviction changes nothing. */
  lemma Refused(config: Config, env: Env, b: Sight, sub: Submission, local: bool, err: AddResult)
    requires err == Verdict(config, env, b, sub, local, []) && err !in {Accepted, ReplaceUnderpriced}
    requires Covers(b.heap, b.remotes)
    ensures AddRight(config, env, b, sub, local, Answer(err, false, []), b)
  {
    hide Verdict, Evicts;
  }

  /** Nor does a refusal for the price or for want of room, short of stale heap entries. */
  lemma NotAdmitted(config: Config, env: Env, b: Sight, sub: Submission, local: bool, err: AddResult, dropped: seq<Tx>,
                    c: Sight)
    requires sub.tx !in b.all && InvalidWhy(sub.tx, sub.checks, env) == Accepted && err != Accepted
    requires Admitted(config, b, sub.tx, local || sub.tx.sender in b.locals, err, dropped, c)
             && Covers(c.heap, c.remotes)
    ensures AddRight(config, env, b, sub, local, Answer(err, false, []), c) && err in {Underpriced, Overflow}
  {
    hide IsUnderpriced, IsOverflow, InvalidWhy, Full, SumSlots, CheapestEvicted, EntriesFrom, SameLive, Covers;
    ElementsNone();
  }

  lemma AdmittedLeaves(config: Config, b: Sight, tx: Tx, isLocal: bool, dropped: seq<Tx>, c: Sight)
    requires Admitted(config, b, tx, isLocal, Accepted, dropped, c)
    ensures c.all == b.all - Elements(dropped)
  {
  }

  /** After the eviction: the newcomer is placed or refused over what stands at its slot. */
  lemma Judged(config: Config, env: Env, b: Sight, m: Sight, sub: Submission, local: bool, dropped: seq<Tx>,
               p: Txs, q: Txs, ok: bool, replaced: bool, c: Sight)
    requires sub.tx !in b.all && InvalidWhy(sub.tx, sub.checks, env) == Accepted && b.remotes <= b.all
    requires Admitted(config, b, sub.tx, local || sub.tx.sender in b.locals, Accepted, dropped, m)
    requires StandsAt(b.all, dropped, sub.tx, p, q)
    requires var n := sub.tx.nonce;
             && (ok <==> if n in p then Outbids(sub.tx, p[n], config.priceBump)
                         else n in q ==> Outbids(sub.tx, q[n], config.priceBump))
             && replaced == (ok && (n in p || n in q))
             && c.locals == (if ok && n !in p && local then b.locals + {sub.tx.sender} else b.locals)
    requires c.all == if ok then m.all - Displaced(p, q, sub.tx) + {sub.tx} else m.all
    requires var isLocal := local || sub.tx.sender in b.locals;
             && c.remotes == (if ok then RemotesWith(m.remotes, Displaced(p, q, sub.tx), sub.tx, isLocal, b.locals,
                                                     c.locals) else m.remotes)
             && EntriesFrom(c.heap, m.heap, if ok && !isLocal then multiset{sub.tx} else multiset{})
             && Covers(c.heap, c.remotes)
    ensures AddRight(config, env, b, sub, local,
                     Answer(if ok then Accepted else ReplaceUnderpriced, replaced, dropped), c)
  {
    var n := sub.tx.nonce;
    EvictsMeans(config, b, sub.tx, local || sub.tx.sender in b.locals, dropped, b.all - Elements(dropped));
    RemotesJudged(b, m, sub.tx, local || sub.tx.sender in b.locals, dropped, p, q, ok, replaced, c);
    hide IsUnderpriced, IsOverflow, Evicts, Standing, Outbids, InvalidWhy, Displaced, Full, EntriesFrom, RemotesWith,
      RemotesRight, Covers;
    if n in p {
      assert Standing(b.all, dropped, sub.tx, p[n]);
    } else if n in q {
      assert Standing(b.all, dropped, sub.tx, q[n]);
    }
  }

  lemma RemotesJudged(b: Sight, m: Sight, tx: Tx, isLocal: bool, dropped: seq<Tx>, p: Txs, q: Txs, ok: bool,
                      replaced: bool, c: Sight)
    requires b.remotes <= b.all && tx !in b.all && StandsAt(b.all, dropped, tx, p, q)
    requires m.remotes == b.remotes - Elements(dropped) && EntriesFrom(m.heap, b.heap, multiset{})
    requires c.remotes == if ok then RemotesWith(m.remotes, Displaced(p, q, tx), tx, isLocal, b.locals, c.locals)
                          else m.remotes
    requires EntriesFrom(c.heap, m.heap, if ok && !isLocal then multiset{tx} else multiset{})
             && Covers(c.heap, c.remotes)
    ensures RemotesRight(b, tx, isLocal, Answer(if ok then Accepted else ReplaceUnderpriced, replaced, dropped), c)
    ensures ok ==> (tx in c.remotes <==> !isLocal)
  {
    hide Standing, Displaced, EntriesFrom, Covers;
    EntriesOver(b.heap, m.heap, c.heap, multiset{}, if ok && !isLocal then multiset{tx} else multiset{});
  }

  lemma EvictsMeans(config: Config, b: Sight, tx: Tx, isLocal: bool, dropped: seq<Tx>, s: set<Tx>)
    requires Evicts(config, b, tx, isLocal, Accepted, dropped) && s == b.all - Elements(dropped) && b.remotes <= b.all
    ensures s == b.all <==> !Full(b.all, tx, config) || b.remotes == {}
  {
    hide Full, CheapestEvicted, SumSlots;
    if dropped == [] {
      assert Elements(dropped) == {};
    } else {
      assert dropped[0] in Elements(dropped);
    }
  }

  lemma DiscardLeaves(before: seq<Tx>, heap: seq<Tx>, stales: int, remotes: set<Tx>, drop: seq<Tx>)
    requires PoppedPart(before, heap, drop, remotes) && Heap.IsHeap(heap, PriceKey) && 0 <= stales
    requires |heap| + |drop| - |remotes| <= stales
    ensures Popped(heap, stales, remotes, drop)
    ensures drop == [] ==> HeapSound(heap, stales, remotes, 0) && SameLive(heap, before, remotes)
    ensures forall t :: t in drop ==> t in remotes
    ensures EntriesFrom(heap, before, multiset{})
  {
    hide Heap.IsHeap;
    forall t | t in drop
      ensures t in remotes
    {
      assert t in multiset(drop);
    }
    forall t | t in remotes
      ensures t in multiset(heap) || t in drop
    {
      assert t in multiset(before);
    }
  }

  /** The heap after Discard took `drop` out of it, before the lookup follows. */
  ghost predicate Popped(heap: seq<Tx>, stales: int, remotes: set<Tx>, drop: seq<Tx>) {
    && Heap.IsHeap(heap, PriceKey) && 0 <= stales
    && (forall t :: t in remotes ==> t in multiset(heap) || t in drop)
    && Elements(drop) <= remotes
    && |heap| + |drop| - |remotes| <= stales
  }

  lemma PoppedSettles(heap: seq<Tx>, stales: int, remotes: set<Tx>, drop: seq<Tx>)
    requires Popped(heap, stales, remotes, drop)
    ensures HeapSound(heap, stales, remotes - Elements(drop), 0)
  {
    hide Heap.IsHeap;
    ElementsSize(drop);
    assert |remotes - Elements(drop)| == |remotes| - |Elements(drop)|;
  }

  lemma LongestIn(m: Lists, s: set<Address>, a: Address)
    requires IsLongest(m, s, a) && a in m
    ensures a in s && Get(m, a) == m[a]
  {
  }

  /** tx is among what promotion of its account takes from the queue of v0. */
  ghost predicate NewlyPromoted(env: Env, v0: View, tx: Tx) {
    InList(Promoted(Get(v0.queue, tx.sender), Virtual(v0.noncer, env.nonces, tx.sender), LimitsIn(env, tx.sender)), tx)
  }

  lemma PromotionStart(env: Env, v0: View)
    ensures AllPromoted(env, v0, v0, {})
  {
  }

  lemma DemotionStart(env: Env, v0: View)
    ensures AllDemoted(env, v0, v0, {})
  {
  }

  lemma PromotionStep(env: Env, v0: View, v: View, v': View, done: set<Address>, a: Address)
    requires AllPromoted(env, v0, v, done) && a !in done
    requires var q, pn, lim := Get(v.queue, a), Virtual(v.noncer, env.nonces, a), LimitsIn(env, a);
             && v'.pending == Set(v.pending, a, Get(v.pending, a) + Promoted(q, pn, lim))
             && v'.queue == Set(v.queue, a, StillQueued(q, pn, lim))
             && Virtual(v'.noncer, env.nonces, a) == PromotedNonce(q, pn, lim)
             && forall b :: b != a ==> Virtual(v'.noncer, env.nonces, b) == Virtual(v.noncer, env.nonces, b)
    ensures AllPromoted(env, v0, v', done + {a})
  {
    hide Promoted, StillQueued, PromotedNonce, AllPromoted, Virtual, Set;
    AllPromotedStep(env, v0, v, v', done, a);
  }

  /** After demotion every pending transaction is executable: at or above the state nonce, which is
      pending too, and within the gas limit and the balance. */
  lemma DemotionLeaves(env: Env, v0: View, v: View)
    requires AllDemoted(env, v0, v, v0.pending.Keys) && WellListed(v.pending)
    requires DemotedByLaw(env.nonces, env.balances, env.maxGas, v0, v, v0.pending.Keys)
    ensures AllExecutable(env.nonces, env.balances, env.maxGas, v.pending)
  {
    hide DemoteKept, DemoteBack, NonceOf, Virtual;
    forall a | a in v.pending
      ensures NonceOf(env.nonces, a) in v.pending[a]
      ensures forall n :: n in v.pending[a] ==>
                            && NonceOf(env.nonces, a) <= n && v.pending[a][n].gas <= env.maxGas
                            && v.pending[a][n].cost <= NonceOf(env.balances, a)
    {
      assert if a in v0.pending.Keys then DemotedAt(env, v0, v, a) else SameAt(env, v0, v, a);
      assert Get(v.pending, a) == v.pending[a] != map[];
      assert a in v0.pending.Keys;
      ExecutableOnly(Get(v0.pending, a), Get(v0.queue, a), NonceOf(env.nonces, a), NonceOf(env.balances, a), env.maxGas,
                     Get(v.pending, a), Get(v.queue, a));
    }
  }

  lemma DemotionStep(env: Env, v0: View, v: View, v': View, done: set<Address>, a: Address)
    requires AllDemoted(env, v0, v, done) && a !in done
    requires v'.pending == Set(v.pending, a, DemoteKept(Get(v.pending, a), LimitsIn(env, a)))
    requires v'.queue == Set(v.queue, a, Get(v.queue, a) + DemoteBack(Get(v.pending, a), LimitsIn(env, a)))
    requires v'.noncer == v.noncer
    ensures AllDemoted(env, v0, v', done + {a})
  {
    hide DemoteKept, DemoteBack, AllDemoted, Virtual, Set;
    AllDemotedStep(env, v0, v, v', done, a);
  }

  lemma BeatsArePromoted(l0: Ledger, l: Ledger, accounts: set<Address>, now: int)
    requires forall a ::
               if a !in accounts || a !in l0.view.queue then SameBeat(l0.beats, l.beats, a)
               else if a !in l.view.queue then a !in l.beats
               else if Get(l.view.pending, a) != Get(l0.view.pending, a) then a in l.beats && l.beats[a] == now
               else SameBeat(l0.beats, l.beats, a)
    ensures BeatsPromoted(l0, l, accounts, now)
  {
  }

  lemma BeatsAreDemoted(l0: Ledger, l: Ledger, now: int)
    requires forall a :: if a in l.view.queue && a !in l0.beats then a in l.beats && l.beats[a] == now
                         else SameBeat(l0.beats, l.beats, a)
    ensures BeatsDemoted(l0, l, now)
  {
  }

  lemma BeatsMean(l0: Ledger, l: Ledger, accounts: set<Address>, now: int)
    requires BeatsPromoted(l0, l, accounts, now)
    ensures forall a ::
              if a !in accounts || a !in l0.view.queue then SameBeat(l0.beats, l.beats, a)
              else if a !in l.view.queue then a !in l.beats
              else if Get(l.view.pending, a) != Get(l0.view.pending, a) then a in l.beats && l.beats[a] == now
              else SameBeat(l0.beats, l.beats, a)
  {
    forall a
      ensures if a !in accounts || a !in l0.view.queue then SameBeat(l0.beats, l.beats, a)
              else if a !in l.view.queue then a !in l.beats
              else if Get(l.view.pending, a) != Get(l0.view.pending, a) then a in l.beats && l.beats[a] == now
              else SameBeat(l0.beats, l.beats, a)
    {
      assert BeatPromoted(l0, l, a in accounts, a, now);
    }
  }

  /** The heartbeats of one promoted account. */
  lemma PromotionBeats(env: Env, l0: Ledger, l: Ledger, l': Ledger, done: set<Address>, a: Address, now: int)
    requires BeatsPromoted(l0, l, done, now) && AllPromoted(env, l0.view, l.view, done) && a !in done
    requires Get(l.view.pending, a).Keys !! Get(l.view.queue, a).Keys
    requires WellListed(l0.view.queue) && WellListed(l.view.queue)
    requires var q, pn, lim := Get(l.view.queue, a), Virtual(l.view.noncer, env.nonces, a), LimitsIn(env, a);
             && l'.view.pending == Set(l.view.pending, a, Get(l.view.pending, a) + Promoted(q, pn, lim))
             && l'.view.queue == Set(l.view.queue, a, StillQueued(q, pn, lim))
             && l'.beats == BeatsAfter(l.beats, a in l.view.queue, Promoted(q, pn, lim) != map[], a in l'.view.queue, a,
                                       now)
    ensures BeatsPromoted(l0, l', done + {a}, now)
  {
    var q, pn, lim := Get(l.view.queue, a), Virtual(l.view.noncer, env.nonces, a), LimitsIn(env, a);
    PromotionPartition(q, pn, lim);
    assert SameAt(env, l0.view, l.view, a);
    hide AllPromoted, BeatsPromoted, BeatPromoted, Promoted, StillQueued, BeatsAfter, LimitsIn, Virtual;
    SameQueued(l0.view.queue, l.view.queue, a);
    BeatsChange(l, l', a, Promoted(q, pn, lim), StillQueued(q, pn, lim), now);
    BeatsStep(env, l0, l, l', done, a, now);
  }

  lemma SameQueued(m0: Lists, m: Lists, a: Address)
    requires WellListed(m0) && WellListed(m) && Get(m, a) == Get(m0, a)
    ensures a in m <==> a in m0
  {
  }

  lemma PromotionListed(env: Env, v0: View, v: View, done: set<Address>, a: Address, readies: seq<Tx>)
    requires AllPromoted(env, v0, v, done) && a !in done && OwnedBy(Get(v.queue, a), a)
    requires Sorts(readies, Promoted(Get(v.queue, a), Virtual(v.noncer, env.nonces, a), LimitsIn(env, a)))
    ensures forall tx :: tx in readies <==> tx.sender == a && NewlyPromoted(env, v0, tx)
  {
    assert SameAt(env, v0, v, a);
    var q, pn, lim := Get(v.queue, a), Virtual(v.noncer, env.nonces, a), LimitsIn(env, a);
    var m := Promoted(q, pn, lim);
    PromotionPartition(q, pn, lim);
    SortsAll(readies, m);
    hide Promoted;
    forall tx
      ensures tx in readies <==> tx.sender == a && NewlyPromoted(env, v0, tx)
    {
      if tx in readies {
        var i :| 0 <= i < |readies| && readies[i] == tx;
        assert InList(m, tx);
      }
    }
  }

  /** queue is queue0 with the transactions of txs that are no longer to do added. */
  ghost predicate Requeued(queue0: Lists, a: Address, txs: Txs, todo: set<nat>, queue: Lists) {
    && queue == (if todo == txs.Keys then queue0 else queue0[a := Get(queue0, a) + (txs - todo)])
    && Get(queue, a) == Get(queue0, a) + (txs - todo)
  }

  lemma RequeueStart(queue: Lists, a: Address, txs: Txs)
    ensures Requeued(queue, a, txs, txs.Keys, queue)
  {
    assert txs - txs.Keys == map[];
  }

  lemma RequeueStep(queue0: Lists, a: Address, txs: Txs, todo: set<nat>, n: nat, queue: Lists)
    requires Requeued(queue0, a, txs, todo, queue) && n in todo && todo <= txs.Keys
    requires OwnedBy(txs, a) && txs.Keys !! Get(queue0, a).Keys
    ensures txs[n].sender == a && txs[n].nonce !in Get(queue, a)
    ensures Requeued(queue0, a, txs, todo - {n}, queue[a := With(Get(queue, a), txs[n])])
  {
    var q := Get(queue0, a);
    assert q + (txs - (todo - {n})) == (q + (txs - todo))[n := txs[n]];
  }

  lemma RequeueDone(queue0: Lists, a: Address, txs: Txs, queue: Lists)
    requires Requeued(queue0, a, txs, {}, queue)
    ensures queue == if txs == map[] then queue0 else queue0[a := Get(queue0, a) + txs]
  {
    assert txs - {} == txs;
  }

  /** s is s0 without the transactions of txs that are no longer to do. */
  ghost predicate Unlisted(s0: set<Tx>, txs: Txs, todo: set<nat>, s: set<Tx>) {
    s == s0 - Members(txs - todo)
  }

  lemma UnlistStart(s0: set<Tx>, txs: Txs)
    ensures Unlisted(s0, txs, txs.Keys, s0)
  {
    assert Members(txs - txs.Keys) == {};
  }

  lemma UnlistStep(s0: set<Tx>, txs: Txs, todo: set<nat>, n: nat, s: set<Tx>)
    requires Unlisted(s0, txs, todo, s) && n in todo && todo <= txs.Keys
    ensures Unlisted(s0, txs, todo - {n}, s - {txs[n]})
  {
    hide Members;
    MembersStep(txs, todo, n);
  }

  lemma UnlistDone(s0: set<Tx>, txs: Txs, s: set<Tx>)
    requires Unlisted(s0, txs, {}, s)
    ensures s == s0 - Members(txs)
  {
    assert txs - {} == txs;
  }

  lemma MembersStep(txs: Txs, todo: set<nat>, n: nat)
    requires n in todo && todo <= txs.Keys
    ensures Members(txs - (todo - {n})) == Members(txs - todo) + {txs[n]}
  {
    var before, after := txs - todo, txs - (todo - {n});
    assert after == before[n := txs[n]];
    forall t | t in Members(after)
      ensures t in Members(before) + {txs[n]}
    {
      var k :| k in after && after[k] == t;
      assert k != n ==> k in before && before[k] == t;
    }
    forall t | t in Members(before)
      ensures t in Members(after)
    {
      var k :| k in before && before[k] == t;
      assert k in after && after[k] == t;
    }
    assert n in after;
  }

  /** The fields a promotion changes. */
  datatype Account = Account(pending: Lists, noncer: map<Address, nat>, beats: map<Address, int>)

  /** The nonces lo..n-1 of `ready` have been promoted. */
  ghost predicate RunState(start: Account, a: Address, ready: Txs, lo: nat, n: nat, now: int, st: Account,
                           promoted: seq<Tx>) {
    && Sorts(promoted, Below(ready, n))
    && (n == lo ==> st == start)
    && Get(st.pending, a) == Get(start.pending, a) + Below(ready, n)
    && (n > lo ==> st == Account(start.pending[a := Get(start.pending, a) + Below(ready, n)], start.noncer[a := n],
                                 start.beats[a := now]))
  }

  lemma RunStart(start: Account, a: Address, ready: Txs, lo: nat, hi: nat, now: int)
    requires IsInterval(ready, lo, hi)
    ensures RunState(start, a, ready, lo, lo, now, start, [])
    ensures ready != map[] ==> lo < hi
  {
    assert Below(ready, lo) == map[];
    assert Get(start.pending, a) + Below(ready, lo) == Get(start.pending, a);
    if ready != map[] {
      var n :| n in ready;
    }
  }

  lemma RunStep(start: Account, a: Address, ready: Txs, lo: nat, n: nat, now: int, st: Account, promoted: seq<Tx>)
    requires RunState(start, a, ready, lo, n, now, st, promoted)
    requires n in ready && ready[n].nonce == n && n !in Get(start.pending, a) && lo <= n
    ensures n !in Get(st.pending, a)
    ensures RunState(start, a, ready, lo, n + 1, now,
                     Account(st.pending[a := With(Get(st.pending, a), ready[n])], st.noncer[a := n + 1],
                             st.beats[a := now]),
                     promoted + [ready[n]])
  {
    hide Sorts, Below;
    BelowStep(ready, n, promoted);
    var p := Get(start.pending, a);
    assert With(p + Below(ready, n), ready[n]) == p + Below(ready, n + 1);
  }

  lemma BelowStep(ready: Txs, n: nat, promoted: seq<Tx>)
    requires n in ready && ready[n].nonce == n && Sorts(promoted, Below(ready, n))
    ensures Below(ready, n + 1) == With(Below(ready, n), ready[n]) && n !in Below(ready, n)
    ensures Sorts(promoted + [ready[n]], Below(ready, n + 1))
  {
    hide Sorts, Below;
    BelowGrows(ready, n);
    SortsBelow(promoted, ready, n);
  }

  lemma RunDone(start: Account, a: Address, ready: Txs, lo: nat, hi: nat, now: int, st: Account, promoted: seq<Tx>)
    requires RunState(start, a, ready, lo, hi, now, st, promoted)
    requires IsInterval(ready, lo, hi) && lo < hi
    ensures st == Account(Set(start.pending, a, Get(start.pending, a) + ready), start.noncer[a := hi],
                          start.beats[a := now])
    ensures Sorts(promoted, ready)
  {
    hide Sorts, Below;
    assert lo in Get(start.pending, a) + ready;
    BelowAll(ready, hi);
  }

  lemma BelowAll(m: Txs, n: nat)
    requires forall k :: k in m ==> k < n
    ensures Below(m, n) == m
  {
  }

  lemma SameEntries(heap: seq<Tx>, heap': seq<Tx>, stales: int, remotes: set<Tx>)
    requires HeapSound(heap, stales, remotes, 0) && Heap.IsHeap(heap', PriceKey)
    requires multiset(heap') == multiset(heap) && |heap'| == |heap|
    ensures HeapSound(heap', stales, remotes, 0)
  {
    hide Heap.IsHeap;
  }

  lemma MergeIsSet(queue: Lists, a: Address, txs: Txs)
    requires Set(queue, a, Get(queue, a)) == queue
    ensures Set(queue, a, Get(queue, a) + txs) == if txs == map[] then queue else queue[a := Get(queue, a) + txs]
  {
    if txs == map[] {
      assert Get(queue, a) + txs == Get(queue, a);
    } else {
      var n :| n in txs;
      assert n in Get(queue, a) + txs;
    }
  }

  /** What removeTx relies on: the transactions after tx are in the lookup and clash with
      no queued nonce. */
  lemma RemovalIs(pending: Lists, queue: Lists, tx: Tx)
    ensures var a := tx.sender;
            var p, q := Get(pending, a), Get(queue, a);
            if tx.nonce in p then
              PendingWithout(pending, tx) == Set(pending, a, Below(p, tx.nonce))
              && QueueWithout(pending, queue, tx) == Set(queue, a, q + AtLeast(p, tx.nonce + 1))
            else
              PendingWithout(pending, tx) == pending
              && QueueWithout(pending, queue, tx) == Set(queue, a, q - {tx.nonce})
    ensures forall l :: tx.sender in Set(queue, tx.sender, l) <==> l != map[]
    ensures forall l, b :: b != tx.sender ==> (b in Set(queue, tx.sender, l) <==> b in queue)
    ensures tx.sender !in queue ==> Set(queue, tx.sender, Get(queue, tx.sender) - {tx.nonce}) == queue
  {
    assert tx.sender !in queue ==> Get(queue, tx.sender) - {tx.nonce} == map[];
    assert tx.sender !in queue ==> queue - {tx.sender} == queue;
  }

  lemma RemovalLists(pending: Lists, queue: Lists, s: set<Tx>, tx: Tx)
    requires Consistent(pending, queue, s)
    ensures var later := AtLeast(Get(pending, tx.sender), tx.nonce + 1);
            && OwnedBy(later, tx.sender) && later.Keys !! Get(queue, tx.sender).Keys
            && (forall n :: n in later ==> later[n] in s - {tx})
            && Set(queue, tx.sender, Get(queue, tx.sender)) == queue
            && (tx.sender in queue ==> queue[tx.sender] != map[])
            && (tx in s && tx.nonce !in Get(pending, tx.sender) ==> tx.sender in queue)
  {
    var p := Get(pending, tx.sender);
    ListsOwned(pending, tx.sender);
    SetSelf(queue, tx.sender);
    assert p.Keys !! Get(queue, tx.sender).Keys;
    forall n | n in p && n > tx.nonce
      ensures p[n] in s - {tx}
    {
      assert Holds(pending, p[n]);
    }
  }

  // ----- a refusal that evicts -----

  const ROOM_FOR_TWO := Config(1, 1, 1, 1, 10)

  /** Two accounts with one transaction each, and a replacement that does not raise the price. */
  function Dear(): Tx {
    Tx(1, 1, 0, 5, 1, 5, 1)
  }

  function Cheap(): Tx {
    Tx(2, 2, 0, 1, 1, 1, 1)
  }

  function SamePrice(): Tx {
    Tx(3, 1, 0, 5, 1, 5, 1)
  }

  function Purse(): Env {
    Env(map[], map[1 := 100, 2 := 100], 100, {}, 1)
  }

  function Good(tx: Tx): Submission {
    Submission(tx, Checks(true, true, true))
  }

  /** While there is room, a transaction at a free slot is taken. */
  lemma Taken(b: Sight, tx: Tx, a: Answer, c: Sight)
    requires b.locals == {} && ((b.all == {} && tx == Dear()) || (b.all == {Dear()} && tx == Cheap()))
    requires AddRight(ROOM_FOR_TWO, Purse(), b, Good(tx), false, a, c)
    ensures a.err == Accepted && c.all == b.all + {tx} && tx in c.remotes && c.locals == {}
  {
    hide CheapestEvicted, SumSlots, Coverable;
    assert NumSlots(tx) == 1;
    assert !Full(b.all, tx, ROOM_FOR_TWO);
    assert forall t :: !Standing(b.all, a.dropped, tx, t);
  }

  /** When it is full, room is made by evicting the cheap one, and then the replacement is refused. */
  lemma RefusedAfterEviction(b: Sight, stales: int, a: Answer, c: Sight)
    requires b.all == {Dear(), Cheap()} && Cheap() in b.remotes && b.remotes <= b.all && b.locals == {}
    requires HeapSound(b.heap, stales, b.remotes, 0)
    requires AddRight(ROOM_FOR_TWO, Purse(), b, Good(SamePrice()), false, a, c)
    ensures a.err == ReplaceUnderpriced && c.all == {Dear()}
  {
    var tx := SamePrice();
    hide Heap.IsHeap, Coverable, SumSlots;
    TwoSlots(b.all, b.remotes);
    assert Full(b.all, tx, ROOM_FOR_TWO) && SlotsNeeded(b.all, tx, ROOM_FOR_TWO) == 1;
    CoverableRemotes(b.heap, stales, b.remotes, 1);
    assert !IsUnderpriced(ROOM_FOR_TWO, b, tx, false) && !IsOverflow(ROOM_FOR_TWO, b, tx, false);
    assert CheapestEvicted(b.remotes, a.dropped, 1);
    OneDropped(b.remotes, a.dropped);
    assert Standing(b.all, a.dropped, tx, Dear()) && !Outbids(tx, Dear(), 10);
    assert Elements(a.dropped) == {Cheap()};
  }

  lemma TwoSlots(s: set<Tx>, remotes: set<Tx>)
    requires s == {Dear(), Cheap()} && Cheap() in remotes && remotes <= s
    ensures |s| == 2 && SumSlots(s) == 2 && SumSlots(remotes) >= 1
  {
    hide SetSum.Sum;
    SetSum.SumRemove(s, SlotsOf, Dear());
    assert s - {Dear()} == {Cheap()};
    SetSum.SumRemove({Cheap()}, SlotsOf, Cheap());
    assert {Cheap()} - {Cheap()} == {};
    SumNothing();
    EnoughSlots(remotes);
    assert remotes != {};
  }

  lemma SumNothing()
    ensures SumSlots({}) == 0
  {
  }

  lemma OneDropped(remotes: set<Tx>, drop: seq<Tx>)
    requires CheapestEvicted(remotes, drop, 1) && Cheap() in remotes && remotes <= {Dear(), Cheap()}
    ensures drop == [Cheap()]
  {
    assert drop == [] ==> SeqSlots(drop) == 0;
    var front := drop[..|drop| - 1];
    assert forall t :: t in front ==> t in drop;
    SlotsCount(front);
    assert drop[0] in drop && Worse(Cheap(), Dear());
  }

  lemma {:induction false} SlotsCount(txs: seq<Tx>)
    requires forall t :: t in txs ==> t.size > 0
    ensures SeqSlots(txs) >= |txs|
  {
    if txs != [] {
      assert txs[|txs| - 1] in txs;
      SlotsCount(txs[..|txs| - 1]);
    }
  }

  /** A full pool of two. */
  method TwoPooled() returns (pool: TxPool)
    ensures fresh(pool) && fresh(pool.all) && fresh(pool.priced) && pool.Valid()
    ensures pool.Environment() == Purse() && pool.config == ROOM_FOR_TWO
    ensures pool.all.All() == {Dear(), Cheap()} && Cheap() in pool.all.remotes && pool.locals == {}
  {
    hide AddRight, AddLaw, ListsRight, Kept, HeapSound, TxPool.Linked;
    pool := new TxPool(ROOM_FOR_TWO, map[], map[1 := 100, 2 := 100], 100, {});
    ghost var dropped;
    var replaced, err;
    ghost var sight := pool.Sighted();
    replaced, err, dropped := pool.Add(Dear(), false, Checks(true, true, true), 0);
    Taken(sight, Dear(), Answer(err, replaced, dropped), pool.Sighted());
    sight := pool.Sighted();
    replaced, err, dropped := pool.Add(Cheap(), false, Checks(true, true, true), 0);
    Taken(sight, Cheap(), Answer(err, replaced, dropped), pool.Sighted());
  }

  /** A pool in which a refused transaction has evicted another account's. */
  method FullPool() returns (pool: TxPool, err: AddResult, ghost before: set<Tx>)
    ensures fresh(pool) && pool.Valid() && err == ReplaceUnderpriced
    ensures before == {Dear(), Cheap()} && pool.all.All() == {Dear()}
  {
    hide AddRight, AddLaw, ListsRight, Kept, HeapSound, TxPool.Linked;
    pool := TwoPooled();
    ghost var dropped;
    var replaced;
    before := pool.all.All();
    ghost var sight, stales := pool.Sighted(), pool.priced.stales;
    replaced, err, dropped := pool.Add(SamePrice(), false, Checks(true, true, true), 0);
    RefusedAfterEviction(sight, stales, Answer(err, replaced, dropped), pool.Sighted());
  }
}

/** What the pool reinjects when its head changes from one branch to another. */
module PoolReset {
  import opened Transactions
  import opened Ancestry
  import opened BlockChain
  import HC = HeaderChain
  import Pool = TxPool
  import Spec = PoolSpec

  const MAX_DEPTH := 64

  /** Either the reset is given up, or these transactions are offered to the pool again. */
  datatype Reinjection = Aborted | Reinject(txs: seq<Hash>)

  function Distance(a: nat, b: nat): nat {
    if a < b then b - a else a - b
  }

  /** The transaction is somewhere in the chain ending in head. */
  ghost predicate Included(headers: Headers, genesis: Hash, bodies: Bodies, head: Hash, t: Hash)
    requires Rooted(headers, genesis) && head in headers && bodies.Keys == headers.Keys
  {
    exists n: nat :: InChain(headers, genesis, bodies, head, n, t)
  }

  ghost predicate IsAncestor(headers: Headers, genesis: Hash, a: Hash, h: Hash)
    requires Rooted(headers, genesis) && a in headers && h in headers
  {
    headers[a].number <= headers[h].number && AncestorAt(headers, genesis, h, headers[a].number) == a
  }

  /** The reset's walk over both branches.  With both heads stored and not too far apart, exactly
      the transactions of the old chain that the new chain lacks come back; in particular none
      when the new head descends from the old one. */
  method ReinjectedTxs(chain: BlockChain, oldHead: Option<Header>, newHead: Hash) returns (r: Reinjection)
    requires chain.Stored() && newHead in chain.headers && NoRepeats(chain.headers, chain.genesis, chain.bodies)
    requires chain.genesis in chain.headers && chain.headers[chain.genesis].parent !in chain.headers
    requires oldHead.Some? && oldHead.value.hash in chain.headers ==> chain.headers[oldHead.value.hash] == oldHead.value
    ensures r == Aborted <==>
            && oldHead.Some? && oldHead.value.hash !in chain.headers
            && oldHead.value.hash != chain.headers[newHead].parent
            && oldHead.value.number <= chain.headers[newHead].number <= oldHead.value.number + 64
    ensures oldHead.None? || oldHead.value.hash == chain.headers[newHead].parent ==> r == Reinject([])
    ensures oldHead.Some? && Distance(oldHead.value.number, chain.headers[newHead].number) > MAX_DEPTH ==>
              r == Reinject([])
    ensures oldHead.Some? && oldHead.value.hash !in chain.headers
            && oldHead.value.number > chain.headers[newHead].number ==>
              r == Reinject([])
    ensures r.Reinject? && oldHead.Some? && oldHead.value.hash in chain.headers
            && Distance(oldHead.value.number, chain.headers[newHead].number) <= MAX_DEPTH ==>
              forall t :: t in r.txs <==>
                          && Included(chain.headers, chain.genesis, chain.bodies, oldHead.value.hash, t)
                          && !Included(chain.headers, chain.genesis, chain.bodies, newHead, t)
    ensures oldHead.Some? && oldHead.value.hash in chain.headers
            && IsAncestor(chain.headers, chain.genesis, oldHead.value.hash, newHead) ==>
              r == Reinject([])
  {
    hide Rooted, AncestorAt, NoRepeats, IsFork, IsBranch, InBranch, Included, HC.TdRight;
    r := Reinject([]);
    if oldHead.None? {
      return;
    }
    var was, now := oldHead.value, chain.headers[newHead];
    if was.hash == now.parent {
      if was.hash in chain.headers {
        ChildLacksNothing(chain.headers, chain.genesis, chain.bodies, was.hash, newHead);
      }
      return;
    }
    if Distance(was.number, now.number) > MAX_DEPTH {
      return;
    }
    if was.hash !in chain.headers {
      if now.number >= was.number {
        return Aborted;
      }
      return;
    }
    var oldChain, newChain;
    ghost var f;
    oldChain, newChain, f := chain.FindFork(was.hash, newHead);
    BranchStored(chain.headers, chain.genesis, was.hash, f, oldChain);
    BranchStored(chain.headers, chain.genesis, newHead, f, newChain);
    var discarded := chain.TxsOf(oldChain);
    var included := chain.TxsOf(newChain);
    var txs := TxDifference(discarded, included);
    r := Reinject(txs);
    RepeatsAt(chain.headers, chain.genesis, chain.bodies, was.hash);
    forall t
      ensures t in txs <==> Included(chain.headers, chain.genesis, chain.bodies, was.hash, t)
                            && !Included(chain.headers, chain.genesis, chain.bodies, newHead, t)
    {
      BranchDifference(chain.headers, chain.genesis, chain.bodies, was.hash, newHead, f, oldChain, newChain, t);
    }
    if IsAncestor(chain.headers, chain.genesis, was.hash, newHead) {
      AncestorLacksNothing(chain.headers, chain.genesis, chain.bodies, was.hash, newHead);
      assert txs != [] ==> txs[0] in txs;
    }
  }

  /** The state of a head, as the pool reads it. */
  datatype State = State(nonces: map<Address, nat>, balances: map<Address, nat>, maxGas: nat)

  /** The pool's reset for a change of heads.  It is empty when the reset is given up or the new state
      does not load; otherwise it offers again exactly what the old chain loses.  So a head that
      descends from the old one lowers no interval unless its state lowers a nonce. */
  method RequestReset(chain: BlockChain, oldHead: Option<Header>, newHead: Hash, state: Option<State>,
                      seen: Hash -> Pool.Submission)
    returns (req: Pool.ResetRequest)
    requires chain.Stored() && newHead in chain.headers && NoRepeats(chain.headers, chain.genesis, chain.bodies)
    requires chain.genesis in chain.headers && chain.headers[chain.genesis].parent !in chain.headers
    requires oldHead.Some? && oldHead.value.hash in chain.headers ==> chain.headers[oldHead.value.hash] == oldHead.value
    ensures req.loaded ==> state.Some? && State(req.nonces, req.balances, req.maxGas) == state.value
    ensures req.loaded <==>
            && state.Some?
            && !(oldHead.Some? && oldHead.value.hash !in chain.headers
                 && oldHead.value.hash != chain.headers[newHead].parent
                 && oldHead.value.number <= chain.headers[newHead].number <= oldHead.value.number + 64)
    ensures req.loaded && (oldHead.None? || oldHead.value.hash == chain.headers[newHead].parent) ==> req.reinject == []
    ensures req.loaded && oldHead.Some?
            && (oldHead.value.number > chain.headers[newHead].number + 64
                || chain.headers[newHead].number > oldHead.value.number + 64) ==>
              req.reinject == []
    ensures oldHead.Some? && oldHead.value.hash in chain.headers && req.loaded
            && Distance(oldHead.value.number, chain.headers[newHead].number) <= MAX_DEPTH ==>
              forall sub :: sub in req.reinject <==>
                            exists t :: Lost(chain.headers, chain.genesis, chain.bodies, oldHead.value.hash, newHead, t)
                                        && sub == seen(t)
    ensures oldHead.Some? && oldHead.value.hash in chain.headers
            && IsAncestor(chain.headers, chain.genesis, oldHead.value.hash, newHead) ==>
              forall nonces: map<Address, nat> ::
                Pool.Descends(nonces, req) <==>
                (req.loaded ==> forall a :: Spec.NonceOf(nonces, a) <= Spec.NonceOf(req.nonces, a))
  {
    hide Rooted, AncestorAt, NoRepeats, Included, HC.TdRight, IsAncestor;
    var r := ReinjectedTxs(chain, oldHead, newHead);
    if r.Aborted? || state.None? {
      return Pool.ResetRequest(false, map[], map[], 0, []);
    }
    var subs := seq(|r.txs|, i requires 0 <= i < |r.txs| => seen(r.txs[i]));
    forall sub ensures sub in subs <==> exists t :: t in r.txs && sub == seen(t) {
      if t :| t in r.txs && sub == seen(t) {
        var i :| 0 <= i < |r.txs| && r.txs[i] == t;
        assert subs[i] == sub;
      }
    }
    req := Pool.ResetRequest(true, state.value.nonces, state.value.balances, state.value.maxGas, subs);
  }

  /** The transaction is in the old chain and not in the new one. */
  ghost predicate Lost(headers: Headers, genesis: Hash, bodies: Bodies, a: Hash, h: Hash, t: Hash)
    requires Rooted(headers, genesis) && a in headers && h in headers && bodies.Keys == headers.Keys
  {
    Included(headers, genesis, bodies, a, t) && !Included(headers, genesis, bodies, h, t)
  }

  lemma AncestorLacksNothing(headers: Headers, genesis: Hash, bodies: Bodies, a: Hash, h: Hash)
    requires Rooted(headers, genesis) && a in headers && h in headers && bodies.Keys == headers.Keys
    requires IsAncestor(headers, genesis, a, h)
    ensures forall t :: Included(headers, genesis, bodies, a, t) ==> Included(headers, genesis, bodies, h, t)
  {
    hide Rooted, AncestorAt;
    forall t, n: nat | InChain(headers, genesis, bodies, a, n, t) ensures InChain(headers, genesis, bodies, h, n, t) {
      AncestorTransitive(headers, genesis, h, headers[a].number, n);
    }
  }

  lemma ChildLacksNothing(headers: Headers, genesis: Hash, bodies: Bodies, a: Hash, h: Hash)
    requires Rooted(headers, genesis) && a in headers && h in headers && bodies.Keys == headers.Keys
    requires headers[h].parent == a && headers[genesis].parent !in headers
    ensures forall t :: Included(headers, genesis, bodies, a, t) ==> Included(headers, genesis, bodies, h, t)
  {
    assert headers[h].number > 0;
    hide Rooted, AncestorAt, Included;
    HC.FirstSteps(headers, genesis, h);
    ParentInStore(headers, genesis, h);
    AncestorLacksNothing(headers, genesis, bodies, a, h);
  }

  /** What the old chain has and the new one lacks lies in the old branch and not in the new. */
  lemma BranchDifference(headers: Headers, genesis: Hash, bodies: Bodies, oldHead: Hash, newHead: Hash, f: nat,
                         oldChain: seq<Hash>, newChain: seq<Hash>, t: Hash)
    requires Rooted(headers, genesis) && oldHead in headers && newHead in headers && bodies.Keys == headers.Keys
    requires NoRepeat(headers, genesis, bodies, oldHead) && IsFork(headers, genesis, oldHead, newHead, f)
    requires IsBranch(headers, genesis, oldHead, f, oldChain) && IsBranch(headers, genesis, newHead, f, newChain)
    requires (forall h :: h in oldChain ==> h in headers) && (forall h :: h in newChain ==> h in headers)
    ensures InBranch(bodies, oldChain, t) && !InBranch(bodies, newChain, t) <==>
            Included(headers, genesis, bodies, oldHead, t) && !Included(headers, genesis, bodies, newHead, t)
  {
    hide Rooted, AncestorAt, IsFork, IsBranch, InBranch, InChain;
    assert oldChain[0..] == oldChain && newChain[0..] == newChain;
    BranchTxs(headers, genesis, bodies, oldHead, f, oldChain, 0, t);
    BranchTxs(headers, genesis, bodies, newHead, f, newChain, 0, t);
    forall n: nat
      ensures n <= f ==> (InChain(headers, genesis, bodies, oldHead, n, t) <==>
                          InChain(headers, genesis, bodies, newHead, n, t))
      ensures InChain(headers, genesis, bodies, oldHead, n, t) ==> n <= headers[oldHead].number
      ensures InChain(headers, genesis, bodies, newHead, n, t) ==> n <= headers[newHead].number
    {
      if n <= f {
        SharedTx(headers, genesis, bodies, oldHead, newHead, f, n, t);
      }
      HeightOf(headers, genesis, bodies, oldHead, n, t);
      HeightOf(headers, genesis, bodies, newHead, n, t);
    }
  }

  lemma HeightOf(headers: Headers, genesis: Hash, bodies: Bodies, head: Hash, n: nat, t: Hash)
    requires Rooted(headers, genesis) && head in headers && bodies.Keys == headers.Keys
    ensures InChain(headers, genesis, bodies, head, n, t) ==> n <= headers[head].number
  {
  }

  lemma SharedTx(headers: Headers, genesis: Hash, bodies: Bodies, a: Hash, b: Hash, f: nat, n: nat, t: Hash)
    requires Rooted(headers, genesis) && a in headers && b in headers && bodies.Keys == headers.Keys
    requires IsFork(headers, genesis, a, b, f) && n <= f
    ensures InChain(headers, genesis, bodies, a, n, t) <==> InChain(headers, genesis, bodies, b, n, t)
  {
    BelowFork(headers, genesis, a, b, f, n);
  }
}

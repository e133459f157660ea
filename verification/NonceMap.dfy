/** The plain nonce-sorted map: what one account's transaction list means. The heap-indexed,
    cached list of module TxList is proved to refine the functions given here, and the pool
    is stated over them.
 */
module NonceMap {
  import opened Transactions

  type Txs = map<nat, Tx>

  /** Every transaction is stored under its own nonce. */
  predicate Keyed(m: Txs) {
    forall n :: n in m ==> m[n].nonce == n
  }

  predicate IsMin(m: Txs, k: nat) {
    k in m && forall j :: j in m ==> k <= j
  }

  predicate IsMax(m: Txs, k: nat) {
    k in m && forall j :: j in m ==> j <= k
  }

  lemma RemoveSize(m: Txs, k: nat)
    requires k in m
    ensures |m - {k}| == |m| - 1
  {
    assert (m - {k}).Keys == m.Keys - {k};
  }

  lemma {:induction false} MinExists(m: Txs)
    requires m != map[]
    ensures exists k :: IsMin(m, k)
    decreases |m|
  {
    var j :| j in m;
    if !IsMin(m, j) {
      var rest := m - {j};
      RemoveSize(m, j);
      assert exists i :: i in rest;
      MinExists(rest);
      var k :| IsMin(rest, k);
      assert forall i :: i in m ==> i == j || i in rest;
      assert IsMin(m, if k < j then k else j);
    }
  }

  lemma {:induction false} MaxExists(m: Txs)
    requires m != map[]
    ensures exists k :: IsMax(m, k)
    decreases |m|
  {
    var j :| j in m;
    if !IsMax(m, j) {
      var rest := m - {j};
      RemoveSize(m, j);
      assert exists i :: i in rest;
      MaxExists(rest);
      var k :| IsMax(rest, k);
      assert forall i :: i in m ==> i == j || i in rest;
      assert IsMax(m, if k > j then k else j);
    }
  }

  function MinKey(m: Txs): (k: nat)
    requires m != map[]
    ensures IsMin(m, k)
  {
    MinExists(m);
    var k :| IsMin(m, k);
    k
  }

  function MaxKey(m: Txs): (k: nat)
    requires m != map[]
    ensures IsMax(m, k)
  {
    MaxExists(m);
    var k :| IsMax(m, k);
    k
  }

  function With(m: Txs, tx: Tx): (r: Txs) {
    m[tx.nonce := tx]
  }

  function Below(m: Txs, t: nat): (r: Txs) {
    map n | n in m && n < t :: m[n]
  }

  function AtLeast(m: Txs, t: nat): (r: Txs) {
    map n | n in m && t <= n :: m[n]
  }

  predicate Affordable(tx: Tx, cost: nat, gas: nat) {
    tx.gas <= gas && tx.cost <= cost
  }

  function Payable(m: Txs, cost: nat, gas: nat): (r: Txs) {
    map n | n in m && Affordable(m[n], cost, gas) :: m[n]
  }

  function Unpayable(m: Txs, cost: nat, gas: nat): (r: Txs) {
    map n | n in m && !Affordable(m[n], cost, gas) :: m[n]
  }

  /** The k transactions of lowest nonce. */
  function Lowest(m: Txs, k: nat): (r: Txs)
    ensures |r| == if |m| <= k then |m| else k
    ensures |m| <= k ==> r == m
    ensures forall n :: n in r ==> n in m && r[n] == m[n]
    ensures forall i, j :: i in r && j in m && j !in r ==> i < j
    decreases |m|
  {
    if |m| <= k then m
    else
      var top := MaxKey(m);
      RemoveSize(m, top);
      Lowest(m - {top}, k)
  }

  /** Lowest(m, k) is the only part of m with these properties. */
  lemma LowestUnique(m: Txs, k: nat, r: Txs)
    requires |r| == if |m| <= k then |m| else k
    requires forall n :: n in r ==> n in m && r[n] == m[n]
    requires forall i, j :: i in r && j in m && j !in r ==> i < j
    ensures r == Lowest(m, k)
  {
    var l := Lowest(m, k);
    if r.Keys <= l.Keys {
      SubsetSameSize(r.Keys, l.Keys);
    } else {
      var i :| i in r && i !in l;
      assert l.Keys <= r.Keys;
      SubsetSameSize(l.Keys, r.Keys);
    }
    assert r.Keys == l.Keys;
  }

  lemma SubsetSameSize(a: set<nat>, b: set<nat>)
    requires a <= b && |a| == |b|
    ensures a == b
  {
    var d := b - a;
    assert b == a + d;
    assert |b| == |a| + |d|;
  }

  lemma LowestOfLowest(m: Txs, k: nat, j: nat)
    requires j <= k
    ensures Lowest(Lowest(m, k), j) == Lowest(m, j)
  {
    var r := Lowest(Lowest(m, k), j);
    LowestUnique(m, j, r);
  }

  ghost predicate Increasing(s: seq<Tx>) {
    forall i, j :: 0 <= i < j < |s| ==> s[i].nonce < s[j].nonce
  }

  /** s lists exactly the transactions of m, in strictly increasing nonce order. */
  ghost predicate Sorts(s: seq<Tx>, m: Txs) {
    && Increasing(s)
    && |s| == |m|
    && forall i :: 0 <= i < |s| ==> s[i].nonce in m && m[s[i].nonce] == s[i]
  }

  /** s lists exactly the transactions of m, each once, in any order. */
  ghost predicate Enumerates(s: seq<Tx>, m: Txs) {
    && |s| == |m|
    && (forall i, j :: 0 <= i < j < |s| ==> s[i].nonce != s[j].nonce)
    && forall i :: 0 <= i < |s| ==> s[i].nonce in m && m[s[i].nonce] == s[i]
  }

  ghost function NonceSet(s: seq<Tx>): set<nat> {
    set i | 0 <= i < |s| :: s[i].nonce
  }

  lemma {:induction false} NonceSetSize(s: seq<Tx>)
    requires Increasing(s)
    ensures |NonceSet(s)| == |s|
  {
    if s == [] {
      assert NonceSet(s) == {};
    } else {
      var k := |s| - 1;
      NonceSetSize(s[..k]);
      assert NonceSet(s) == NonceSet(s[..k]) + {s[k].nonce};
    }
  }

  /** Nothing of m is left out of a list that sorts it. */
  lemma SortsAll(s: seq<Tx>, m: Txs)
    requires Sorts(s, m)
    ensures NonceSet(s) == m.Keys
    ensures forall n :: n in m ==> m[n] in s
  {
    NonceSetSize(s);
    SubsetSameSize(NonceSet(s), m.Keys);
    forall n | n in m
      ensures m[n] in s
    {
      assert n in NonceSet(s);
    }
  }

  /** The sorted list of a map is unique. */
  lemma {:induction false} SortsUnique(s: seq<Tx>, t: seq<Tx>, m: Txs)
    requires Sorts(s, m) && Sorts(t, m)
    ensures s == t
    decreases |s|
  {
    if s != [] {
      var k := MinKey(m);
      SortsFirst(s, m, k);
      SortsFirst(t, m, k);
      SortsUnique(s[1..], t[1..], m - {k});
      assert s == [s[0]] + s[1..] && t == [t[0]] + t[1..];
    }
  }

  lemma SortsFirst(s: seq<Tx>, m: Txs, k: nat)
    requires Sorts(s, m) && IsMin(m, k)
    ensures |s| > 0 && s[0] == m[k] && m[k].nonce == k
    ensures Sorts(s[1..], m - {k})
  {
    SortsAll(s, m);
    var i :| 0 <= i < |s| && s[i].nonce == k;
    assert s[0].nonce in m;
    assert i == 0;
    SortsTail(s, m);
  }

  lemma SortsTail(s: seq<Tx>, m: Txs)
    requires Sorts(s, m) && |s| > 0
    ensures Sorts(s[1..], m - {s[0].nonce})
  {
    RemoveSize(m, s[0].nonce);
    var t := s[1..];
    assert forall i :: 0 <= i < |t| ==> t[i] == s[i + 1] && s[0].nonce < t[i].nonce;
  }

  lemma SortsFront(s: seq<Tx>, m: Txs)
    requires Sorts(s, m) && |s| > 0
    ensures Sorts(s[..|s| - 1], m - {s[|s| - 1].nonce})
  {
    var last := s[|s| - 1];
    RemoveSize(m, last.nonce);
    var t := s[..|s| - 1];
    assert forall i :: 0 <= i < |t| ==> t[i] == s[i] && t[i].nonce < last.nonce;
  }

  lemma SortsLast(s: seq<Tx>, m: Txs, k: nat)
    requires Sorts(s, m) && IsMax(m, k)
    ensures |s| > 0 && s[|s| - 1] == m[k] && m[k].nonce == k
    ensures Sorts(s[..|s| - 1], m - {k})
  {
    var last := |s| - 1;
    SortsAll(s, m);
    var i :| 0 <= i < |s| && s[i].nonce == k;
    assert s[last].nonce in m;
    assert i == last;
    SortsFront(s, m);
  }

  /** The first nonce at or after n that m lacks. */
  function RunEnd(m: Txs, n: nat): (e: nat)
    ensures n <= e && e !in m
    ensures forall k :: n <= k < e ==> k in m
    decreases |m|
  {
    if n in m then
      RemoveSize(m, n);
      var e := RunEnd(m - {n}, n + 1);
      assert forall k {:trigger k in m} :: n < k < e ==> k in m - {n};
      e
    else n
  }

  lemma {:induction false} RunEndUnique(m: Txs, n: nat, e: nat)
    requires n <= e && e !in m
    requires forall k :: n <= k < e ==> k in m
    ensures e == RunEnd(m, n)
  {
    var r := RunEnd(m, n);
    assert r < e ==> r in m;
  }

  /** What Ready(start) takes: the maximal consecutive run from the lowest nonce, or
      nothing when the lowest nonce is above start. */
  function ReadyEnd(m: Txs, start: nat): (e: nat) {
    if m == map[] || MinKey(m) > start then 0 else RunEnd(m, MinKey(m))
  }

  function ReadyPart(m: Txs, start: nat): (r: Txs) {
    Below(m, ReadyEnd(m, start))
  }

  function AfterReady(m: Txs, start: nat): (r: Txs) {
    AtLeast(m, ReadyEnd(m, start))
  }

  /** The nonces of m are exactly lo, lo+1, ..., hi-1. */
  ghost predicate IsInterval(m: Txs, lo: nat, hi: nat) {
    forall n :: n in m <==> lo <= n < hi
  }

  /** No nonce is missing between two nonces of m. */
  ghost predicate Contiguous(m: Txs) {
    forall i, j, k :: i in m && k in m && i <= j <= k ==> j in m
  }
}

/** The two truncations: the max-min fair water level of the pending lists, and draining
    the queue by heartbeat. */
module PoolFairness {
  import opened Transactions
  import opened NonceMap
  import opened PoolSpec
  import SetSum
  import Heap

  function LenOf(m: Lists): Address -> int {
    (a: Address) => |Get(m, a)|
  }

  /** Number of transactions in all lists. */
  ghost function Total(m: Lists): int {
    SetSum.Sum(m.Keys, LenOf(m))
  }

  /** The list of a after capping the non-local accounts at `level`. */
  function LevelList(m: Lists, locals: set<Address>, level: nat, a: Address): Txs {
    if a in locals then Get(m, a) else Lowest(Get(m, a), level)
  }

  function LevelLen(m: Lists, locals: set<Address>, level: nat): Address -> int {
    (a: Address) => |LevelList(m, locals, level, a)|
  }

  /** Number of transactions left when the non-local accounts are capped at `level`. */
  ghost function LevelTotal(m: Lists, locals: set<Address>, level: nat): int {
    SetSum.Sum(m.Keys, LevelLen(m, locals, level))
  }

  /** m is m0 with the non-local accounts capped at `level`. */
  ghost predicate AtLevel(m0: Lists, locals: set<Address>, level: nat, m: Lists) {
    forall a :: Get(m, a) == LevelList(m0, locals, level, a)
  }

  /** The level truncatePending must find: the largest one, not below the per-account
      guarantee, that brings the total within the limit, or the guarantee itself. */
  ghost predicate WaterLevel(m0: Lists, locals: set<Address>, guarantee: nat, limit: nat, level: nat) {
    && guarantee <= level
    && (LevelTotal(m0, locals, level) <= limit || level == guarantee)
    && LevelTotal(m0, locals, level + 1) > limit
  }

  lemma LevelMonotone(m: Lists, locals: set<Address>, k: nat, l: nat)
    requires k <= l
    ensures LevelTotal(m, locals, k) <= LevelTotal(m, locals, l)
  {
    hide Lowest;
    SetSum.SumLe(m.Keys, LevelLen(m, locals, k), LevelLen(m, locals, l));
  }

  /** The water level is the largest level that fits, and so unique. */
  lemma WaterLevelIsLargest(m0: Lists, locals: set<Address>, guarantee: nat, limit: nat, level: nat, k: nat)
    requires WaterLevel(m0, locals, guarantee, limit, level) && guarantee <= k
    ensures LevelTotal(m0, locals, k) <= limit ==> k <= level
    ensures WaterLevel(m0, locals, guarantee, limit, k) ==> k == level
  {
    hide LevelTotal;
    if k > level {
      LevelMonotone(m0, locals, level + 1, k);
    } else if k < level {
      LevelMonotone(m0, locals, k + 1, level);
    }
  }

  lemma TotalAtLevel(m0: Lists, locals: set<Address>, level: nat, m: Lists)
    requires WellListed(m0) && WellListed(m) && AtLevel(m0, locals, level, m) && level >= 1
    ensures m.Keys == m0.Keys
    ensures Total(m) == LevelTotal(m0, locals, level)
  {
    hide Lowest;
    forall a
      ensures a in m <==> a in m0
    {
      assert Get(m, a) == LevelList(m0, locals, level, a);
      assert Get(m0, a) == map[] <==> |Get(m0, a)| == 0;
      assert Get(m, a) == map[] <==> |Get(m, a)| == 0;
    }
    SetSum.SumSame(m.Keys, LenOf(m), LevelLen(m0, locals, level));
  }

  /** With no non-local list above the level, capping changes nothing. */
  lemma HighLevel(m: Lists, locals: set<Address>, level: nat)
    requires forall a :: a !in locals ==> |Get(m, a)| <= level
    ensures AtLevel(m, locals, level, m)
    ensures LevelTotal(m, locals, level) == Total(m)
    ensures LevelTotal(m, locals, level + 1) == Total(m)
  {
    hide Lowest;
    forall a
      ensures LevelList(m, locals, level, a) == Get(m, a) && LevelList(m, locals, level + 1, a) == Get(m, a)
    {
      assert a !in locals ==> |Get(m, a)| <= level;
    }
    hide LevelList;
    SetSum.SumSame(m.Keys, LevelLen(m, locals, level), LenOf(m));
    SetSum.SumSame(m.Keys, LevelLen(m, locals, level + 1), LenOf(m));
  }

  /** One round of caps on exactly the accounts at the level lowers the level by one. */
  lemma RoundLowersLevel(m0: Lists, locals: set<Address>, level: nat, m: Lists, m': Lists, front: seq<Address>)
    requires AtLevel(m0, locals, level, m) && level >= 1
    requires forall a :: a in front ==> a !in locals && |Get(m0, a)| >= level
    requires forall a :: a !in locals && a !in front ==> |Get(m0, a)| < level
    requires forall a :: Get(m', a) == if a in front then Lowest(Get(m, a), level - 1) else Get(m, a)
    ensures AtLevel(m0, locals, level - 1, m')
  {
    forall a
      ensures Get(m', a) == LevelList(m0, locals, level - 1, a)
    {
      assert Get(m, a) == LevelList(m0, locals, level, a);
      LowestOfLowest(Get(m0, a), level, level - 1);
      hide Lowest;
    }
  }

  /** Dropping the highest nonce of one list lowers the total by one. */
  lemma TotalDrop(m: Lists, a: Address, l: Txs)
    requires a in m && |l| == |m[a]| - 1
    ensures Total(m[a := l]) == Total(m) - 1
  {
    var m' := m[a := l];
    assert m'.Keys == m.Keys;
    SetSum.SumChange(m.Keys, LenOf(m), LenOf(m'), a);
  }

  /** The non-local accounts above the guarantee. */
  function Spammers(m: Lists, locals: set<Address>, guarantee: nat): set<Address> {
    set a | a in m && a !in locals && |m[a]| > guarantee
  }

  /** a has a longest list among the accounts of s. */
  predicate IsLongest(m: Lists, s: set<Address>, a: Address) {
    a in s && forall b :: b in s ==> |Get(m, b)| <= |Get(m, a)|
  }

  lemma {:induction false} LongestExists(m: Lists, s: set<Address>)
    requires s != {}
    ensures exists a :: IsLongest(m, s, a)
    decreases s
  {
    hide Get;
    var a :| a in s;
    var rest := s - {a};
    if rest == {} {
      assert forall b :: b in s ==> b == a || b in rest;
      assert IsLongest(m, s, a);
    } else {
      LongestExists(m, rest);
      var c :| IsLongest(m, rest, c);
      assert forall b :: b in s ==> b == a || b in rest;
      assert IsLongest(m, s, if |Get(m, c)| < |Get(m, a)| then a else c);
    }
  }

  /** truncatePending in progress: the offenders popped so far are exactly the spammers at
      the level, and the level was last seen too high. */
  ghost predicate Leveling(m0: Lists, locals: set<Address>, guarantee: nat, limit: nat,
                           level: nat, offenders: seq<Address>, spammers: set<Address>) {
    && level >= guarantee
    && LevelTotal(m0, locals, level + 1) > limit
    && (forall i, j :: 0 <= i < j < |offenders| ==> offenders[i] != offenders[j])
    && (forall a :: a in Spammers(m0, locals, guarantee) <==> a in spammers || a in offenders)
    && (forall a :: a in spammers ==> a !in offenders && |Get(m0, a)| <= level)
    && (forall a :: a in offenders ==> |Get(m0, a)| >= level)
  }

  lemma LevelingStart(m0: Lists, locals: set<Address>, guarantee: nat, limit: nat) returns (level: nat)
    requires Total(m0) > limit
    ensures Leveling(m0, locals, guarantee, limit, level, [], Spammers(m0, locals, guarantee))
    ensures AtLevel(m0, locals, level, m0) && LevelTotal(m0, locals, level) == Total(m0)
    ensures forall a :: |Get(m0, a)| <= level
  {
    var k := MaxLen(m0, m0.Keys);
    level := k + guarantee;
    HighLevel(m0, locals, level);
  }

  lemma {:induction false} MaxLen(m: Lists, s: set<Address>) returns (k: nat)
    requires s <= m.Keys
    ensures forall a :: a in s ==> |Get(m, a)| <= k
    decreases s
  {
    if s == {} {
      k := 0;
    } else {
      var a :| a in s;
      var r := MaxLen(m, s - {a});
      k := if r < |Get(m, a)| then |Get(m, a)| else r;
      forall b | b in s
        ensures |Get(m, b)| <= k
      {
        assert b == a || b in s - {a};
      }
    }
  }

  /** Popping the first offender puts the level at its length. */
  lemma FirstOffender(m0: Lists, locals: set<Address>, guarantee: nat, limit: nat, level: nat, spammers: set<Address>,
                      o: Address)
    requires Leveling(m0, locals, guarantee, limit, level, [], spammers) && LevelTotal(m0, locals, level) > limit
    requires LevelTotal(m0, locals, level) == Total(m0)
    requires IsLongest(m0, spammers, o)
    ensures var l := |Get(m0, o)|;
            && Leveling(m0, locals, guarantee, limit, l, [o], spammers - {o})
            && AtLevel(m0, locals, l, m0) && LevelTotal(m0, locals, l) == Total(m0) && l > guarantee
  {
    hide Lowest, Total, LevelTotal;
    var l := |Get(m0, o)|;
    forall a | a !in locals
      ensures |Get(m0, a)| <= l
    {
      assert a in Spammers(m0, locals, guarantee) ==> a in spammers;
    }
    HighLevel(m0, locals, l);
  }

  lemma NextOffender(m0: Lists, locals: set<Address>, guarantee: nat, limit: nat, level: nat,
                     offenders: seq<Address>, spammers: set<Address>, o: Address)
    requires Leveling(m0, locals, guarantee, limit, level, offenders, spammers)
    requires IsLongest(m0, spammers, o)
    ensures guarantee < |Get(m0, o)| <= level && o !in locals && o in m0
    ensures forall a :: a !in locals && a !in offenders ==> |Get(m0, a)| <= |Get(m0, o)|
    ensures level == |Get(m0, o)| ==> Leveling(m0, locals, guarantee, limit, level, offenders + [o], spammers - {o})
  {
    assert o in Spammers(m0, locals, guarantee);
    forall a | a !in locals && a !in offenders
      ensures |Get(m0, a)| <= |Get(m0, o)|
    {
      assert a in Spammers(m0, locals, guarantee) ==> a in spammers;
    }
  }

  /** Accounts neither popped nor waiting are within the guarantee. */
  lemma RestWithinGuarantee(m0: Lists, locals: set<Address>, guarantee: nat, limit: nat, level: nat,
                            offenders: seq<Address>, spammers: set<Address>, a: Address)
    requires Leveling(m0, locals, guarantee, limit, level, offenders, spammers)
    requires a !in locals && a !in offenders && a !in spammers
    ensures |Get(m0, a)| <= guarantee
  {
    assert a !in Spammers(m0, locals, guarantee);
  }

  lemma RoundKeepsLeveling(m0: Lists, locals: set<Address>, guarantee: nat, limit: nat, level: nat,
                           offenders: seq<Address>, spammers: set<Address>)
    requires Leveling(m0, locals, guarantee, limit, level, offenders, spammers)
    requires LevelTotal(m0, locals, level) > limit && level > guarantee
    requires forall a :: a in spammers ==> |Get(m0, a)| < level
    ensures Leveling(m0, locals, guarantee, limit, level - 1, offenders, spammers)
  {
  }

  /** The offenders are the accounts whose capped list is as long as the level. */
  lemma OffendersAtLevel(m0: Lists, locals: set<Address>, guarantee: nat, limit: nat, level: nat,
                         offenders: seq<Address>, spammers: set<Address>, m: Lists)
    requires Leveling(m0, locals, guarantee, limit, level, offenders, spammers) && AtLevel(m0, locals, level, m)
    ensures forall i, j :: 0 <= i < j < |offenders| ==> offenders[i] != offenders[j]
    ensures forall a :: a in offenders ==> a in m0 && a !in locals && |Get(m, a)| == level
    ensures level > 0 ==> forall a :: a in offenders ==> a in m && |m[a]| == level
  {
    forall a | a in offenders
      ensures a in m0 && a !in locals && |Get(m, a)| == level
    {
      assert a in Spammers(m0, locals, guarantee);
      assert Get(m, a) == LevelList(m0, locals, level, a);
      hide Lowest;
    }
  }

  /** A round of LowerLevel: both the lists and the bookkeeping move one level down. */
  lemma RoundStep(m0: Lists, locals: set<Address>, guarantee: nat, limit: nat, level: nat,
                  offenders: seq<Address>, spammers: set<Address>, m: Lists, m': Lists)
    requires Leveling(m0, locals, guarantee, limit, level, offenders, spammers) && AtLevel(m0, locals, level, m)
    requires WellListed(m0) && WellListed(m) && Total(m) > limit && level > guarantee
    requires forall a :: a !in locals && a !in offenders ==> |Get(m0, a)| < level
    requires forall a :: Get(m', a) == if a in offenders then Lowest(Get(m, a), level - 1) else Get(m, a)
    ensures Leveling(m0, locals, guarantee, limit, level - 1, offenders, spammers)
    ensures AtLevel(m0, locals, level - 1, m')
  {
    hide Lowest;
    OffendersAtLevel(m0, locals, guarantee, limit, level, offenders, spammers, m);
    TotalAtLevel(m0, locals, level, m);
    hide AtLevel, LevelTotal, Total;
    RoundKeepsLeveling(m0, locals, guarantee, limit, level, offenders, spammers) by {
      assert forall a :: a in spammers ==> a in Spammers(m0, locals, guarantee);
    }
    assert forall a :: a in offenders ==> |Get(m0, a)| >= level;
    RoundLowersLevel(m0, locals, level, m, m', offenders);
  }

  /** Adds up the lengths of all lists. */
  method CountLists(m: Lists) returns (n: int)
    ensures n == Total(m)
  {
    hide TotalBut, Total;
    n := 0;
    var todo := m.Keys;
    CountEnds(m);
    while todo != {}
      invariant todo <= m.Keys && n == TotalBut(m, todo)
      decreases todo
    {
      var a :| a in todo;
      CountStep(m, todo, a);
      n := n + |m[a]|;
      todo := todo - {a};
    }
  }

  /** The lengths of the lists that are not still to do. */
  ghost function TotalBut(m: Lists, todo: set<Address>): int {
    SetSum.Sum(m.Keys - todo, LenOf(m))
  }

  lemma CountEnds(m: Lists)
    ensures TotalBut(m, m.Keys) == 0 && TotalBut(m, {}) == Total(m)
  {
    assert m.Keys - m.Keys == {} && m.Keys - {} == m.Keys;
  }

  lemma CountStep(m: Lists, todo: set<Address>, a: Address)
    requires a in todo && todo <= m.Keys
    ensures TotalBut(m, todo - {a}) == TotalBut(m, todo) + |m[a]|
  {
    hide SetSum.Sum;
    SetSum.SumInsert(m.Keys - todo, LenOf(m), a);
    assert m.Keys - (todo - {a}) == (m.Keys - todo) + {a};
  }

  /** The spammers not yet popped still have their original lists. */
  lemma WaitingUntouched(m0: Lists, locals: set<Address>, guarantee: nat, limit: nat, level: nat,
                         offenders: seq<Address>, spammers: set<Address>, m: Lists, o: Address)
    requires Leveling(m0, locals, guarantee, limit, level, offenders, spammers) && AtLevel(m0, locals, level, m)
    requires IsLongest(m, spammers, o)
    ensures IsLongest(m0, spammers, o) && Get(m, o) == Get(m0, o) && o in m
  {
    forall a | a in spammers
      ensures Get(m, a) == Get(m0, a) && a in m
    {
      assert a in Spammers(m0, locals, guarantee);
      assert Get(m, a) == LevelList(m0, locals, level, a);
      hide Lowest;
    }
  }

  /** When all spammers are popped, every other non-local list is within the guarantee. */
  lemma AllPopped(m0: Lists, locals: set<Address>, guarantee: nat, limit: nat, level: nat, offenders: seq<Address>)
    requires Leveling(m0, locals, guarantee, limit, level, offenders, {})
    ensures forall a :: a !in locals && a !in offenders ==> |Get(m0, a)| <= guarantee
  {
    forall a | a !in locals && a !in offenders
      ensures |Get(m0, a)| <= guarantee
    {
      RestWithinGuarantee(m0, locals, guarantee, limit, level, offenders, {}, a);
    }
  }

  lemma LevelingBounds(m0: Lists, locals: set<Address>, guarantee: nat, limit: nat, level: nat,
                       offenders: seq<Address>, spammers: set<Address>)
    requires Leveling(m0, locals, guarantee, limit, level, offenders, spammers)
    ensures guarantee <= level && LevelTotal(m0, locals, level + 1) > limit
  {
  }

  // ----- truncateQueue -----

  function BeatOf(beats: map<Address, int>): Address -> int {
    (a: Address) => if a in beats then beats[a] else 0
  }

  /** Queued transactions of local accounts. */
  ghost function LocalTotal(m: Lists, locals: set<Address>): int {
    SetSum.Sum(m.Keys * locals, LenOf(m))
  }

  /** addresses are the non-local accounts of m, each once, by ascending heartbeat. */
  ghost predicate ByHeartbeat(m: Lists, locals: set<Address>, beats: map<Address, int>, addresses: seq<Address>) {
    && (forall a :: a in addresses <==> a in m && a !in locals)
    && (forall i, j :: 0 <= i < j < |addresses| ==> addresses[i] != addresses[j])
    && (forall i, j :: 0 <= i < j < |addresses| ==> BeatOf(beats)(addresses[i]) <= BeatOf(beats)(addresses[j]))
  }

  /** The accounts from position cut on are drained, the one before keeps its `keep` lowest
      nonces, and everyone else is untouched. */
  ghost predicate DrainedFrom(m0: Lists, addresses: seq<Address>, cut: nat, keep: nat, m: Lists)
    requires cut <= |addresses|
  {
    forall a :: Get(m, a) == if a in addresses[cut..] then map[]
                             else if cut > 0 && a == addresses[cut - 1] then Lowest(Get(m0, a), keep)
                             else Get(m0, a)
  }

  /** Only whole accounts have been drained. */
  ghost predicate DrainedWhole(m0: Lists, addresses: seq<Address>, cut: nat, m: Lists)
    requires cut <= |addresses|
  {
    forall a :: Get(m, a) == if a in addresses[cut..] then map[] else Get(m0, a)
  }

  lemma DrainStep(m0: Lists, locals: set<Address>, beats: map<Address, int>, addresses: seq<Address>, cut: nat,
                  m: Lists)
    requires ByHeartbeat(m0, locals, beats, addresses) && 0 < cut <= |addresses| && DrainedWhole(m0, addresses, cut, m)
    ensures Get(m, addresses[cut - 1]) == Get(m0, addresses[cut - 1]) && addresses[cut - 1] in m0
    ensures DrainedWhole(m0, addresses, cut - 1, m - {addresses[cut - 1]})
  {
    var o := addresses[cut - 1];
    assert addresses[cut - 1..] == [o] + addresses[cut..];
    assert o !in addresses[cut..];
    assert o in addresses;
    forall a
      ensures Get(m - {o}, a) == if a in addresses[cut - 1..] then map[] else Get(m0, a)
    {
      assert Get(m, a) == if a in addresses[cut..] then map[] else Get(m0, a);
    }
  }

  lemma TrimStep(m0: Lists, locals: set<Address>, beats: map<Address, int>, addresses: seq<Address>, cut: nat,
                 m: Lists, m': Lists, keep: nat)
    requires ByHeartbeat(m0, locals, beats, addresses) && 0 < cut <= |addresses| && DrainedWhole(m0, addresses, cut, m)
    requires forall a :: Get(m', a) == if a == addresses[cut - 1] then Lowest(Get(m, a), keep) else Get(m, a)
    ensures DrainedFrom(m0, addresses, cut, keep, m')
  {
    var o := addresses[cut - 1];
    assert o !in addresses[cut..];
    hide Lowest;
    forall a
      ensures Get(m', a) == if a in addresses[cut..] then map[]
                            else if a == o then Lowest(Get(m0, a), keep) else Get(m0, a)
    {
      assert Get(m, a) == if a in addresses[cut..] then map[] else Get(m0, a);
    }
  }

  /** Draining whole accounts is also a drain that trims the next one by nothing. */
  lemma WholeIsFrom(m0: Lists, addresses: seq<Address>, cut: nat, m: Lists) returns (keep: nat)
    requires cut <= |addresses| && DrainedWhole(m0, addresses, cut, m)
    ensures DrainedFrom(m0, addresses, cut, keep, m)
    ensures cut > 0 && addresses[cut - 1] in m0 && Get(m0, addresses[cut - 1]) != map[] ==> keep > 0
  {
    keep := if cut > 0 then |Get(m0, addresses[cut - 1])| else 0;
    hide Lowest;
    forall a
      ensures Get(m, a) == if a in addresses[cut..] then map[]
                           else if cut > 0 && a == addresses[cut - 1] then Lowest(Get(m0, a), keep) else Get(m0, a)
    {
      assert Get(m, a) == if a in addresses[cut..] then map[] else Get(m0, a);
    }
  }

  lemma TotalWithout(m: Lists, a: Address)
    requires a in m
    ensures Total(m - {a}) == Total(m) - |m[a]|
  {
    SetSum.SumRemove(m.Keys, LenOf(m), a);
    assert (m - {a}).Keys == m.Keys - {a};
    SetSum.SumSame(m.Keys - {a}, LenOf(m), LenOf(m - {a}));
  }

  lemma TotalReplace(m: Lists, a: Address, l: Txs)
    requires a in m
    ensures Total(m[a := l]) == Total(m) - |m[a]| + |l|
  {
    var m' := m[a := l];
    assert m'.Keys == m.Keys;
    SetSum.SumChange(m.Keys, LenOf(m), LenOf(m'), a);
  }

  /** Locals are never drained, so their transactions are a lower bound; when all others are
      drained they are all that is left. */
  lemma LocalsRemain(m0: Lists, locals: set<Address>, m: Lists)
    requires WellListed(m0) && WellListed(m) && forall a :: a in locals ==> Get(m, a) == Get(m0, a)
    ensures Total(m) >= LocalTotal(m0, locals)
    ensures (forall a :: a !in locals ==> Get(m, a) == map[]) ==> Total(m) == LocalTotal(m0, locals)
  {
    var mine, others := m.Keys * locals, m.Keys - locals;
    forall a
      ensures a in locals ==> (a in m <==> a in m0)
    {
      assert a in m ==> Get(m, a) != map[];
      assert a in m0 ==> Get(m0, a) != map[];
    }
    assert mine == m0.Keys * locals;
    SetSum.SumSame(mine, LenOf(m), LenOf(m0));
    assert m.Keys == mine + others;
    SetSum.SumUnion(mine, others, LenOf(m));
    SumNonneg(m, others);
    if forall a :: a !in locals ==> Get(m, a) == map[] {
      assert others == {} by {
        assert forall a :: a in others ==> Get(m, a) != map[];
      }
    }
  }

  lemma {:induction false} SumNonneg(m: Lists, s: set<Address>)
    ensures SetSum.Sum(s, LenOf(m)) >= 0
  {
    if s != {} {
      var a :| a in s;
      SetSum.SumRemove(s, LenOf(m), a);
      SumNonneg(m, s - {a});
    }
  }

  /** Lists the accounts of a set by ascending heartbeat. */
  method SortByHeartbeat(m: Lists, locals: set<Address>, beats: map<Address, int>) returns (addresses: seq<Address>)
    ensures ByHeartbeat(m, locals, beats, addresses)
  {
    var todo := m.Keys - locals;
    ghost var whole := todo;
    var list: seq<Address> := [];
    while todo != {}
      invariant todo <= whole
      invariant forall a :: multiset(list)[a] == if a in whole - todo then 1 else 0
      decreases todo
    {
      var a :| a in todo;
      todo := todo - {a};
      list := list + [a];
    }
    addresses := Heap.Sort(list, BeatOf(beats));
    forall a
      ensures a in addresses <==> a in m && a !in locals
    {
      assert a in addresses <==> a in multiset(addresses);
      assert multiset(addresses)[a] == multiset(list)[a];
    }
    forall i, j | 0 <= i < j < |addresses|
      ensures addresses[i] != addresses[j]
    {
      assert multiset(addresses)[addresses[i]] <= 1;
      Heap.TwiceCounts(addresses, i, j);
    }
  }

  // ----- the intervals through truncation -----

  lemma LowestOfInterval(m: Txs, lo: nat, hi: nat, k: nat) returns (hi': nat)
    requires IsInterval(m, lo, hi) && lo <= hi && k >= 1
    ensures lo <= hi' <= hi && IsInterval(Lowest(m, k), lo, hi') && (hi' == lo <==> hi == lo)
  {
    var l := Lowest(m, k);
    hide Lowest;
    if l == map[] {
      assert m == map[] by {
        assert |l| == 0;
      }
      assert hi > lo ==> lo in m;
      hi' := lo;
    } else {
      hi' := MaxKey(l) + 1;
      hide MaxKey;
      forall n
        ensures n in l <==> lo <= n < hi'
      {
        if lo <= n < hi' {
          assert n in m && MaxKey(l) in l;
        }
      }
    }
  }

  /** The virtual nonces after the last step of a reorg run. */
  ghost predicate NoncesUpdated(nonces: map<Address, nat>, pending: Lists, noncer: map<Address, nat>,
                                noncer': map<Address, nat>) {
    forall a :: Virtual(noncer', nonces, a) == if Get(pending, a) == map[] then Virtual(noncer, nonces, a)
                                               else MaxKey(Get(pending, a)) + 1
  }

  /** A settled view, truncated fairly and with the nonces updated, is made of intervals. */
  lemma TruncationIntervals(env: Env, v: View, pending: Lists, queue: Lists, noncer: map<Address, nat>,
                            noncer': map<Address, nat>,
                            locals: set<Address>, level: nat)
    requires Settled(env, v) && WellListed(v.pending) && level >= 1
    requires AtLevel(v.pending, locals, level, pending) || pending == v.pending
    requires forall a, n :: n in Get(queue, a) ==> n in Get(v.queue, a)
    requires forall a :: a !in v.pending ==> Virtual(noncer, env.nonces, a) == Virtual(v.noncer, env.nonces, a)
    requires NoncesUpdated(env.nonces, pending, noncer, noncer')
    ensures Intervals(pending, queue, noncer', env.nonces)
  {
    hide AccountInterval, MaxKey, Lowest, WellListed, Virtual;
    forall a
      ensures AccountInterval(Get(pending, a), Get(queue, a), NonceOf(env.nonces, a), Virtual(noncer', env.nonces, a))
    {
      var p0, q0, sn := Get(v.pending, a), Get(v.queue, a), NonceOf(env.nonces, a);
      assert SettledAt(env, v, a);
      var top :| AccountInterval(p0, q0, sn, top) && (top == sn ==> Virtual(v.noncer, env.nonces, a) == top);
      var whole := pending == v.pending || a in locals;
      NoList(v.pending, a);
      TruncatedAccount(p0, q0, sn, top, Get(pending, a), Get(queue, a), if whole then |p0| else level,
                       Virtual(noncer, env.nonces, a));
    }
  }

  lemma NoList(m: Lists, a: Address)
    requires WellListed(m)
    ensures Get(m, a) == map[] <==> a !in m
  {
  }

  /** One account's interval through truncation and the update of its virtual nonce. */
  lemma TruncatedAccount(p0: Txs, q0: Txs, sn: nat, top: nat, p: Txs, q: Txs, k: nat, vn: nat)
    requires AccountInterval(p0, q0, sn, top) && (forall n :: n in q ==> n in q0)
    requires p == p0 || (k >= 1 && p == Lowest(p0, k))
    requires p0 == map[] && top == sn ==> vn == sn
    ensures AccountInterval(p, q, sn, if p == map[] then vn else MaxKey(p) + 1)
  {
    var t := top;
    if p != p0 {
      t := LowestOfInterval(p0, sn, top, k);
    }
    TopIsLast(p0, sn, top);
    TopIsLast(p, sn, t);
  }

  lemma TopIsLast(p: Txs, lo: nat, hi: nat)
    requires IsInterval(p, lo, hi) && lo <= hi
    ensures p == map[] <==> hi == lo
    ensures p != map[] ==> MaxKey(p) + 1 == hi
  {
    if p == map[] {
      assert lo !in p;
    } else {
      var k := MaxKey(p);
      assert hi - 1 in p;
    }
  }

  lemma IntervalsSettle(env: Env, v: View)
    requires Intervals(v.pending, v.queue, v.noncer, env.nonces)
    ensures Settled(env, v)
  {
    hide AccountInterval;
    forall a
      ensures SettledAt(env, v, a)
    {
      assert AccountInterval(Get(v.pending, a), Get(v.queue, a), NonceOf(env.nonces, a),
                             Virtual(v.noncer, env.nonces, a));
    }
  }

  /** Where the water level leaves more than the limit, every remote account is down to its
      guarantee. */
  lemma WaterLevelLimits(m0: Lists, locals: set<Address>, guarantee: nat, limit: nat, level: nat, m: Lists)
    requires WaterLevel(m0, locals, guarantee, limit, level) && AtLevel(m0, locals, level, m)
    requires WellListed(m0) && WellListed(m) && guarantee >= 1
    ensures Total(m) <= limit || forall a :: a !in locals ==> |Get(m, a)| <= guarantee
  {
    TotalAtLevel(m0, locals, level, m);
    hide Lowest;
    forall a | a !in locals
      ensures |Get(m, a)| <= level
    {
      assert Get(m, a) == LevelList(m0, locals, level, a);
    }
  }
}

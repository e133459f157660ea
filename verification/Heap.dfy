/** Binary min-heaps over slices, as the transaction lists use them: elements are
    ordered by an integer key, and the children of position i are 2*i+1 and 2*i+2.
 */
module Heap {

  /** j is a child position of i. */
  predicate Child(i: int, j: int) {
    j == 2 * i + 1 || j == 2 * i + 2
  }

  /** Every parent at or above position lo is no greater than its children. */
  ghost predicate HeapFrom<T(!new)>(h: seq<T>, key: T -> int, lo: int) {
    forall i, j :: 0 <= i < |h| && 0 <= j < |h| && lo <= i && Child(i, j) ==> key(h[i]) <= key(h[j])
  }

  ghost predicate IsHeap<T(!new)>(h: seq<T>, key: T -> int) {
    HeapFrom(h, key, 0)
  }

  /** A heap from lo on, except that the element at k may be out of order. */
  ghost predicate HeapBut<T(!new)>(h: seq<T>, key: T -> int, lo: int, k: int) {
    && (forall i, j :: 0 <= i < |h| && 0 <= j < |h| && lo <= i && i != k && j != k && Child(i, j)
                       ==> key(h[i]) <= key(h[j]))
    && (forall i, j :: 0 <= i < |h| && 0 <= j < |h| && lo <= i && Child(i, k) && Child(k, j)
                       ==> key(h[i]) <= key(h[j]))
  }

  /** The element at k is no greater than its children. */
  ghost predicate BelowChildren<T(!new)>(h: seq<T>, key: T -> int, k: int)
    requires 0 <= k < |h|
  {
    forall j :: 0 <= j < |h| && Child(k, j) ==> key(h[k]) <= key(h[j])
  }

  /** The element at k is no smaller than a parent at or above position lo. */
  ghost predicate AboveParent<T(!new)>(h: seq<T>, key: T -> int, lo: int, k: int)
    requires 0 <= k < |h|
  {
    forall p :: 0 <= p < |h| && lo <= p && Child(p, k) ==> key(h[p]) <= key(h[k])
  }

  /** An element in order with its parent and its children was the last out of order. */
  lemma InOrder<T(!new)>(h: seq<T>, key: T -> int, lo: int, k: int)
    requires 0 <= k < |h| && HeapBut(h, key, lo, k) && AboveParent(h, key, lo, k) && BelowChildren(h, key, k)
    ensures HeapFrom(h, key, lo)
  {
  }

  function Swap<T>(h: seq<T>, i: nat, j: nat): (r: seq<T>)
    requires i < |h| && j < |h|
    ensures |r| == |h| && r[i] == h[j] && r[j] == h[i]
    ensures forall k :: 0 <= k < |h| && k != i && k != j ==> r[k] == h[k]
    ensures multiset(r) == multiset(h)
  {
    h[i := h[j]][j := h[i]]
  }

  /** The root of a heap is a minimum of it. */
  lemma {:induction false} RootIsMin<T(!new)>(h: seq<T>, key: T -> int, k: nat)
    requires IsHeap(h, key)
    requires k < |h|
    ensures key(h[0]) <= key(h[k])
  {
    if k > 0 {
      var p := (k - 1) / 2;
      assert Child(p, k);
      RootIsMin(h, key, p);
    }
  }

  /** Swapping a smaller child with its parent moves the disorder up. */
  lemma UpStep<T(!new)>(h: seq<T>, key: T -> int, i: nat, j: nat)
    requires i < j < |h| && Child(i, j)
    requires HeapBut(h, key, 0, j) && BelowChildren(h, key, j)
    requires key(h[j]) < key(h[i])
    ensures HeapBut(Swap(h, i, j), key, 0, i) && BelowChildren(Swap(h, i, j), key, i)
  {
    var r := Swap(h, i, j);
    assert BelowChildren(r, key, i);
    forall p, c | 0 <= p < |h| && 0 <= c < |h| && p != i && c != i && Child(p, c)
      ensures key(r[p]) <= key(r[c])
    {
    }
    forall p, c | 0 <= p < |h| && 0 <= c < |h| && Child(p, i) && Child(i, c)
      ensures key(r[p]) <= key(r[c])
    {
      assert key(h[p]) <= key(h[i]);
    }
  }

  /** Swapping a greater parent with its smallest child moves the disorder down. */
  lemma DownStep<T(!new)>(h: seq<T>, key: T -> int, lo: nat, i: nat, j: nat)
    requires lo <= i < j < |h| && Child(i, j)
    requires HeapBut(h, key, lo, i)
    requires key(h[j]) < key(h[i])
    requires forall c :: 0 <= c < |h| && Child(i, c) ==> key(h[j]) <= key(h[c])
    ensures HeapBut(Swap(h, i, j), key, lo, j)
    ensures AboveParent(Swap(h, i, j), key, lo, j)
  {
    var r := Swap(h, i, j);
    forall p, c | 0 <= p < |h| && 0 <= c < |h| && lo <= p && p != j && c != j && Child(p, c)
      ensures key(r[p]) <= key(r[c])
    {
      assert p != i && c != i ==> key(h[p]) <= key(h[c]);
      assert c == i ==> Child(p, i);
    }
    forall p, c | 0 <= p < |h| && 0 <= c < |h| && lo <= p && Child(p, j) && Child(j, c)
      ensures key(r[p]) <= key(r[c])
    {
      assert p == i;
    }
  }

  /** Moves the element at j up until its parent is no greater. */
  method Up<T(!new)>(s: seq<T>, key: T -> int, at: nat) returns (h: seq<T>)
    requires at < |s|
    requires HeapBut(s, key, 0, at) && BelowChildren(s, key, at)
    ensures IsHeap(h, key)
    ensures multiset(h) == multiset(s) && |h| == |s|
  {
    h := s;
    var j: nat := at;
    while j != 0 && key(h[j]) < key(h[(j - 1) / 2])
      invariant j < |h| == |s|
      invariant HeapBut(h, key, 0, j) && BelowChildren(h, key, j)
      invariant multiset(h) == multiset(s)
      decreases j
    {
      var i := (j - 1) / 2;
      UpStep(h, key, i, j);
      h := Swap(h, i, j);
      j := i;
    }
    assert j != 0 ==> Child((j - 1) / 2, j);
  }

  /** Moves the element at `at` down until its children are no smaller. */
  method Down<T(!new)>(s: seq<T>, key: T -> int, at: nat, ghost lo: nat) returns (h: seq<T>, moved: bool)
    requires lo <= at < |s|
    requires HeapBut(s, key, lo, at)
    ensures moved ==> HeapFrom(h, key, lo)
    ensures !moved ==> h == s && BelowChildren(h, key, at)
    ensures multiset(h) == multiset(s) && |h| == |s|
  {
    hide HeapBut, HeapFrom, AboveParent, Swap;
    h := s;
    var i := at;
    while 2 * i + 1 < |h|
      invariant at <= i < |h| == |s|
      invariant HeapBut(h, key, lo, i)
      invariant i == at ==> h == s
      invariant i > at ==> AboveParent(h, key, lo, i)
      invariant multiset(h) == multiset(s)
      decreases |h| - i
    {
      var j := 2 * i + 1;
      if j + 1 < |h| && key(h[j + 1]) < key(h[j]) {
        j := j + 1;
      }
      if key(h[i]) <= key(h[j]) {
        break;
      }
      DownStep(h, key, lo, i, j);
      h := Swap(h, i, j);
      i := j;
    }
    assert BelowChildren(h, key, i);
    moved := i > at;
    if moved {
      InOrder(h, key, lo, i);
    }
  }

  method Push<T(!new)>(s: seq<T>, key: T -> int, x: T) returns (h: seq<T>)
    requires IsHeap(s, key)
    ensures IsHeap(h, key)
    ensures multiset(h) == multiset(s) + multiset{x} && |h| == |s| + 1
  {
    h := s + [x];
    h := Up(h, key, |s|);
  }

  method Pop<T(!new)>(s: seq<T>, key: T -> int) returns (x: T, h: seq<T>)
    requires IsHeap(s, key) && |s| > 0
    ensures x == s[0]
    ensures IsHeap(h, key)
    ensures multiset(s) == multiset(h) + multiset{x} && |h| == |s| - 1
  {
    x, h := RemoveAt(s, key, 0);
  }

  method RemoveAt<T(!new)>(s: seq<T>, key: T -> int, at: nat) returns (x: T, h: seq<T>)
    requires IsHeap(s, key) && at < |s|
    ensures x == s[at]
    ensures IsHeap(h, key)
    ensures multiset(s) == multiset(h) + multiset{x} && |h| == |s| - 1
  {
    var n := |s| - 1;
    var t := Swap(s, at, n);
    x, h := t[n], t[..n];
    assert t == h + [x];
    if at < n {
      assert HeapBut(h, key, 0, at) by { ShortcutOverChild(s, key, at); }
      var moved;
      h, moved := Down(h, key, at, 0);
      if !moved {
        h := Up(h, key, at);
      }
    }
  }

  /** In a heap a parent of `at` is no greater than any child of `at`. */
  lemma ShortcutOverChild<T(!new)>(s: seq<T>, key: T -> int, at: nat)
    requires IsHeap(s, key) && at < |s|
    ensures forall i, j :: 0 <= i < |s| && 0 <= j < |s| && Child(i, at) && Child(at, j) ==> key(s[i]) <= key(s[j])
  {
  }

  method Init<T(!new)>(s: seq<T>, key: T -> int) returns (h: seq<T>)
    ensures IsHeap(h, key)
    ensures multiset(h) == multiset(s) && |h| == |s|
  {
    h := s;
    var i := |h| / 2;
    while i > 0
      invariant 0 <= i <= |h| / 2 && |h| == |s|
      invariant HeapFrom(h, key, i)
      invariant multiset(h) == multiset(s)
    {
      i := i - 1;
      var moved;
      h, moved := Down(h, key, i, i);
    }
  }

  ghost predicate Ascending<T(!new)>(s: seq<T>, key: T -> int) {
    forall i, j :: 0 <= i < j < |s| ==> key(s[i]) <= key(s[j])
  }

  /** Sorts a slice by key. */
  method Sort<T(!new)>(s: seq<T>, key: T -> int) returns (r: seq<T>)
    ensures Ascending(r, key)
    ensures multiset(r) == multiset(s) && |r| == |s|
  {
    r := [];
    for i := 0 to |s|
      invariant Ascending(r, key)
      invariant multiset(r) == multiset(s[..i]) && |r| == i
    {
      r := Insert(r, key, s[i]);
      assert s[..i + 1] == s[..i] + [s[i]];
    }
    assert s[..|s|] == s;
  }

  method Insert<T(!new)>(s: seq<T>, key: T -> int, x: T) returns (r: seq<T>)
    requires Ascending(s, key)
    ensures Ascending(r, key)
    ensures multiset(r) == multiset(s) + multiset{x} && |r| == |s| + 1
  {
    var k := |s|;
    while k > 0 && key(x) < key(s[k - 1])
      invariant 0 <= k <= |s|
      invariant forall i :: k <= i < |s| ==> key(x) < key(s[i])
    {
      k := k - 1;
    }
    r := InsertAt(s, x, k);
    InsertAscending(s, key, x, k);
  }

  function InsertAt<T>(s: seq<T>, x: T, k: nat): (r: seq<T>)
    requires k <= |s|
    ensures multiset(r) == multiset(s) + multiset{x} && |r| == |s| + 1
  {
    assert s == s[..k] + s[k..];
    s[..k] + [x] + s[k..]
  }

  lemma InsertAscending<T(!new)>(s: seq<T>, key: T -> int, x: T, k: nat)
    requires Ascending(s, key) && k <= |s|
    requires k > 0 ==> key(s[k - 1]) <= key(x)
    requires forall i :: k <= i < |s| ==> key(x) < key(s[i])
    ensures Ascending(InsertAt(s, x, k), key)
  {
    var r := InsertAt(s, x, k);
    forall i, j | 0 <= i < j < |r|
      ensures key(r[i]) <= key(r[j])
    {
      var a := if i < k then i else i - 1;
      var b := if j < k then j else j - 1;
      if i != k && j != k {
        assert r[i] == s[a] && r[j] == s[b];
      } else if j == k {
        assert r[i] == s[i] && key(s[i]) <= key(s[k - 1]);
      } else {
        assert r[j] == s[b];
      }
    }
  }

  /** A value at two places of a sequence is there twice. */
  lemma TwiceCounts<T>(s: seq<T>, i: nat, j: nat)
    requires i < j < |s|
    ensures s[i] == s[j] ==> multiset(s)[s[i]] >= 2
  {
    assert s == s[..j] + s[j..];
    assert s[i] in s[..j] && s[j] in s[j..];
  }
}

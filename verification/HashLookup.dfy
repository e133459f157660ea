/** The BLOCKHASH lookup: a closure that walks parent links and remembers what it saw. */
module HashLookup {
  import opened Transactions
  import opened Ancestry

  /** 64-bit subtraction. */
  function Sub(x: int, y: int): int {
    if x - y >= 0 then x - y else x - y + MAX_UINT64 + 1
  }

  /** The hash k+1 parent links below ref, as far as the headers are available. */
  function Walk(headers: Headers, ref: Header, k: nat): (h: Option<Hash>) {
    if k == 0 then Some(ref.parent)
    else
      var child := Walk(headers, ref, k - 1);
      if child.Some? && child.value in headers && headers[child.value].number == ref.number - k
      then Some(headers[child.value].parent) else None
  }

  /** With complete ancestry the walk is the ancestor at that height. */
  lemma {:induction false} WalkIsAncestor(headers: Headers, genesis: Hash, ref: Header, k: nat)
    requires Rooted(headers, genesis) && ref.number > k
    requires ref.parent in headers && headers[ref.parent].number == ref.number - 1
    ensures Walk(headers, ref, k) == Some(AncestorAt(headers, genesis, ref.parent, ref.number - 1 - k))
  {
    hide Rooted;
    if k > 0 {
      WalkIsAncestor(headers, genesis, ref, k - 1);
      AncestorLink(headers, genesis, ref.parent, ref.number - 1 - k);
    }
  }

  class HashFn {
    const headers: Headers
    const ref: Header
    var cache: seq<Hash>

    /** The cache is a prefix of the walk. */
    ghost predicate Valid()
      reads this
    {
      && ref.number < MAX_UINT64 && (forall h :: h in headers ==> headers[h].number < MAX_UINT64)
      && |cache| <= ref.number + 1
      && forall i :: 0 <= i < |cache| ==> Walk(headers, ref, i) == Some(cache[i])
    }

    constructor (headers: Headers, ref: Header)
      requires ref.number < MAX_UINT64 && forall h :: h in headers ==> headers[h].number < MAX_UINT64
      ensures Valid() && this.headers == headers && this.ref == ref
    {
      this.headers, this.ref, cache := headers, ref, [];
    }

    /** For a number below the reference block, the answer of the plain walk, whatever was
        asked before; nothing where the ancestry is incomplete. */
    method Get(n: Uint64) returns (r: Option<Hash>)
      requires Valid()
      modifies this
      ensures Valid()
      ensures n < ref.number ==> r == Walk(headers, ref, ref.number - 1 - n)
      ensures old(cache) <= cache
    {
      if |cache| == 0 {
        cache := [ref.parent];
      }
      var idx := Sub(ref.number, n + 1);
      if idx < |cache| {
        return Some(cache[idx]);
      }
      var lastKnownHash := cache[|cache| - 1];
      var lastKnownNumber := Sub(ref.number, |cache|);
      ghost var start := cache;
      while lastKnownHash in headers && headers[lastKnownHash].number == lastKnownNumber
        invariant Valid() && |cache| > 0 && start <= cache
        invariant lastKnownHash == cache[|cache| - 1]
        invariant lastKnownNumber == Sub(ref.number, |cache|)
        invariant n < ref.number ==> |cache| <= ref.number - 1 - n
        decreases ref.number + 1 - |cache|
      {
        var header := headers[lastKnownHash];
        assert header.number < ref.number;
        cache := cache + [header.parent];
        lastKnownHash := header.parent;
        lastKnownNumber := Sub(header.number, 1);
        if n == lastKnownNumber {
          return Some(lastKnownHash);
        }
      }
      if n < ref.number {
        WalkStops(headers, ref, |cache|, ref.number - 1 - n);
      }
      return None;
    }
  }

  /** Once the walk cannot continue it stays undefined. */
  lemma {:induction false} WalkStops(headers: Headers, ref: Header, k: nat, m: nat)
    requires Walk(headers, ref, k).None? && k <= m
    ensures Walk(headers, ref, m).None?
    decreases m
  {
    if k < m {
      WalkStops(headers, ref, k, m - 1);
    }
  }
}

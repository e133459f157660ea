/** Header trees: what walking parent links means. */
module Ancestry {
  import opened Transactions

  datatype Header = Header(hash: Hash, parent: Hash, number: nat, difficulty: nat)

  type Headers = map<Hash, Header>

  /** Headers are stored under their hash and closed under parents, down to one genesis. */
  ghost predicate Rooted(headers: Headers, genesis: Hash) {
    && genesis in headers && headers[genesis].number == 0
    && (forall h :: h in headers ==> headers[h].hash == h)
    && (forall h :: h in headers && headers[h].number == 0 ==> h == genesis)
    && (forall h :: h in headers && headers[h].number > 0 ==> ParentStored(headers, h))
  }

  ghost predicate ParentStored(headers: Headers, h: Hash)
    requires h in headers
  {
    headers[h].parent in headers && headers[headers[h].parent].number == headers[h].number - 1
    && headers[h].difficulty > 0
  }

  /** The ancestor of h at height n, by walking parent links. */
  ghost function AncestorAt(headers: Headers, genesis: Hash, h: Hash, n: nat): (r: Hash)
    requires Rooted(headers, genesis) && h in headers && n <= headers[h].number
    ensures r in headers && headers[r].number == n
    decreases headers[h].number
  {
    if headers[h].number == n then h
    else
      assert ParentStored(headers, h);
      AncestorAt(headers, genesis, headers[h].parent, n)
  }

  /** Total difficulty: the sum of the difficulties from genesis to h. */
  ghost function TotalDifficulty(headers: Headers, genesis: Hash, h: Hash): nat
    requires Rooted(headers, genesis) && h in headers
    decreases headers[h].number
  {
    if headers[h].number == 0 then headers[h].difficulty
    else
      assert ParentStored(headers, h);
      headers[h].difficulty + TotalDifficulty(headers, genesis, headers[h].parent)
  }

  lemma {:induction false} AncestorLink(headers: Headers, genesis: Hash, h: Hash, n: nat)
    requires Rooted(headers, genesis) && h in headers && n < headers[h].number
    ensures headers[AncestorAt(headers, genesis, h, n + 1)].parent == AncestorAt(headers, genesis, h, n)
    decreases headers[h].number
  {
    assert ParentStored(headers, h);
    if n + 1 < headers[h].number {
      AncestorLink(headers, genesis, headers[h].parent, n);
    }
  }

  lemma {:induction false} AncestorTransitive(headers: Headers, genesis: Hash, h: Hash, m: nat, n: nat)
    requires Rooted(headers, genesis) && h in headers && n <= m <= headers[h].number
    ensures AncestorAt(headers, genesis, AncestorAt(headers, genesis, h, m), n) == AncestorAt(headers, genesis, h, n)
    decreases headers[h].number
  {
    if m < headers[h].number {
      assert ParentStored(headers, h);
      AncestorTransitive(headers, genesis, headers[h].parent, m, n);
    }
  }

  /** Adding headers changes no walk and no total difficulty. */
  lemma {:induction false} AncestorStable(headers: Headers, more: Headers, genesis: Hash, h: Hash, n: nat)
    requires Rooted(headers, genesis) && Rooted(more, genesis) && h in headers && n <= headers[h].number
    requires forall x :: x in headers ==> x in more && more[x] == headers[x]
    ensures AncestorAt(more, genesis, h, n) == AncestorAt(headers, genesis, h, n)
    ensures TotalDifficulty(more, genesis, h) == TotalDifficulty(headers, genesis, h)
    decreases headers[h].number
  {
    if headers[h].number > 0 {
      assert ParentStored(headers, h);
      AncestorStable(headers, more, genesis, headers[h].parent, if n < headers[h].number then n else 0);
    }
  }

  /** Along a walk the total difficulty strictly falls. */
  lemma {:induction false} DifficultyFalls(headers: Headers, genesis: Hash, h: Hash, n: nat)
    requires Rooted(headers, genesis) && h in headers && n <= headers[h].number
    ensures TotalDifficulty(headers, genesis, AncestorAt(headers, genesis, h, n)) <= TotalDifficulty(headers, genesis,
                                                                                                     h)
    ensures n < headers[h].number ==>
              TotalDifficulty(headers, genesis, AncestorAt(headers, genesis, h, n)) < TotalDifficulty(headers,
                                                                                                      genesis, h)
    decreases headers[h].number
  {
    if n < headers[h].number {
      assert ParentStored(headers, h);
      DifficultyFalls(headers, genesis, headers[h].parent, n);
    }
  }
}

/** Block indexes linked to their parents (src/main.h: CBlockIndex::pprev, nHeight). */
module BlockTree {
  import opened Common

  type Hash = nat

  datatype Index = Index(nHeight: nat, pprev: Option<Hash>)

  type Tree = map<Hash, Index>

  /** Every parent is known and one lower; only blocks at height 0 have none. */
  predicate Sound(t: Tree) {
    forall h :: h in t ==> Linked(t, h)
  }

  predicate Linked(t: Tree, h: Hash)
    requires h in t
  {
    match t[h].pprev
    case None => t[h].nHeight == 0
    case Some(p) => p in t && t[h].nHeight == t[p].nHeight + 1
  }

  /** The block at height `n` on the way from `h` to the root. */
  function AncestorAt(t: Tree, h: Hash, n: nat): (r: Hash)
    requires Sound(t) && h in t && n <= t[h].nHeight
    ensures r in t && t[r].nHeight == n
    decreases t[h].nHeight
  {
    assert Linked(t, h);
    if t[h].nHeight == n then h else AncestorAt(t, t[h].pprev.value, n)
  }

  /** `a` is `b` or one of the blocks under it. */
  predicate Ancestor(t: Tree, a: Hash, b: Hash)
    requires Sound(t)
  {
    a in t && b in t && t[a].nHeight <= t[b].nHeight && AncestorAt(t, b, t[a].nHeight) == a
  }

  lemma {:induction false} AncestorStep(t: Tree, h: Hash, m: nat, n: nat)
    requires Sound(t) && h in t && n <= m <= t[h].nHeight
    ensures AncestorAt(t, AncestorAt(t, h, m), n) == AncestorAt(t, h, n)
    decreases t[h].nHeight
  {
    assert Linked(t, h);
    if t[h].nHeight > m { AncestorStep(t, t[h].pprev.value, m, n); }
  }

  lemma AncestorTransitive(t: Tree, a: Hash, b: Hash, c: Hash)
    requires Sound(t) && Ancestor(t, a, b) && Ancestor(t, b, c)
    ensures Ancestor(t, a, c)
  {
    AncestorStep(t, c, t[b].nHeight, t[a].nHeight);
  }

  /** Two ancestors of one block are on one branch. */
  lemma AncestorsComparable(t: Tree, a: Hash, b: Hash, c: Hash)
    requires Sound(t) && Ancestor(t, a, c) && Ancestor(t, b, c) && t[a].nHeight <= t[b].nHeight
    ensures Ancestor(t, a, b)
  {
    AncestorStep(t, c, t[b].nHeight, t[a].nHeight);
  }

  lemma SelfAncestor(t: Tree, a: Hash)
    requires Sound(t) && a in t
    ensures Ancestor(t, a, a)
  {
  }

  /** New blocks leave the old ones where they are. */
  predicate Grows(t: Tree, u: Tree) { forall h :: h in t ==> h in u && u[h] == t[h] }

  lemma {:induction false} GrowsKeepsAt(t: Tree, u: Tree, h: Hash, n: nat)
    requires Sound(t) && Sound(u) && Grows(t, u) && h in t && n <= t[h].nHeight
    ensures AncestorAt(u, h, n) == AncestorAt(t, h, n)
    decreases t[h].nHeight
  {
    assert Linked(t, h);
    if t[h].nHeight > n { GrowsKeepsAt(t, u, t[h].pprev.value, n); }
  }

  lemma GrowsKeeps(t: Tree, u: Tree, a: Hash, b: Hash)
    requires Sound(t) && Sound(u) && Grows(t, u) && Ancestor(t, a, b)
    ensures Ancestor(u, a, b)
  {
    GrowsKeepsAt(t, u, b, t[a].nHeight);
  }

  /** Where both indexes know a block they tell the same of it. */
  predicate Agrees(t: Tree, u: Tree) { forall h :: h in t && h in u ==> u[h] == t[h] }

  /** An index that knows a block knows all blocks under it. */
  lemma {:induction false} AgreesKeepsAt(t: Tree, u: Tree, h: Hash, n: nat)
    requires Sound(t) && Sound(u) && Agrees(t, u) && h in t && h in u && n <= t[h].nHeight
    ensures AncestorAt(u, h, n) == AncestorAt(t, h, n)
    decreases t[h].nHeight
  {
    assert Linked(t, h) && Linked(u, h);
    if t[h].nHeight > n { AgreesKeepsAt(t, u, t[h].pprev.value, n); }
  }

  lemma AgreesKeeps(t: Tree, u: Tree, a: Hash, b: Hash)
    requires Sound(t) && Sound(u) && Agrees(t, u) && b in u && Ancestor(t, a, b)
    ensures Ancestor(u, a, b)
  {
    AgreesKeepsAt(t, u, b, t[a].nHeight);
  }

  /** Follow the parents down to height `n`: the loops of src/checkpoints.cpp:374-375, 497-499,
      512-514 and 635-637; in a sound tree the null check never fires. */
  method TraceBack(t: Tree, start: Hash, n: nat) returns (p: Hash)
    requires Sound(t) && start in t
    ensures p in t
    ensures n <= t[start].nHeight ==> p == AncestorAt(t, start, n)
    ensures t[start].nHeight < n ==> p == start
  {
    p := start;
    while t[p].nHeight > n
      invariant p in t
      invariant n <= t[start].nHeight ==> n <= t[p].nHeight && AncestorAt(t, p, n) == AncestorAt(t, start, n)
      invariant t[start].nHeight < n ==> p == start
      decreases t[p].nHeight
    {
      assert Linked(t, p);
      p := t[p].pprev.value;
    }
  }
}

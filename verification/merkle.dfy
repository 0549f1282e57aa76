/** Merkle trees of a block and their branches (src/core.cpp:236-284). */
module Merkle {

  type Hash = nat

  /** The hash of two hashes. */
  datatype Hasher = Hasher(pair: (Hash, Hash) -> Hash) {
    ghost predicate Injective() {
      forall a, b, c, d :: pair(a, b) == pair(c, d) ==> a == c && b == d
    }
  }

  function Min(a: nat, b: nat): nat { if a < b then a else b }

  /** The level above: neighbours are hashed together, a last one without a neighbour with itself. */
  function Up(h: Hasher, s: seq<Hash>): (r: seq<Hash>)
    ensures |r| == (|s| + 1) / 2
  {
    seq((|s| + 1) / 2, (i: nat) requires i < (|s| + 1) / 2 => Paired(h, s, i))
  }

  function Paired(h: Hasher, s: seq<Hash>, i: nat): Hash
    requires 2 * i < |s|
  {
    h.pair(s[2 * i], s[Min(2 * i + 1, |s| - 1)])
  }

  function Root(h: Hasher, s: seq<Hash>): Hash
    decreases |s|
  {
    if s == [] then 0 else if |s| == 1 then s[0] else Root(h, Up(h, s))
  }

  /** All levels one after another. */
  function Flat(h: Hasher, s: seq<Hash>): (r: seq<Hash>)
    decreases |s|
  {
    if |s| <= 1 then s else s + Flat(h, Up(h, s))
  }

  /** The partner of each node on the way up from leaf `n`; beyond the last leaf, the last node. */
  function Branch(h: Hasher, s: seq<Hash>, n: nat): (r: seq<Hash>)
    ensures |r| == Height(|s|)
    decreases |s|
  {
    if |s| <= 1 then [] else [s[Min(Flipped(n), |s| - 1)]] + Branch(h, Up(h, s), n / 2)
  }

  /** n ^ 1 */
  function Flipped(n: nat): nat { if n % 2 == 0 then n + 1 else n - 1 }

  function Height(n: nat): nat { if n <= 1 then 0 else 1 + Height((n + 1) / 2) }

  /** One step up from node `n` with the hash `other` beside it. */
  function Joined(h: Hasher, hash: Hash, other: Hash, n: int): Hash {
    if n % 2 == 1 then h.pair(other, hash) else h.pair(hash, other)
  }

  function Fold(h: Hasher, hash: Hash, branch: seq<Hash>, n: int): Hash
    decreases |branch|
  {
    if branch == [] then hash
    else Fold(h, Joined(h, hash, branch[0], n), branch[1..], n / 2)
  }

  // --- The tree, from the top -----------------------------------------------------------------

  function Width(n: nat, level: nat): nat { if level == 0 then n else (Width(n, level - 1) + 1) / 2 }

  /** The hash of the subtree of the given height that has leaf `i * 2^level` at its left. */
  function Node(h: Hasher, s: seq<Hash>, level: nat, i: nat): Hash
    requires i < Width(|s|, level)
    decreases level
  {
    if level == 0 then s[i]
    else h.pair(Node(h, s, level - 1, 2 * i), Node(h, s, level - 1, Min(2 * i + 1, Width(|s|, level - 1) - 1)))
  }

  lemma {:induction false} WidthUp(n: nat, level: nat)
    ensures Width((n + 1) / 2, level) == Width(n, level + 1)
    decreases level
  {
    if level > 0 { WidthUp(n, level - 1); }
  }

  lemma {:induction false} NodeUp(h: Hasher, s: seq<Hash>, level: nat, i: nat)
    requires i < Width(|s|, level + 1)
    ensures Width(|Up(h, s)|, level) == Width(|s|, level + 1) && Node(h, Up(h, s), level, i) == Node(h, s, level + 1, i)
    decreases level
  {
    hide Node, Width;
    var n := |s|;
    WidthUp(n, level);
    WidthStep(n, level + 1);
    WidthStep(n, 0);
    if level == 0 {
      NodeLeaf(h, Up(h, s), i);
      NodeStep(h, s, 1, i);
      NodeLeaf(h, s, 2 * i);
      NodeLeaf(h, s, Min(2 * i + 1, n - 1));
    } else {
      WidthUp(n, level - 1);
      WidthStep((n + 1) / 2, level);
      NodeStep(h, Up(h, s), level, i);
      NodeStep(h, s, level + 1, i);
      NodeUp(h, s, level - 1, 2 * i);
      NodeUp(h, s, level - 1, Min(2 * i + 1, Width(n, level) - 1));
    }
  }

  lemma WidthStep(n: nat, level: nat)
    ensures Width(n, level) == if level == 0 then n else (Width(n, level - 1) + 1) / 2
  {
  }

  lemma NodeLeaf(h: Hasher, s: seq<Hash>, i: nat)
    requires i < |s|
    ensures Width(|s|, 0) == |s| && Node(h, s, 0, i) == s[i]
  {
  }

  lemma NodeStep(h: Hasher, s: seq<Hash>, level: nat, i: nat)
    requires level > 0 && i < Width(|s|, level)
    ensures Width(|s|, level) == (Width(|s|, level - 1) + 1) / 2
    ensures Node(h, s, level, i) == h.pair(Node(h, s, level - 1, 2 * i), Node(h, s, level - 1, Min(2 * i + 1, Width(|s|, level - 1) - 1)))
  {
  }

  /** Hashing level by level ends in the top of the tree. */
  lemma {:induction false} RootIsTopNode(h: Hasher, s: seq<Hash>)
    requires s != []
    ensures Width(|s|, Height(|s|)) == 1 && Root(h, s) == Node(h, s, Height(|s|), 0)
    decreases |s|
  {
    hide Node, Width, Up, Root;
    RootStep(h, s);
    if |s| > 1 {
      var k := Height(|s|) - 1;
      RootIsTopNode(h, Up(h, s));
      WidthUp(|s|, k);
      NodeUp(h, s, k, 0);
    } else {
      NodeLeaf(h, s, 0);
    }
  }

  lemma RootStep(h: Hasher, s: seq<Hash>)
    ensures Root(h, s) == if s == [] then 0 else if |s| == 1 then s[0] else Root(h, Up(h, s))
  {
  }

  // --- Branches -------------------------------------------------------------------------------

  lemma BranchStep(h: Hasher, s: seq<Hash>, n: nat)
    requires |s| > 1
    ensures var b := Branch(h, s, n);
            b == [s[Min(Flipped(n), |s| - 1)]] + Branch(h, Up(h, s), n / 2) && b[1..] == Branch(h, Up(h, s), n / 2)
  {
  }

  lemma FoldStep(h: Hasher, hash: Hash, b: seq<Hash>, n: int)
    ensures Fold(h, hash, b, n) == if b == [] then hash else Fold(h, Joined(h, hash, b[0], n), b[1..], n / 2)
  {
  }

  lemma PartnerJoins(h: Hasher, s: seq<Hash>, n: nat)
    requires n < |s| && |s| > 1
    ensures n / 2 < |Up(h, s)| && Joined(h, s[n], s[Min(Flipped(n), |s| - 1)], n) == Up(h, s)[n / 2]
  {
  }

  /** A leaf with its branch leads to the root. */
  lemma {:induction false} BranchLeadsToRoot(h: Hasher, s: seq<Hash>, n: nat)
    requires n < |s|
    ensures Fold(h, s[n], Branch(h, s, n), n) == Root(h, s)
    decreases |s|
  {
    hide Up, Root, Fold, Branch, Joined;
    RootStep(h, s);
    FoldStep(h, s[n], Branch(h, s, n), n);
    if |s| > 1 {
      BranchStep(h, s, n);
      PartnerJoins(h, s, n);
      BranchLeadsToRoot(h, Up(h, s), n / 2);
    }
  }

  lemma JoinedInjective(h: Hasher, s: seq<Hash>, n: nat, hash: Hash, other: Hash)
    requires h.Injective() && n < |s| && |s| > 1
    ensures n / 2 < |Up(h, s)|
    ensures Joined(h, hash, other, n) == Up(h, s)[n / 2] <==> hash == s[n] && other == s[Min(Flipped(n), |s| - 1)]
  {
    PartnerJoins(h, s, n);
  }

  /** If no two pairs hash alike, a branch of the right length leads to the root only from the true
      leaf, and only the true branch does. */
  lemma {:induction false} OnlyTheLeafPasses(h: Hasher, s: seq<Hash>, n: nat, hash: Hash, branch: seq<Hash>)
    requires h.Injective() && n < |s| && |branch| == Height(|s|)
    ensures Fold(h, hash, branch, n) == Root(h, s) <==> hash == s[n] && branch == Branch(h, s, n)
    decreases |s|
  {
    hide Up, Root, Fold, Branch, Joined;
    RootStep(h, s);
    FoldStep(h, hash, branch, n);
    if |s| > 1 {
      BranchStep(h, s, n);
      JoinedInjective(h, s, n, hash, branch[0]);
      OnlyTheLeafPasses(h, Up(h, s), n / 2, Joined(h, hash, branch[0], n), branch[1..]);
      assert branch == [branch[0]] + branch[1..];
    }
  }

  class Block {
    const hasher: Hasher
    var vtx: seq<Hash>
    var vMerkleTree: seq<Hash>

    /** The tree is either not built or that of the transactions. */
    ghost predicate Valid()
      reads this
    {
      vMerkleTree == [] || vMerkleTree == Flat(hasher, vtx)
    }

    constructor (h: Hasher, txs: seq<Hash>)
      ensures Valid() && hasher == h && vtx == txs
    {
      hasher, vtx, vMerkleTree := h, txs, [];
    }

    // src/core.cpp:236-253
    method BuildMerkleTree() returns (root: Hash)
      modifies this`vMerkleTree
      ensures Valid() && vMerkleTree == Flat(hasher, vtx) && root == Root(hasher, vtx)
    {
      hide Flat, Root, Up;
      vMerkleTree := vtx;
      var j, nSize := 0, |vtx|;
      ghost var before: seq<Hash>, level := [], vtx;
      while nSize > 1
        invariant |level| == nSize && |before| == j && vMerkleTree == before + level
        invariant Flat(hasher, vtx) == before + Flat(hasher, level)
        decreases nSize
      {
        FlatStep(hasher, level);
        AddLevel(before, level, nSize, j);
        j := j + nSize;
        assert before + (level + Flat(hasher, Up(hasher, level))) == (before + level) + Flat(hasher, Up(hasher, level));
        before, level := before + level, Up(hasher, level);
        nSize := (nSize + 1) / 2;
      }
      FlatStep(hasher, level);
      FlatRoot(hasher, vtx);
      root := if vMerkleTree == [] then 0 else vMerkleTree[|vMerkleTree| - 1];
    }

    // src/core.cpp:244-249
    method AddLevel(ghost before: seq<Hash>, ghost level: seq<Hash>, nSize: nat, j: nat)
      requires |level| == nSize > 1 && |before| == j && vMerkleTree == before + level
      modifies this`vMerkleTree
      ensures vMerkleTree == before + level + Up(hasher, level)
    {
      hide Up;
      ghost var up := Up(hasher, level);
      var i := 0;
      while i < nSize
        invariant 0 <= i <= nSize + 1 && i % 2 == 0 && i / 2 <= |up|
        invariant vMerkleTree == before + level + up[..i / 2]
        decreases nSize - i
      {
        var i2 := Min(i + 1, nSize - 1);
        UpAt(hasher, level, i / 2);
        assert vMerkleTree[j + i] == level[i] && vMerkleTree[j + i2] == level[i2];
        assert up[..i / 2 + 1] == up[..i / 2] + [up[i / 2]];
        vMerkleTree := vMerkleTree + [hasher.pair(vMerkleTree[j + i], vMerkleTree[j + i2])];
        i := i + 2;
      }
      assert up[..i / 2] == up;
    }

    /** An index past the last transaction is taken as well (src/core.cpp:255-269). */
    method GetMerkleBranch(nIndex: nat) returns (vMerkleBranch: seq<Hash>)
      requires Valid()
      modifies this`vMerkleTree
      ensures Valid() && vMerkleBranch == Branch(hasher, vtx, nIndex)
    {
      hide Flat, Branch, Up, Root, Flipped, Min;
      if vMerkleTree == [] { var _ := BuildMerkleTree(); }
      vMerkleBranch := [];
      var j, nSize: nat, n := 0, |vtx|, nIndex;
      ghost var before: seq<Hash>, level := [], vtx;
      assert OnTheWay(hasher, vtx, vMerkleTree, before, level);
      while nSize > 1
        invariant |level| == nSize && |before| == j && OnTheWay(hasher, vtx, vMerkleTree, before, level)
        invariant Branch(hasher, vtx, nIndex) == vMerkleBranch + Branch(hasher, level, n)
        decreases nSize
      {
        PartnerAt(hasher, vtx, vMerkleTree, before, level, n);
        BranchAlong(hasher, vMerkleBranch, level, n);
        var i := Min(Flipped(n), nSize - 1);
        vMerkleBranch := vMerkleBranch + [vMerkleTree[j + i]];
        n := n / 2;
        j := j + nSize;
        before, level := before + level, Up(hasher, level);
        nSize := (nSize + 1) / 2;
      }
      BranchEnd(hasher, level, n);
    }
  }

  /** The flat list is split before one of its levels. */
  ghost predicate OnTheWay(h: Hasher, s: seq<Hash>, tree: seq<Hash>, before: seq<Hash>, level: seq<Hash>) {
    tree == Flat(h, s) && tree == before + Flat(h, level)
  }

  lemma PartnerAt(h: Hasher, s: seq<Hash>, tree: seq<Hash>, before: seq<Hash>, level: seq<Hash>, n: nat)
    requires OnTheWay(h, s, tree, before, level) && |level| > 1
    ensures var i := Min(Flipped(n), |level| - 1);
            i < |level| && |before| + i < |tree| && tree[|before| + i] == level[i]
    ensures OnTheWay(h, s, tree, before + level, Up(h, level))
  {
    hide Flat, Up;
    LevelAt(h, tree, before, level, Min(Flipped(n), |level| - 1));
  }

  lemma LevelAt(h: Hasher, tree: seq<Hash>, before: seq<Hash>, level: seq<Hash>, i: nat)
    requires tree == before + Flat(h, level) && i < |level| && |level| > 1
    ensures |before| + i < |tree| && tree[|before| + i] == level[i]
    ensures tree == (before + level) + Flat(h, Up(h, level))
  {
    hide Flat, Up;
    FlatStep(h, level);
  }

  lemma BranchAlong(h: Hasher, sofar: seq<Hash>, level: seq<Hash>, n: nat)
    requires |level| > 1
    ensures sofar + Branch(h, level, n) == sofar + [level[Min(Flipped(n), |level| - 1)]] + Branch(h, Up(h, level), n / 2)
  {
    hide Branch, Up;
    BranchStep(h, level, n);
  }

  lemma FlatStep(h: Hasher, s: seq<Hash>)
    ensures Flat(h, s) == if |s| <= 1 then s else s + Flat(h, Up(h, s))
  {
  }

  /** The last hash of the list is the root. */
  lemma {:induction false} FlatRoot(h: Hasher, s: seq<Hash>)
    ensures Root(h, s) == if Flat(h, s) == [] then 0 else Flat(h, s)[|Flat(h, s)| - 1]
    decreases |s|
  {
    hide Up, Root, Flat;
    RootStep(h, s);
    FlatStep(h, s);
    if |s| > 1 {
      FlatRoot(h, Up(h, s));
      FlatStep(h, Up(h, s));
    }
  }

  lemma UpAt(h: Hasher, s: seq<Hash>, i: nat)
    requires 2 * i < |s|
    ensures i < |Up(h, s)| && Up(h, s)[i] == h.pair(s[2 * i], s[Min(2 * i + 1, |s| - 1)])
  {
  }

  lemma BranchEnd(h: Hasher, s: seq<Hash>, n: nat)
    requires |s| <= 1
    ensures Branch(h, s, n) == []
  {
  }

  // src/core.cpp:271-284
  method CheckMerkleBranch(h: Hasher, leaf: Hash, vMerkleBranch: seq<Hash>, nIndex: int) returns (hash: Hash)
    ensures hash == if nIndex == -1 then 0 else Fold(h, leaf, vMerkleBranch, nIndex)
  {
    if nIndex == -1 { return 0; }
    hide Fold;
    hash := leaf;
    var n, k := nIndex, 0;
    assert vMerkleBranch[0..] == vMerkleBranch;
    while k < |vMerkleBranch|
      invariant 0 <= k <= |vMerkleBranch|
      invariant Fold(h, hash, vMerkleBranch[k..], n) == Fold(h, leaf, vMerkleBranch, nIndex)
    {
      var otherside := vMerkleBranch[k];
      FoldStep(h, hash, vMerkleBranch[k..], n);
      if n % 2 == 1 { hash := h.pair(otherside, hash); } else { hash := h.pair(hash, otherside); }
      assert vMerkleBranch[k..][1..] == vMerkleBranch[k + 1..];
      n := n / 2;
      k := k + 1;
    }
    FoldStep(h, hash, [], n);
    assert vMerkleBranch[k..] == [];
  }
}

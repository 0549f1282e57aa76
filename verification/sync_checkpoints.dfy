/** The synchronized checkpoint as a state machine over the block tree
    (src/checkpoints.cpp:473-646, 849-901). */
module SyncCheckpoints {
  import opened Common
  import opened BlockTree

  const NoHash: Hash := 0

  /** `b` lies strictly above `a` on one branch. */
  predicate Descends(t: Tree, b: Hash, a: Hash)
    requires Sound(t)
  {
    Ancestor(t, a, b) && t[a].nHeight < t[b].nHeight
  }

  /** Neither is on the branch of the other. */
  predicate Conflict(t: Tree, a: Hash, b: Hash)
    requires Sound(t)
  {
    a in t && b in t && !Ancestor(t, a, b) && !Ancestor(t, b, a)
  }

  /** Every checkpoint written lies strictly above all those written before. */
  ghost predicate OneBranch(t: Tree, written: seq<Hash>)
    requires Sound(t)
  {
    && (forall i :: 0 <= i < |written| ==> written[i] in t)
    && (forall i, j :: 0 <= i < j < |written| ==> Descends(t, written[j], written[i]))
  }

  lemma DescendsTransitive(t: Tree, c: Hash, b: Hash, a: Hash)
    requires Sound(t) && Descends(t, c, b) && Descends(t, b, a)
    ensures Descends(t, c, a)
  {
    AncestorTransitive(t, a, b, c);
  }

  lemma OneBranchSnoc(t: Tree, written: seq<Hash>, h: Hash)
    requires Sound(t) && OneBranch(t, written) && h in t
    requires written != [] ==> Descends(t, h, written[|written| - 1])
    ensures OneBranch(t, written + [h])
  {
    hide Descends;
    var all := written + [h];
    var n := |written|;
    forall i, j | 0 <= i < j < |all|
      ensures Descends(t, all[j], all[i])
    {
      if j < n {
        assert Descends(t, written[j], written[i]);
      } else if i < n - 1 {
        assert Descends(t, written[n - 1], written[i]);
        DescendsTransitive(t, h, written[n - 1], written[i]);
      }
    }
  }

  lemma OneBranchGrows(t: Tree, u: Tree, written: seq<Hash>)
    requires Sound(t) && Sound(u) && Grows(t, u) && OneBranch(t, written)
    ensures OneBranch(u, written)
  {
    hide Ancestor;
    forall i, j | 0 <= i < j < |written|
      ensures Descends(u, written[j], written[i])
    {
      assert Descends(t, written[j], written[i]);
      GrowsKeeps(t, u, written[i], written[j]);
    }
  }

  /** The last of the checkpoints is above or at every other one, so all are ancestors of the newest. */
  lemma NewestIsAboveAll(t: Tree, written: seq<Hash>, i: nat)
    requires Sound(t) && OneBranch(t, written) && i < |written|
    ensures Ancestor(t, written[i], written[|written| - 1])
  {
    if i == |written| - 1 { SelfAncestor(t, written[i]); }
    else { assert Descends(t, written[|written| - 1], written[i]); }
  }

  /** What becomes of the checkpoints of a run under another block index: they stay on one branch
      exactly when that index knows the newest of them. */
  lemma SurviveIff(t: Tree, u: Tree, written: seq<Hash>)
    requires Sound(t) && Sound(u) && Agrees(t, u) && OneBranch(t, written) && written != []
    ensures OneBranch(u, written) <==> written[|written| - 1] in u
  {
    hide Ancestor;
    var newest := written[|written| - 1];
    if newest in u {
      forall i | 0 <= i < |written|
        ensures Ancestor(u, written[i], newest)
      {
        NewestIsAboveAll(t, written, i);
        AgreesKeeps(t, u, written[i], newest);
      }
      forall i, j | 0 <= i < j < |written|
        ensures Descends(u, written[j], written[i])
      {
        KnownBelow(u, written[i], newest);
        KnownBelow(u, written[j], newest);
        assert Descends(t, written[j], written[i]);
        KnownBelow(t, written[i], written[j]);
        AgreesKeeps(t, u, written[i], written[j]);
      }
      forall i | 0 <= i < |written|
        ensures written[i] in u
      {
        KnownBelow(u, written[i], newest);
      }
    }
  }

  lemma KnownBelow(t: Tree, a: Hash, b: Hash)
    requires Sound(t) && Ancestor(t, a, b)
    ensures a in t && b in t
  {
  }

  /** Whether a checkpoint may follow the current one, which the index knows if there is one. */
  predicate MayFollow(t: Tree, sync: Hash, h: Hash)
    requires Sound(t)
  {
    sync == NoHash || Descends(t, h, sync)
  }

  /** Two blocks over one root: block 2 is the checkpoint, an index without it comes back, block 3
      is accepted, and once block 2 is known again the two checkpoints are on different branches. */
  lemma LossForks()
    ensures var t: Tree := map[1 := Index(0, None), 2 := Index(1, Some(1)), 3 := Index(1, Some(1))];
            var u := t - {2};
            && Sound(t) && Sound(u) && Agrees(t, u) && Grows(u, t)
            && OneBranch(t, [2]) && 2 !in u && MayFollow(u, NoHash, 3)
            && Conflict(t, 3, 2) && !OneBranch(t, [2, 3])
  {
    var t: Tree := map[1 := Index(0, None), 2 := Index(1, Some(1)), 3 := Index(1, Some(1))];
    var u := t - {2};
    assert Sound(t) && Sound(u);
    var both: seq<Hash> := [2, 3];
    assert !Descends(t, both[1], both[0]);
  }

  /** How the steps outside turn out: whether the block lies on the active chain, is found on disk
      and can be connected, and whether the database takes the checkpoint. */
  datatype Outside = Outside(inMainChain: bool, found: bool, connected: bool, wrote: bool) {
    predicate Connects() { inMainChain || (found && connected) }

    predicate FailsToConnect() { !inMainChain && found && !connected }
  }

  class Checkpoints {
    var mapBlockIndex: Tree
    var hashSyncCheckpoint: Hash
    var hashPendingCheckpoint: Hash
    var hashInvalidCheckpoint: Hash
    var stored: Hash
    ghost var written: seq<Hash>

    /** The checkpoints written since the last reset or loss, with the current one last. */
    ghost predicate Valid()
      reads this
    {
      && Sound(mapBlockIndex) && NoHash !in mapBlockIndex
      && OneBranch(mapBlockIndex, written)
      && (hashSyncCheckpoint != NoHash ==> stored == hashSyncCheckpoint)
      && if written == [] then hashSyncCheckpoint == NoHash else hashSyncCheckpoint == written[|written| - 1]
    }

    constructor (t: Tree)
      requires Sound(t) && NoHash !in t
      ensures Valid() && mapBlockIndex == t && written == []
    {
      mapBlockIndex := t;
      hashSyncCheckpoint, hashPendingCheckpoint, hashInvalidCheckpoint, stored := NoHash, NoHash, NoHash, NoHash;
      written := [];
    }

    /** The block index gains blocks. */
    method Grow(u: Tree)
      requires Valid() && Sound(u) && Grows(mapBlockIndex, u) && NoHash !in u
      modifies this`mapBlockIndex
      ensures Valid() && mapBlockIndex == u
    {
      OneBranchGrows(mapBlockIndex, u, written);
      mapBlockIndex := u;
    }

    // src/checkpoints.cpp:473-523
    method ValidateSyncCheckpoint(hashCheckpoint: Hash) returns (ok: bool)
      requires Valid()
      modifies this`hashInvalidCheckpoint
      ensures ok <==> MayFollow(mapBlockIndex, hashSyncCheckpoint, hashCheckpoint)
      ensures hashInvalidCheckpoint ==
              if hashSyncCheckpoint != NoHash && Conflict(mapBlockIndex, hashCheckpoint, hashSyncCheckpoint) then hashCheckpoint
              else old(hashInvalidCheckpoint)
    {
      if hashSyncCheckpoint == NoHash || hashSyncCheckpoint !in mapBlockIndex { return true; }
      if hashCheckpoint !in mapBlockIndex { return false; }
      var sync, recv := mapBlockIndex[hashSyncCheckpoint], mapBlockIndex[hashCheckpoint];
      if recv.nHeight <= sync.nHeight {
        var p := TraceBack(mapBlockIndex, hashSyncCheckpoint, recv.nHeight);
        if p != hashCheckpoint { hashInvalidCheckpoint := hashCheckpoint; }
        return false;
      }
      var p := TraceBack(mapBlockIndex, hashCheckpoint, sync.nHeight);
      if p != hashSyncCheckpoint {
        hashInvalidCheckpoint := hashCheckpoint;
        return false;
      }
      return true;
    }

    /** `wrote` says whether the database takes the write (src/checkpoints.cpp:525-534). */
    method WriteSyncCheckpoint(hashCheckpoint: Hash, wrote: bool) returns (ok: bool)
      requires Valid() && hashCheckpoint in mapBlockIndex
      requires MayFollow(mapBlockIndex, hashSyncCheckpoint, hashCheckpoint)
      modifies this`hashSyncCheckpoint, this`stored, this`written
      ensures Valid()
      ensures ok <==> wrote
      ensures if wrote then hashSyncCheckpoint == stored == hashCheckpoint && written == old(written) + [hashCheckpoint]
              else hashSyncCheckpoint == old(hashSyncCheckpoint) && stored == old(stored) && written == old(written)
    {
      if !wrote { return false; }
      OneBranchSnoc(mapBlockIndex, written, hashCheckpoint);
      stored := hashCheckpoint;
      hashSyncCheckpoint := hashCheckpoint;
      written := written + [hashCheckpoint];
      return true;
    }

    /** A restart with the block index `u` that is on disk: the checkpoints of the run are lost
        exactly when `u` does not know the stored one (src/checkpoints.cpp:545-556). */
    method Restart(u: Tree)
      requires Valid() && Sound(u) && Agrees(mapBlockIndex, u) && NoHash !in u
      modifies this`mapBlockIndex, this`hashSyncCheckpoint, this`hashPendingCheckpoint, this`hashInvalidCheckpoint, this`written
      ensures Valid() && mapBlockIndex == u
      ensures hashPendingCheckpoint == hashInvalidCheckpoint == NoHash
      ensures hashSyncCheckpoint == if stored in u then stored else NoHash
      ensures written == if stored !in u then [] else if old(hashSyncCheckpoint) == NoHash then [stored] else old(written)
      ensures old(written) != [] ==> (OneBranch(u, old(written)) <==> stored in u)
    {
      hide OneBranch;
      if written != [] {
        NewestIsAboveAll(mapBlockIndex, written, |written| - 1);
        KnownBelow(mapBlockIndex, hashSyncCheckpoint, hashSyncCheckpoint);
        SurviveIff(mapBlockIndex, u, written);
      }
      hashPendingCheckpoint, hashInvalidCheckpoint := NoHash, NoHash;
      if stored == NoHash || stored !in u {
        written := [];
        NoneOnBranch(u);
      } else if hashSyncCheckpoint == NoHash {
        written := [stored];
        OneOnBranch(u, stored);
      }
      mapBlockIndex := u;
      hashSyncCheckpoint := NoHash;
      if stored != NoHash && stored in u { hashSyncCheckpoint := stored; }
    }

    /** The pending checkpoint becomes the checkpoint exactly when its block is known, it may follow,
        and every outside step that is needed succeeds; it is forgotten exactly when it becomes the
        checkpoint or may not follow (src/checkpoints.cpp:558-602). */
    method AcceptPendingSyncCheckpoint(enforced: bool, outside: Outside) returns (accepted: bool)
      requires Valid()
      modifies this`hashSyncCheckpoint, this`hashPendingCheckpoint, this`hashInvalidCheckpoint, this`stored, this`written
      ensures Valid()
      ensures var h, known := old(hashPendingCheckpoint), old(hashPendingCheckpoint) in mapBlockIndex;
              var follows := MayFollow(mapBlockIndex, old(hashSyncCheckpoint), h);
              && (accepted <==> known && follows && (!enforced || outside.Connects()) && outside.wrote)
              && (if accepted then hashSyncCheckpoint == stored == h && written == old(written) + [h]
                  else hashSyncCheckpoint == old(hashSyncCheckpoint) && stored == old(stored) && written == old(written))
              && hashPendingCheckpoint == (if accepted || (known && !follows) then NoHash else h)
              && hashInvalidCheckpoint == (
                   if known && !follows && Conflict(mapBlockIndex, h, old(hashSyncCheckpoint)) then h
                   else if known && follows && enforced && outside.FailsToConnect() then h
                   else old(hashInvalidCheckpoint))
    {
      if hashPendingCheckpoint == NoHash || hashPendingCheckpoint !in mapBlockIndex { return false; }
      var ok := ValidateSyncCheckpoint(hashPendingCheckpoint);
      if !ok {
        hashPendingCheckpoint := NoHash;
        return false;
      }
      if enforced && !outside.inMainChain {
        if !outside.found { return false; }
        if !outside.connected {
          hashInvalidCheckpoint := hashPendingCheckpoint;
          return false;
        }
      }
      ok := WriteSyncCheckpoint(hashPendingCheckpoint, outside.wrote);
      if !ok { return false; }
      hashPendingCheckpoint := NoHash;
      return true;
    }

    /** A checkpoint that is received becomes the checkpoint exactly when it is signed, its block is
        known, it may follow, and every outside step that is needed succeeds; with an unknown block
        it becomes pending (src/checkpoints.cpp:849-901). */
    method ProcessSyncCheckpoint(hashCheckpoint: Hash, signed: bool, outside: Outside) returns (accepted: bool)
      requires Valid()
      modifies this`hashSyncCheckpoint, this`hashPendingCheckpoint, this`hashInvalidCheckpoint, this`stored, this`written
      ensures Valid()
      ensures var h, known := hashCheckpoint, signed && hashCheckpoint in mapBlockIndex;
              var follows := MayFollow(mapBlockIndex, old(hashSyncCheckpoint), h);
              && (accepted <==> known && follows && outside.Connects() && outside.wrote)
              && (if accepted then hashSyncCheckpoint == stored == h && written == old(written) + [h]
                  else hashSyncCheckpoint == old(hashSyncCheckpoint) && stored == old(stored) && written == old(written))
              && hashPendingCheckpoint == (
                   if accepted then NoHash else if signed && h !in mapBlockIndex then h else old(hashPendingCheckpoint))
              && hashInvalidCheckpoint == (
                   if known && !follows && Conflict(mapBlockIndex, h, old(hashSyncCheckpoint)) then h
                   else if known && follows && outside.FailsToConnect() then h
                   else old(hashInvalidCheckpoint))
    {
      if !signed { return false; }
      if hashCheckpoint !in mapBlockIndex {
        hashPendingCheckpoint := hashCheckpoint;
        return false;
      }
      var ok := ValidateSyncCheckpoint(hashCheckpoint);
      if !ok { return false; }
      if !outside.inMainChain {
        if !outside.found { return false; }
        if !outside.connected {
          hashInvalidCheckpoint := hashCheckpoint;
          return false;
        }
      }
      ok := WriteSyncCheckpoint(hashCheckpoint, outside.wrote);
      if !ok { return false; }
      hashPendingCheckpoint := NoHash;
      return true;
    }

    /** A signed checkpoint that arrives before its block: once the block is known, lies above the
        checkpoint and can be connected and written, it is the checkpoint, whatever it was. */
    method BecomesCheckpoint(hashCheckpoint: Hash, early: Outside, u: Tree, enforced: bool, late: Outside)
      requires Valid() && hashCheckpoint !in mapBlockIndex
      requires Sound(u) && Grows(mapBlockIndex, u) && NoHash !in u && hashCheckpoint in u
      requires MayFollow(u, hashSyncCheckpoint, hashCheckpoint) && late.Connects() && late.wrote
      modifies this
      ensures Valid() && hashSyncCheckpoint == stored == hashCheckpoint && hashPendingCheckpoint == NoHash
      ensures written == old(written) + [hashCheckpoint]
    {
      var early' := ProcessSyncCheckpoint(hashCheckpoint, true, early);
      Grow(u);
      var accepted := AcceptPendingSyncCheckpoint(enforced, late);
    }

    // src/checkpoints.cpp:617-646; the parent of the block is in the index
    method CheckSyncCheckpoint(hashBlock: Hash, prev: Hash) returns (ok: bool)
      requires Valid() && prev in mapBlockIndex
      ensures hashSyncCheckpoint == NoHash ==> ok
      ensures hashSyncCheckpoint != NoHash ==>
                var nHeight, nSync := mapBlockIndex[prev].nHeight + 1, mapBlockIndex[hashSyncCheckpoint].nHeight;
                ok <==> if nHeight > nSync then Ancestor(mapBlockIndex, hashSyncCheckpoint, prev)
                        else if nHeight == nSync then hashBlock == hashSyncCheckpoint
                        else hashBlock in mapBlockIndex
    {
      var nHeight := mapBlockIndex[prev].nHeight + 1;
      if hashSyncCheckpoint == NoHash || hashSyncCheckpoint !in mapBlockIndex { return true; }
      var nSync := mapBlockIndex[hashSyncCheckpoint].nHeight;
      if nHeight > nSync {
        var p := TraceBack(mapBlockIndex, prev, nSync);
        if mapBlockIndex[p].nHeight < nSync || p != hashSyncCheckpoint { return false; }
      }
      if nHeight == nSync && hashBlock != hashSyncCheckpoint { return false; }
      if nHeight < nSync && hashBlock !in mapBlockIndex { return false; }
      return true;
    }
  }

  lemma NoneOnBranch(t: Tree)
    requires Sound(t)
    ensures OneBranch(t, [])
  {
  }

  lemma OneOnBranch(t: Tree, h: Hash)
    requires Sound(t) && h in t
    ensures OneBranch(t, [h])
  {
  }

  /** A block accepted above the checkpoint extends the branch of every checkpoint of the run. */
  lemma AcceptedExtendsAll(t: Tree, written: seq<Hash>, prev: Hash, i: nat)
    requires Sound(t) && OneBranch(t, written) && i < |written| && Ancestor(t, written[|written| - 1], prev)
    ensures Ancestor(t, written[i], prev)
  {
    NewestIsAboveAll(t, written, i);
    AncestorTransitive(t, written[i], written[|written| - 1], prev);
  }
}

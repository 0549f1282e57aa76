/**
 Moving an entry from the new table to the tried table, which may push another entry
 back (src/addrman.cpp:206-262).
 */
module AddrManPromote {
  import opened Common
  import opened FiniteSets
  import opened AddrManState
  import opened AddrManSteps

  /** The state in which `id` has left all its new buckets and is in no tried bucket yet. */
  ghost predicate Limbo(e: Env, s: State, id: nat) {
    && Indexes(s)
    && NewTable(s.mapInfo, s.vvNew, None)
    && TriedTable(e, s.mapInfo, s.vvTried)
    && id in s.mapInfo
    && InfosOk(s.mapInfo - {id})
    && !s.mapInfo[id].fInTried && s.mapInfo[id].nRefCount == 0
    && s.mapInfo[id].nLastTry >= 0 && s.mapInfo[id].nLastSuccess > 0
    && s.nTried == |TriedIds(s.mapInfo)|
    && s.nNew == |NewIds(s.mapInfo) - {id}|
  }

  // src/addrman.cpp:225-231
  function Appended(s: State, k: nat, id: nat): State
    requires k < |s.vvTried| && id in s.mapInfo
  {
    SetInfo(s, id, s.mapInfo[id].(fInTried := true))
      .(vvTried := s.vvTried[k := s.vvTried[k] + [id]], nTried := s.nTried + 1)
  }

  /** The tried bucket `k` reordered. */
  function Reordered(s: State, k: nat, bucket: seq<nat>): State
    requires k < |s.vvTried|
  {
    s.(vvTried := s.vvTried[k := bucket])
  }

  function WithSlot(vv: seq<seq<nat>>, k: nat, pos: nat, id: nat): seq<seq<nat>>
    requires k < |vv| && pos < |vv[k]|
  {
    var bucket: seq<nat> := vv[k][pos := id];
    vv[k := bucket]
  }

  /** The entry in slot `pos` of tried bucket `k` goes to new bucket `b`; `id` takes its slot. */
  function Replaced(s: State, k: nat, pos: nat, id: nat, b: nat): State
    requires k < |s.vvTried| && pos < |s.vvTried[k]| && s.vvTried[k][pos] in s.mapInfo
    requires id in s.mapInfo && b < |s.vvNew|
  {
    var evictee := s.vvTried[k][pos];
    var m := s.mapInfo[evictee := s.mapInfo[evictee].(fInTried := false, nRefCount := 1)];
    s.(mapInfo := m[id := m[id].(fInTried := true)],
       vvTried := WithSlot(s.vvTried, k, pos, id),
       vvNew := s.vvNew[b := s.vvNew[b] + {evictee}],
       nNew := s.nNew + 1)
  }

  // ---------------------------------------------------------------- leaving the new table

  lemma StripNewTable(m: map<nat, Info>, vv: seq<set<nat>>, id: nat, info: Info)
    requires NewTable(m, vv, None) && id in m && info.nRefCount == 0
    ensures NewTable(m[id := info], Without(vv, id), None)
  {
    var m' := m[id := info];
    assert NewSizes(Without(vv, id)) by {
      forall b | 0 <= b < |vv| ensures |Without(vv, id)[b]| <= |vv[b]| {
        SubsetSize(vv[b] - {id}, vv[b]);
      }
    }
    forall other | other in m'
      ensures m'[other].nRefCount == Count(Without(vv, id), other)
    {
      CountWithout(vv, id, other);
    }
  }

  lemma StripKeeps(e: Env, s: State, id: nat)
    requires Inv(e, s) && id in s.mapInfo && !s.mapInfo[id].fInTried && s.mapInfo[id].nLastSuccess > 0
    ensures Limbo(e, Stripped(s, id), id)
  {
    hide Indexes, NewTable, TriedTable, InfosOk, TriedIds, NewIds, InfoOk, Without;
    InvEntry(e, s, id);
    var info := s.mapInfo[id].(nRefCount := 0);
    var t := Stripped(s, id);
    RefOnly(e, s, id, info);
    OtherFields(SetInfo(s, id, info), t);
    StripNewTable(s.mapInfo, s.vvNew, id, info);
    UpdateThenRemove(s.mapInfo, id, info);
    RemoveInfos(s.mapInfo, id);
    RemoveIds(s.mapInfo, id);
  }

  lemma InvEntry(e: Env, s: State, id: nat)
    requires Inv(e, s) && id in s.mapInfo
    ensures InfoOk(s.mapInfo[id]) && s.mapInfo[id].nLastTry >= 0
  {
  }

  // ---------------------------------------------------------------- a free slot

  lemma AppendTriedTable(e: Env, m: map<nat, Info>, vv: seq<seq<nat>>, k: nat, id: nat, info: Info)
    requires TriedTable(e, m, vv) && id in m && !m[id].fInTried
    requires info == m[id].(fInTried := true) && k == e.TriedBucket(info.addr.svc)
    requires |vv[k]| < TRIED_BUCKET_SIZE
    ensures TriedTable(e, m[id := info], vv[k := vv[k] + [id]])
  {
    var m', vv' := m[id := info], vv[k := vv[k] + [id]];
    assert TriedMembers(e, m', vv');
    assert id !in vv[k];
    assert TriedDistinct(vv');
    assert TriedPresent(e, m', vv') by {
      assert vv'[k][|vv[k]|] == id;
    }
  }

  lemma FlagIds(m: map<nat, Info>, id: nat, info: Info)
    requires id in m && !m[id].fInTried && info.fInTried
    ensures TriedIds(m[id := info]) == TriedIds(m) + {id} && id !in TriedIds(m)
    ensures NewIds(m[id := info]) == NewIds(m) - {id}
  {
  }

  lemma FlagNewTable(m: map<nat, Info>, vv: seq<set<nat>>, id: nat, info: Info)
    requires NewTable(m, vv, None) && id in m && info.nRefCount == m[id].nRefCount
    ensures NewTable(m[id := info], vv, None)
  {
  }

  lemma FlagIndexes(s: State, id: nat, info: Info, t: State)
    requires Indexes(s) && id in s.mapInfo
    requires info.addr.svc == s.mapInfo[id].addr.svc && info.nRandomPos == s.mapInfo[id].nRandomPos
    requires t.mapInfo == s.mapInfo[id := info]
    requires t.nIdCount == s.nIdCount && t.mapAddr == s.mapAddr && t.vRandom == s.vRandom
    ensures Indexes(t)
  {
    hide Indexed, Placed, IdsBelow;
    assert SameSlots(s.mapInfo, t.mapInfo);
    SameIndexes(s.mapInfo, t.mapInfo, s);
    KeysBelow(s.mapInfo, t.mapInfo, s.nIdCount);
  }

  lemma RemovedInfos(m: map<nat, Info>, id: nat, info: Info)
    requires InfosOk(m - {id}) && InfoOk(info)
    ensures InfosOk(m[id := info])
  {
    var m' := m[id := info];
    forall x | x in m' ensures InfoOk(m'[x]) {
      if x != id { assert x in m - {id}; }
    }
  }

  lemma AppendKeeps(e: Env, s: State, k: nat, id: nat)
    requires Limbo(e, s, id) && k == e.TriedBucket(s.mapInfo[id].addr.svc)
    requires k < |s.vvTried| && |s.vvTried[k]| < TRIED_BUCKET_SIZE
    ensures Inv(e, Appended(s, k, id))
  {
    hide Indexes, NewTable, TriedTable, InfosOk, TriedIds, NewIds;
    var info := s.mapInfo[id].(fInTried := true);
    var t := Appended(s, k, id);
    FlagIndexes(s, id, info, t);
    RemovedInfos(s.mapInfo, id, info);
    FlagNewTable(s.mapInfo, s.vvNew, id, info);
    AppendTriedTable(e, s.mapInfo, s.vvTried, k, id, info);
    FlagIds(s.mapInfo, id, info);
  }

  // ---------------------------------------------------------------- reordering a bucket

  lemma {:induction false} DistinctCount(s: seq<nat>)
    ensures Distinct(s) <==> forall x :: multiset(s)[x] <= 1
  {
    if s != [] {
      var n := |s| - 1;
      var r := s[..n];
      DistinctCount(r);
      assert s == r + [s[n]];
      assert multiset(s) == multiset(r) + multiset{s[n]};
      assert s[n] in r <==> s[n] in multiset(r);
      if Distinct(s) {
        assert Distinct(r) && s[n] !in r;
      }
      if forall x :: multiset(s)[x] <= 1 {
        assert multiset(s)[s[n]] == multiset(r)[s[n]] + 1;
        forall x ensures multiset(r)[x] <= 1 {
          assert multiset(s)[x] <= 1;
        }
        assert s[n] !in r;
        assert Distinct(r);
      }
    }
  }

  lemma PermutedBucket(a: seq<nat>, b: seq<nat>)
    requires multiset(a) == multiset(b) && Distinct(a)
    ensures Distinct(b) && |b| == |a| && forall x :: x in a <==> x in b
  {
    DistinctCount(a);
    DistinctCount(b);
    assert |multiset(a)| == |a| && |multiset(b)| == |b|;
    forall x ensures x in a <==> x in b {
      assert x in a <==> x in multiset(a);
      assert x in b <==> x in multiset(b);
    }
  }

  lemma ReorderTriedTable(e: Env, m: map<nat, Info>, vv: seq<seq<nat>>, k: nat, bucket: seq<nat>)
    requires TriedTable(e, m, vv) && k < |vv| && multiset(bucket) == multiset(vv[k])
    ensures TriedTable(e, m, vv[k := bucket])
  {
    PermutedBucket(vv[k], bucket);
    var vv' := vv[k := bucket];
    forall j, i | 0 <= j < |vv'| && 0 <= i < |vv'[j]|
      ensures vv'[j][i] in m && m[vv'[j][i]].fInTried && e.TriedBucket(m[vv'[j][i]].addr.svc) == j
    {
      if j == k { assert bucket[i] in vv[k]; }
    }
  }

  lemma ReorderKeeps(e: Env, s: State, k: nat, bucket: seq<nat>, id: nat)
    requires Limbo(e, s, id) && k < |s.vvTried| && multiset(bucket) == multiset(s.vvTried[k])
    ensures Limbo(e, Reordered(s, k, bucket), id)
  {
    hide Indexes, NewTable, TriedTable, InfosOk, TriedIds, NewIds;
    ReorderTriedTable(e, s.mapInfo, s.vvTried, k, bucket);
    OtherFields(s, Reordered(s, k, bucket));
  }

  // ---------------------------------------------------------------- taking over a slot

  lemma ReplaceTriedTable(e: Env, m: map<nat, Info>, vv: seq<seq<nat>>, k: nat, pos: nat, id: nat, m': map<nat, Info>)
    requires TriedTable(e, m, vv) && id in m && !m[id].fInTried
    requires k == e.TriedBucket(m[id].addr.svc) && pos < |vv[k]|
    requires m'.Keys == m.Keys
    requires forall x | x in m :: m'[x].addr == m[x].addr
    requires forall x | x in m :: m'[x].fInTried == (x == id || (x != vv[k][pos] && m[x].fInTried))
    ensures TriedTable(e, m', WithSlot(vv, k, pos, id))
  {
    var evictee, vv' := vv[k][pos], WithSlot(vv, k, pos, id);
    ReplaceMembers(e, m, vv, k, pos, id, m');
    assert id !in vv[k];
    assert TriedDistinct(vv');
    forall x | x in m' && m'[x].fInTried
      ensures x in vv'[e.TriedBucket(m'[x].addr.svc)]
    {
      if x == id {
        assert vv'[k][pos] == id;
      } else {
        var j := e.TriedBucket(m[x].addr.svc);
        var i :| 0 <= i < |vv[j]| && vv[j][i] == x;
        assert vv'[j][i] == x;
      }
    }
  }

  lemma ReplaceMembers(e: Env, m: map<nat, Info>, vv: seq<seq<nat>>, k: nat, pos: nat, id: nat, m': map<nat, Info>)
    requires TriedTable(e, m, vv) && id in m && !m[id].fInTried
    requires k == e.TriedBucket(m[id].addr.svc) && pos < |vv[k]|
    requires m'.Keys == m.Keys
    requires forall x | x in m :: m'[x].addr == m[x].addr
    requires forall x | x in m :: m'[x].fInTried == (x == id || (x != vv[k][pos] && m[x].fInTried))
    ensures TriedMembers(e, m', WithSlot(vv, k, pos, id))
  {
    var vv' := WithSlot(vv, k, pos, id);
    forall j, i | 0 <= j < |vv'| && 0 <= i < |vv'[j]|
      ensures vv'[j][i] in m' && m'[vv'[j][i]].fInTried && e.TriedBucket(m'[vv'[j][i]].addr.svc) == j
    {
      if j == k && i == pos {
      } else {
        assert vv'[j][i] == vv[j][i];
        assert vv[j][i] != vv[k][pos] by {
          assert Distinct(vv[k]);
          assert e.TriedBucket(m[vv[j][i]].addr.svc) == j;
          assert e.TriedBucket(m[vv[k][pos]].addr.svc) == k;
        }
      }
    }
  }

  lemma ReplaceNewTable(m: map<nat, Info>, vv: seq<set<nat>>, b: nat, evictee: nat, m': map<nat, Info>)
    requires NewTable(m, vv, None) && evictee in m && m[evictee].nRefCount == 0
    requires b < |vv| && |vv[b]| < NEW_BUCKET_SIZE
    requires m'.Keys == m.Keys
    requires forall x | x in m :: m'[x].nRefCount == if x == evictee then 1 else m[x].nRefCount
    ensures NewTable(m', vv[b := vv[b] + {evictee}], None)
  {
    CountPositive(vv, evictee);
    forall x | x in m'
      ensures m'[x].nRefCount == Count(vv[b := vv[b] + {evictee}], x)
    {
      CountUpdate(vv, b, vv[b] + {evictee}, x);
    }
  }

  lemma ReplaceIds(m: map<nat, Info>, evictee: nat, id: nat, m': map<nat, Info>)
    requires evictee in m && m[evictee].fInTried && id in m && !m[id].fInTried
    requires m'.Keys == m.Keys
    requires forall x | x in m :: m'[x].fInTried == (x == id || (x != evictee && m[x].fInTried))
    ensures TriedIds(m') == TriedIds(m) - {evictee} + {id} && evictee in TriedIds(m) && id !in TriedIds(m)
    ensures NewIds(m') == (NewIds(m) - {id}) + {evictee} && evictee !in NewIds(m)
  {
  }

  /** The entry in a slot of a tried bucket. */
  lemma TriedEntry(e: Env, s: State, id: nat, k: nat, pos: nat)
    requires Limbo(e, s, id) && k < |s.vvTried| && pos < |s.vvTried[k]|
    ensures var evictee := s.vvTried[k][pos];
            && evictee in s.mapInfo && evictee != id && s.mapInfo[evictee].fInTried && s.mapInfo[evictee].nRefCount == 0
            && s.mapInfo[evictee].nLastTry >= 0 && s.mapInfo[evictee].nLastSuccess >= 0
  {
    var evictee := s.vvTried[k][pos];
    assert evictee in s.mapInfo - {id};
    assert InfoOk((s.mapInfo - {id})[evictee]);
  }

  lemma ReplacedInfos(m: map<nat, Info>, evictee: nat, id: nat, infoOld: Info, info: Info)
    requires InfosOk(m - {id}) && InfoOk(infoOld) && InfoOk(info)
    ensures InfosOk(m[evictee := infoOld][id := info])
  {
    var m' := m[evictee := infoOld][id := info];
    forall x | x in m' ensures InfoOk(m'[x]) {
      if x != id && x != evictee { assert x in m - {id}; }
    }
  }

  lemma ReplaceKeeps(e: Env, s: State, k: nat, pos: nat, id: nat, b: nat)
    requires Limbo(e, s, id) && k == e.TriedBucket(s.mapInfo[id].addr.svc)
    requires k < |s.vvTried| && pos < |s.vvTried[k]| && s.vvTried[k][pos] in s.mapInfo
    requires b < |s.vvNew| && |s.vvNew[b]| < NEW_BUCKET_SIZE
    ensures Inv(e, Replaced(s, k, pos, id, b))
  {
    hide Indexes, NewTable, TriedTable, InfosOk, TriedIds, NewIds;
    TriedEntry(e, s, id, k, pos);
    var evictee := s.vvTried[k][pos];
    var t := Replaced(s, k, pos, id, b);
    var infoOld := s.mapInfo[evictee].(fInTried := false, nRefCount := 1);
    var info := s.mapInfo[id].(fInTried := true);
    FlagIndexes(s, evictee, infoOld, SetInfo(s, evictee, infoOld));
    FlagIndexes(SetInfo(s, evictee, infoOld), id, info, t);
    ReplacedInfos(s.mapInfo, evictee, id, infoOld, info);
    ReplaceNewTable(s.mapInfo, s.vvNew, b, evictee, t.mapInfo);
    ReplaceTriedTable(e, s.mapInfo, s.vvTried, k, pos, id, t.mapInfo);
    ReplaceIds(s.mapInfo, evictee, id, t.mapInfo);
  }
}

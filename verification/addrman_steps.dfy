/**
 The state changes of the address manager and what each of them keeps of the invariant.
 */
module AddrManSteps {
  import opened Common
  import opened AddrManState

  // ---------------------------------------------------------------- primitive changes

  function SetInfo(s: State, id: nat, info: Info): State {
    s.(mapInfo := s.mapInfo[id := info])
  }

  // src/addrman.cpp:108-126
  function SwapRandom(s: State, i: nat, j: nat): State
    requires Placed(s.mapInfo, s.vRandom) && i < |s.vRandom| && j < |s.vRandom|
  {
    if i == j then s
    else
      var id1, id2 := s.vRandom[i], s.vRandom[j];
      var m1 := s.mapInfo[id1 := s.mapInfo[id1].(nRandomPos := j)];
      s.(mapInfo := m1[id2 := m1[id2].(nRandomPos := i)], vRandom := s.vRandom[i := id2][j := id1])
  }

  // src/addrman.cpp:96-106, with the time penalty of src/addrman.cpp:353 and the counter of :354
  function Created(s: State, addr: Address, source: NetAddr, penalty: int): State {
    var nTime := ToUint32(Max(0, addr.nTime - penalty));
    var info := Info(addr.(nTime := nTime), source, 0, 0, 0, 0, false, |s.vRandom|);
    s.(nIdCount := s.nIdCount + 1,
       mapInfo := s.mapInfo[s.nIdCount := info],
       mapAddr := s.mapAddr[addr.svc.net := s.nIdCount],
       vRandom := s.vRandom + [s.nIdCount],
       nNew := s.nNew + 1)
  }

  function AddRef(s: State, id: nat): State
    requires id in s.mapInfo
  {
    SetInfo(s, id, s.mapInfo[id].(nRefCount := s.mapInfo[id].nRefCount + 1))
  }

  // src/addrman.cpp:166-170, 195-199
  function Deleted(s: State, id: nat): State
    requires Placed(s.mapInfo, s.vRandom) && id in s.mapInfo
  {
    var t := SwapRandom(s, s.mapInfo[id].nRandomPos, |s.vRandom| - 1);
    t.(mapInfo := t.mapInfo - {id},
       mapAddr := t.mapAddr - {s.mapInfo[id].Net()},
       vRandom := t.vRandom[..|t.vRandom| - 1],
       nNew := t.nNew - 1)
  }

  /** Taking `id` out of new bucket `b`; its last reference takes the entry with it. */
  function Evicted(s: State, b: nat, id: nat): State
    requires b < |s.vvNew|
    requires Placed(s.mapInfo, s.vRandom) && id in s.mapInfo
  {
    var t := SetInfo(s, id, s.mapInfo[id].(nRefCount := s.mapInfo[id].nRefCount - 1));
    var u := if t.mapInfo[id].nRefCount == 0 then Deleted(t, id) else t;
    u.(vvNew := u.vvNew[b := u.vvNew[b] - {id}])
  }

  function Put(s: State, b: nat, id: nat): State
    requires b < |s.vvNew|
  {
    s.(vvNew := s.vvNew[b := s.vvNew[b] + {id}])
  }

  /** All new buckets without `id`. */
  function Without(vv: seq<set<nat>>, id: nat): seq<set<nat>> {
    seq(|vv|, b requires 0 <= b < |vv| => vv[b] - {id})
  }

  // src/addrman.cpp:210-216
  function Stripped(s: State, id: nat): State
    requires id in s.mapInfo
  {
    SetInfo(s, id, s.mapInfo[id].(nRefCount := 0)).(vvNew := Without(s.vvNew, id), nNew := s.nNew - 1)
  }

  // ---------------------------------------------------------------- counting

  lemma {:induction false} CountUpdate(vv: seq<set<nat>>, b: nat, x: set<nat>, id: nat)
    requires b < |vv|
    ensures Count(vv[b := x], id) == Count(vv, id) - (if id in vv[b] then 1 else 0) + (if id in x then 1 else 0)
  {
    var n := |vv| - 1;
    if b == n {
      assert vv[b := x][..n] == vv[..n];
    } else {
      assert vv[b := x][..n] == vv[..n][b := x];
      CountUpdate(vv[..n], b, x, id);
    }
  }

  lemma {:induction false} CountWithout(vv: seq<set<nat>>, id: nat, other: nat)
    ensures Count(Without(vv, id), other) == if other == id then 0 else Count(vv, other)
  {
    if vv != [] {
      var n := |vv| - 1;
      assert Without(vv, id)[..n] == Without(vv[..n], id);
      CountWithout(vv[..n], id, other);
    }
  }

  lemma {:induction false} CountPositive(vv: seq<set<nat>>, id: nat)
    ensures Count(vv, id) > 0 <==> exists b | 0 <= b < |vv| :: id in vv[b]
    ensures Count(vv, id) <= |vv|
  {
    if vv != [] {
      var n := |vv| - 1;
      CountPositive(vv[..n], id);
      if Count(vv, id) > 0 && id !in vv[n] {
        var b :| 0 <= b < n && id in vv[..n][b];
        assert id in vv[b];
      }
      if b :| 0 <= b < |vv| && id in vv[b] {
        if b < n { assert id in vv[..n][b]; }
      }
    }
  }

  lemma CountEmpty(id: nat, vv: seq<set<nat>>)
    requires forall b | 0 <= b < |vv| :: id !in vv[b]
    ensures Count(vv, id) == 0
  {
    CountPositive(vv, id);
  }

  // ---------------------------------------------------------------- the empty manager

  lemma EmptyInv(e: Env)
    ensures Inv(e, EmptyState())
  {
    assert TriedIds(EmptyState().mapInfo) == {};
    assert NewIds(EmptyState().mapInfo) == {};
  }

  // ---------------------------------------------------------------- transfer to a changed map

  /** The same address and the same place in the tables. */
  predicate SameTable(a: Info, b: Info) {
    a.addr.svc == b.addr.svc && a.nRefCount == b.nRefCount && a.fInTried == b.fInTried
  }

  ghost predicate SameTables(m: map<nat, Info>, m': map<nat, Info>) {
    m'.Keys == m.Keys && forall id | id in m :: SameTable(m[id], m'[id])
  }

  /** The same address and the same slot in `vRandom`. */
  ghost predicate SameSlots(m: map<nat, Info>, m': map<nat, Info>) {
    && m'.Keys == m.Keys
    && forall id | id in m :: m[id].addr.svc == m'[id].addr.svc && m[id].nRandomPos == m'[id].nRandomPos
  }

  /** The same entries, up to their slots in `vRandom`. */
  ghost predicate SameButSlots(m: map<nat, Info>, m': map<nat, Info>) {
    m'.Keys == m.Keys && forall id | id in m :: m'[id] == m[id].(nRandomPos := m'[id].nRandomPos)
  }

  lemma KeysBelow(m: map<nat, Info>, m': map<nat, Info>, n: nat)
    requires IdsBelow(m, n) && m'.Keys <= m.Keys
    ensures IdsBelow(m', n)
  {
  }

  lemma SameIndexes(m: map<nat, Info>, m': map<nat, Info>, s: State)
    requires SameSlots(m, m') && Indexed(m, s.mapAddr) && Placed(m, s.vRandom)
    ensures Indexed(m', s.mapAddr) && Placed(m', s.vRandom)
  {
  }

  lemma SlotsIndexed(m: map<nat, Info>, m': map<nat, Info>, a: map<NetAddr, nat>)
    requires SameButSlots(m, m') && Indexed(m, a)
    ensures Indexed(m', a)
  {
  }

  lemma SlotsTables(m: map<nat, Info>, m': map<nat, Info>)
    requires SameButSlots(m, m')
    ensures SameTables(m, m') && (InfosOk(m) ==> InfosOk(m')) && m'.Keys == m.Keys
  {
  }

  lemma SameNew(m: map<nat, Info>, m': map<nat, Info>, vv: seq<set<nat>>, pending: Option<nat>)
    requires SameTables(m, m') && NewTable(m, vv, pending)
    ensures NewTable(m', vv, pending)
  {
  }

  lemma SameTried(e: Env, m: map<nat, Info>, m': map<nat, Info>, vv: seq<seq<nat>>)
    requires SameTables(m, m') && TriedTable(e, m, vv)
    ensures TriedTable(e, m', vv)
  {
  }

  lemma SameIds(m: map<nat, Info>, m': map<nat, Info>)
    requires SameTables(m, m')
    ensures TriedIds(m') == TriedIds(m) && NewIds(m') == NewIds(m)
  {
  }

  lemma SameInv(e: Env, s: State, m': map<nat, Info>, pending: Option<nat>)
    requires InvPending(e, s, pending)
    requires SameTables(s.mapInfo, m') && SameSlots(s.mapInfo, m') && InfosOk(m')
    ensures InvPending(e, s.(mapInfo := m'), pending)
  {
    assert m'.Keys == s.mapInfo.Keys;
    hide SameTables, SameSlots, Indexed, Placed, NewTable, TriedTable, InfosOk, IdsBelow;
    SameIndexes(s.mapInfo, m', s);
    SameNew(s.mapInfo, m', s.vvNew, pending);
    SameTried(e, s.mapInfo, m', s.vvTried);
    SameIds(s.mapInfo, m');
    KeysBelow(s.mapInfo, m', s.nIdCount);
  }

  lemma TouchSame(m: map<nat, Info>, id: nat, info: Info)
    requires id in m && SameTable(m[id], info) && m[id].nRandomPos == info.nRandomPos
    ensures SameTables(m, m[id := info]) && SameSlots(m, m[id := info])
    ensures InfosOk(m) && InfoOk(info) ==> InfosOk(m[id := info])
  {
  }

  lemma InvInfos(e: Env, s: State, pending: Option<nat>)
    requires InvPending(e, s, pending)
    ensures InfosOk(s.mapInfo)
  {
  }

  /** Changing the statistics of an entry keeps the invariant. */
  lemma TouchKeeps(e: Env, s: State, id: nat, info: Info, pending: Option<nat>)
    requires InvPending(e, s, pending)
    requires id in s.mapInfo && SameTable(s.mapInfo[id], info) && s.mapInfo[id].nRandomPos == info.nRandomPos
    requires InfoOk(info)
    ensures InvPending(e, SetInfo(s, id, info), pending)
  {
    hide InvPending, SameTables, SameSlots, InfosOk;
    TouchSame(s.mapInfo, id, info);
    InvInfos(e, s, pending);
    SameInv(e, s, s.mapInfo[id := info], pending);
  }

  // ---------------------------------------------------------------- adding a reference

  lemma AppendPlaced(m: map<nat, Info>, v: seq<nat>, id: nat, info: Info)
    requires Placed(m, v) && id !in m && info.nRandomPos == |v|
    ensures Placed(m[id := info], v + [id])
  {
  }

  lemma InsertIndexed(m: map<nat, Info>, a: map<NetAddr, nat>, id: nat, info: Info)
    requires Indexed(m, a) && id !in m && info.Net() !in a
    ensures Indexed(m[id := info], a[info.Net() := id])
  {
  }

  lemma InsertBelow(m: map<nat, Info>, id: nat, info: Info)
    requires IdsBelow(m, id)
    ensures IdsBelow(m[id := info], id + 1) && id !in m
  {
  }

  lemma InsertNewTable(m: map<nat, Info>, vv: seq<set<nat>>, id: nat, info: Info)
    requires NewTable(m, vv, None) && id !in m && info.nRefCount == 1
    ensures NewTable(m[id := info], vv, Some(id))
    ensures forall b | 0 <= b < |vv| :: id !in vv[b]
  {
    CountEmpty(id, vv);
  }

  lemma InsertTriedTable(e: Env, m: map<nat, Info>, vv: seq<seq<nat>>, id: nat, info: Info)
    requires TriedTable(e, m, vv) && id !in m && !info.fInTried
    ensures TriedTable(e, m[id := info], vv)
  {
  }

  lemma InsertIds(m: map<nat, Info>, id: nat, info: Info)
    requires id !in m && !info.fInTried
    ensures TriedIds(m[id := info]) == TriedIds(m)
    ensures NewIds(m[id := info]) == NewIds(m) + {id}
    ensures id !in NewIds(m)
  {
  }

  lemma InsertInfos(m: map<nat, Info>, id: nat, info: Info)
    requires InfosOk(m) && InfoOk(info)
    ensures InfosOk(m[id := info])
  {
  }

  /** A created entry with its first reference: everything holds but that no bucket has it. */
  lemma CreateKeeps(e: Env, s: State, addr: Address, source: NetAddr, penalty: int)
    requires Inv(e, s) && addr.svc.net !in s.mapAddr
    ensures InvPending(e, AddRef(Created(s, addr, source, penalty), s.nIdCount), Some(s.nIdCount))
    ensures s.nIdCount !in s.mapInfo && forall b | 0 <= b < |s.vvNew| :: s.nIdCount !in s.vvNew[b]
  {
    hide Indexed, Placed, IdsBelow, NewTable, TriedTable, InfosOk, TriedIds, NewIds;
    var id := s.nIdCount;
    var t := AddRef(Created(s, addr, source, penalty), id);
    var info := t.mapInfo[id];
    assert t.mapInfo == s.mapInfo[id := info];
    InsertBelow(s.mapInfo, id, info);
    AppendPlaced(s.mapInfo, s.vRandom, id, info);
    InsertIndexed(s.mapInfo, s.mapAddr, id, info);
    InsertInfos(s.mapInfo, id, info);
    InsertNewTable(s.mapInfo, s.vvNew, id, info);
    InsertTriedTable(e, s.mapInfo, s.vvTried, id, info);
    InsertIds(s.mapInfo, id, info);
  }

  lemma AddRefNewTable(m: map<nat, Info>, vv: seq<set<nat>>, id: nat, info: Info)
    requires NewTable(m, vv, None) && id in m && info.nRefCount == m[id].nRefCount + 1
    ensures NewTable(m[id := info], vv, Some(id))
  {
  }

  /** A change of the reference count of one entry touches nothing but the reference counts. */
  lemma RefOnly(e: Env, s: State, id: nat, info: Info)
    requires Indexes(s) && TriedTable(e, s.mapInfo, s.vvTried) && id in s.mapInfo
    requires info == s.mapInfo[id].(nRefCount := info.nRefCount)
    ensures Indexes(SetInfo(s, id, info)) && TriedTable(e, s.mapInfo[id := info], s.vvTried)
    ensures TriedIds(s.mapInfo[id := info]) == TriedIds(s.mapInfo)
    ensures NewIds(s.mapInfo[id := info]) == NewIds(s.mapInfo)
  {
    hide Indexed, Placed, IdsBelow, TriedTable;
    var m' := s.mapInfo[id := info];
    assert SameSlots(s.mapInfo, m');
    SameIndexes(s.mapInfo, m', s);
    KeysBelow(s.mapInfo, m', s.nIdCount);
    RefTriedTable(e, s.mapInfo, s.vvTried, id, info);
  }

  lemma RefTriedTable(e: Env, m: map<nat, Info>, vv: seq<seq<nat>>, id: nat, info: Info)
    requires TriedTable(e, m, vv) && id in m && info == m[id].(nRefCount := info.nRefCount)
    ensures TriedTable(e, m[id := info], vv)
  {
  }

  lemma AddRefKeeps(e: Env, s: State, id: nat)
    requires Inv(e, s) && id in s.mapInfo
    requires !s.mapInfo[id].fInTried && s.mapInfo[id].nRefCount < NEW_BUCKETS_PER_ADDRESS
    ensures InvPending(e, AddRef(s, id), Some(id))
  {
    assert InfoOk(s.mapInfo[id]);
    hide Indexes, NewTable, TriedTable, InfosOk, TriedIds, NewIds;
    var info := AddRef(s, id).mapInfo[id];
    AddRefNewTable(s.mapInfo, s.vvNew, id, info);
    InsertInfos(s.mapInfo, id, info);
    RefOnly(e, s, id, info);
  }

  lemma PutNewTable(m: map<nat, Info>, vv: seq<set<nat>>, b: nat, id: nat)
    requires NewTable(m, vv, Some(id)) && id in m
    requires b < |vv| && id !in vv[b] && |vv[b]| < NEW_BUCKET_SIZE
    ensures NewTable(m, vv[b := vv[b] + {id}], None)
  {
    var vv' := vv[b := vv[b] + {id}];
    forall other | other in m
      ensures m[other].nRefCount == Count(vv', other)
    {
      CountUpdate(vv, b, vv[b] + {id}, other);
    }
  }

  lemma PutKeeps(e: Env, s: State, b: nat, id: nat)
    requires InvPending(e, s, Some(id)) && id in s.mapInfo
    requires b < |s.vvNew| && id !in s.vvNew[b] && |s.vvNew[b]| < NEW_BUCKET_SIZE
    ensures Inv(e, Put(s, b, id))
  {
    hide Indexes, NewTable, TriedTable, InfosOk, TriedIds, NewIds;
    PutNewTable(s.mapInfo, s.vvNew, b, id);
    assert Indexes(s) ==> Indexes(Put(s, b, id)) by { OtherFields(s, Put(s, b, id)); }
  }

  lemma OtherFields(s: State, t: State)
    requires t.nIdCount == s.nIdCount && t.mapInfo == s.mapInfo && t.mapAddr == s.mapAddr && t.vRandom == s.vRandom
    ensures Indexes(t) == Indexes(s)
  {
  }

  // ---------------------------------------------------------------- removing a reference

  lemma SwapFields(s: State, i: nat, j: nat)
    requires Placed(s.mapInfo, s.vRandom) && i < |s.vRandom| && j < |s.vRandom|
    ensures var t := SwapRandom(s, i, j);
            && SameButSlots(s.mapInfo, t.mapInfo)
            && t == s.(mapInfo := t.mapInfo, vRandom := s.vRandom[i := s.vRandom[j]][j := s.vRandom[i]])
  {
    hide Placed;
    SlotsKnown(s.mapInfo, s.vRandom, i, j);
    var t := SwapRandom(s, i, j);
    assert t.mapInfo.Keys == s.mapInfo.Keys;
  }

  lemma SlotsKnown(m: map<nat, Info>, v: seq<nat>, i: nat, j: nat)
    requires Placed(m, v) && i < |v| && j < |v|
    ensures v[i] in m && v[j] in m && m[v[i]].nRandomPos == i && m[v[j]].nRandomPos == j
    ensures i != j ==> v[i] != v[j]
  {
  }

  lemma SwapKeepsPlaced(s: State, i: nat, j: nat)
    requires Placed(s.mapInfo, s.vRandom) && i < |s.vRandom| && j < |s.vRandom|
    ensures var t := SwapRandom(s, i, j);
            && Placed(t.mapInfo, t.vRandom)
            && SameButSlots(s.mapInfo, t.mapInfo)
            && t == s.(mapInfo := t.mapInfo, vRandom := s.vRandom[i := s.vRandom[j]][j := s.vRandom[i]])
  {
    SwapFields(s, i, j);
    if i != j { SwapPlaced(s, i, j); }
  }

  lemma SwapPlaced(s: State, i: nat, j: nat)
    requires Placed(s.mapInfo, s.vRandom) && i < |s.vRandom| && j < |s.vRandom| && i != j
    ensures Placed(SwapRandom(s, i, j).mapInfo, SwapRandom(s, i, j).vRandom)
  {
    var m, v, t := s.mapInfo, s.vRandom, SwapRandom(s, i, j);
    SlotsKnown(m, v, i, j);
    forall x | 0 <= x < |v|
      ensures t.vRandom[x] in t.mapInfo && t.mapInfo[t.vRandom[x]].nRandomPos == x
    {
      SlotsKnown(m, v, x, i);
      SlotsKnown(m, v, x, j);
    }
    forall id | id in t.mapInfo
      ensures 0 <= t.mapInfo[id].nRandomPos < |v| && t.vRandom[t.mapInfo[id].nRandomPos] == id
    {
      SlotOf(m, v, id);
    }
  }

  lemma SlotOf(m: map<nat, Info>, v: seq<nat>, id: nat)
    requires Placed(m, v) && id in m
    ensures 0 <= m[id].nRandomPos < |v| && v[m[id].nRandomPos] == id
  {
  }

  lemma TouchPlaced(m: map<nat, Info>, v: seq<nat>, id: nat, info: Info)
    requires Placed(m, v) && id in m && info.nRandomPos == m[id].nRandomPos
    ensures Placed(m[id := info], v) && 0 <= info.nRandomPos < |v|
  {
  }

  lemma DropLastPlaced(m: map<nat, Info>, v: seq<nat>)
    requires Placed(m, v) && v != []
    ensures Placed(m - {v[|v| - 1]}, v[..|v| - 1])
  {
  }

  lemma RemoveIndexed(m: map<nat, Info>, a: map<NetAddr, nat>, id: nat)
    requires Indexed(m, a) && id in m
    ensures Indexed(m - {id}, a - {m[id].Net()})
  {
  }

  lemma RemoveSameButSlots(m: map<nat, Info>, m': map<nat, Info>, id: nat)
    requires SameButSlots(m, m')
    ensures SameButSlots(m - {id}, m' - {id})
    ensures id in m ==> m'[id].Net() == m[id].Net()
    ensures m'.Keys == m.Keys
  {
  }

  lemma DeleteKeepsIndexes(s: State, id: nat)
    requires Indexes(s) && id in s.mapInfo
    ensures Indexes(Deleted(s, id)) && SameButSlots(s.mapInfo - {id}, Deleted(s, id).mapInfo)
  {
    hide Indexed, Placed, IdsBelow, SwapRandom, SameButSlots;
    var i, last := s.mapInfo[id].nRandomPos, |s.vRandom| - 1;
    SlotOf(s.mapInfo, s.vRandom, id);
    var u := SwapRandom(s, i, last);
    SwapKeepsPlaced(s, i, last);
    SlotsIndexed(s.mapInfo, u.mapInfo, s.mapAddr);
    RemoveSameButSlots(s.mapInfo, u.mapInfo, id);
    DropLastPlaced(u.mapInfo, u.vRandom);
    RemoveIndexed(u.mapInfo, s.mapAddr, id);
    KeysBelow(s.mapInfo, u.mapInfo - {id}, s.nIdCount);
  }

  lemma UnrefNewTable(m: map<nat, Info>, vv: seq<set<nat>>, b: nat, id: nat, info: Info, pending: Option<nat>)
    requires NewTable(m, vv, pending) && b < |vv| && id in vv[b] && pending != Some(id)
    requires id in m && info.nRefCount == m[id].nRefCount - 1
    ensures NewTable(m[id := info], vv[b := vv[b] - {id}], pending)
  {
    var vv' := vv[b := vv[b] - {id}];
    forall other | other in m
      ensures Count(vv', other) == Count(vv, other) - if other == id then 1 else 0
    {
      CountUpdate(vv, b, vv[b] - {id}, other);
    }
  }

  lemma RemoveNewTable(m: map<nat, Info>, vv: seq<set<nat>>, id: nat, pending: Option<nat>)
    requires NewTable(m, vv, pending) && id in m && m[id].nRefCount == 0 && pending != Some(id)
    ensures NewTable(m - {id}, vv, pending)
  {
    CountPositive(vv, id);
  }

  lemma RemoveTriedTable(e: Env, m: map<nat, Info>, vv: seq<seq<nat>>, id: nat)
    requires TriedTable(e, m, vv) && id in m && !m[id].fInTried
    ensures TriedTable(e, m - {id}, vv)
  {
  }

  lemma RemoveIds(m: map<nat, Info>, id: nat)
    requires id in m && !m[id].fInTried
    ensures TriedIds(m - {id}) == TriedIds(m) && NewIds(m - {id}) == NewIds(m) - {id} && id in NewIds(m)
  {
  }

  lemma RemoveInfos(m: map<nat, Info>, id: nat)
    requires InfosOk(m)
    ensures InfosOk(m - {id})
  {
  }

  /** A member of a new bucket is a known entry of the new table. */
  lemma BucketMember(e: Env, s: State, b: nat, id: nat, pending: Option<nat>)
    requires InvPending(e, s, pending) && b < |s.vvNew| && id in s.vvNew[b]
    ensures id in s.mapInfo && !s.mapInfo[id].fInTried && InfoOk(s.mapInfo[id])
    ensures Placed(s.mapInfo, s.vRandom)
  {
    CountPositive(s.vvNew, id);
  }

  lemma EvictKeeps(e: Env, s: State, b: nat, id: nat, pending: Option<nat>)
    requires InvPending(e, s, pending)
    requires b < |s.vvNew| && id in s.vvNew[b] && pending != Some(id)
    requires id in s.mapInfo && Placed(s.mapInfo, s.vRandom)
    ensures InvPending(e, Evicted(s, b, id), pending)
  {
    hide Indexes, NewTable, TriedTable, InfosOk, TriedIds, NewIds, Placed, Deleted;
    BucketMember(e, s, b, id, pending);
    var info := s.mapInfo[id].(nRefCount := s.mapInfo[id].nRefCount - 1);
    var t := SetInfo(s, id, info);
    var vv := s.vvNew[b := s.vvNew[b] - {id}];
    UnrefNewTable(s.mapInfo, s.vvNew, b, id, info, pending);
    RefOnly(e, s, id, info);
    if info.nRefCount > 0 {
      InsertInfos(s.mapInfo, id, info);
      OtherFields(t, t.(vvNew := vv));
    } else {
      UpdateThenRemove(s.mapInfo, id, info);
      RemoveInfos(s.mapInfo, id);
      DeleteKeepsTables(e, t, vv, id, pending);
      DeletedFields(t, id);
    }
  }

  lemma UpdateThenRemove(m: map<nat, Info>, id: nat, info: Info)
    ensures m[id := info] - {id} == m - {id}
  {
  }

  lemma DeleteKeepsTables(e: Env, t: State, vv: seq<set<nat>>, id: nat, pending: Option<nat>)
    requires Indexes(t) && id in t.mapInfo && !t.mapInfo[id].fInTried && t.mapInfo[id].nRefCount == 0
    requires NewTable(t.mapInfo, vv, pending) && TriedTable(e, t.mapInfo, t.vvTried) && pending != Some(id)
    requires InfosOk(t.mapInfo - {id})
    requires Counters(t)
    ensures InvPending(e, Deleted(t, id).(vvNew := vv), pending)
  {
    hide Indexes, NewTable, TriedTable, InfosOk, TriedIds, NewIds, Placed, SameTables, SameButSlots, Deleted;
    IndexesPlaced(t);
    DeletedFields(t, id);
    var u := Deleted(t, id);
    DeleteKeepsIndexes(t, id);
    OtherFields(u, u.(vvNew := vv));
    var m := t.mapInfo - {id};
    RemoveNewTable(t.mapInfo, vv, id, pending);
    RemoveTriedTable(e, t.mapInfo, t.vvTried, id);
    RemoveIds(t.mapInfo, id);
    SlotsTables(m, u.mapInfo);
    SameNew(m, u.mapInfo, vv, pending);
    SameTried(e, m, u.mapInfo, t.vvTried);
    SameIds(m, u.mapInfo);
  }

  lemma IndexesPlaced(s: State)
    requires Indexes(s)
    ensures Placed(s.mapInfo, s.vRandom)
  {
  }

  lemma DeletedFields(s: State, id: nat)
    requires Indexes(s) && id in s.mapInfo
    ensures var t := Deleted(s, id);
            && t.nIdCount == s.nIdCount && t.nTried == s.nTried && t.nNew == s.nNew - 1
            && t.vvTried == s.vvTried && t.vvNew == s.vvNew
            && t.mapAddr == s.mapAddr - {s.mapInfo[id].Net()}
  {
  }
}

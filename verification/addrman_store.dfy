/**
 The saved form of a manager (src/addrman.h:251-379): which fields it keeps, the order in
 which it lists the entries, and in what sense loading gives the manager back.
 */
module AddrManStore {
  import opened Common
  import opened AddrManState
  import opened FiniteSets
  import Steps = AddrManSteps

  /** The fields of an entry that are written (src/addrman.h:49-55; `CAddress` adds services,
      time and service but not the last try). */
  datatype Stored = Stored(addr: Address, source: NetAddr, nLastSuccess: int, nAttempts: int)

  datatype Item = Version(v: nat) | Key(key: Bytes) | Int(n: int) | Entry(rec: Stored)

  function StoredOf(info: Info): Stored {
    Stored(info.addr, info.source, info.nLastSuccess, info.nAttempts)
  }

  /** The entry a loader makes of a stored one, before it counts references. */
  function Restored(rec: Stored, fInTried: bool, nRandomPos: int): Info {
    Info(rec.addr, rec.source, rec.nLastSuccess, 0, rec.nAttempts, 0, fInTried, nRandomPos)
  }

  // ---------------------------------------------------------------- the order of the entries

  predicate Wanted(info: Info, tried: bool) {
    if tried then info.fInTried else info.nRefCount != 0
  }

  /** The ids among `ids` whose entries are written in the first or in the second list. */
  function Select(m: map<nat, Info>, ids: seq<nat>, tried: bool): seq<nat>
    requires forall id | id in ids :: id in m
  {
    if ids == [] then []
    else
      var n := |ids| - 1;
      Select(m, ids[..n], tried) + if Wanted(m[ids[n]], tried) then [ids[n]] else []
  }

  function NewOrder(m: map<nat, Info>): seq<nat> { Select(m, Ascending(m.Keys), false) }

  function TriedOrder(m: map<nat, Info>): seq<nat> { Select(m, Ascending(m.Keys), true) }

  function Entries(m: map<nat, Info>, ids: seq<nat>): seq<Item>
    requires forall id | id in ids :: id in m
  {
    seq(|ids|, i requires 0 <= i < |ids| => Entry(StoredOf(m[ids[i]])))
  }

  function IndexOf(order: seq<nat>, id: nat): (i: nat)
    requires id in order
    ensures i < |order| && order[i] == id
  {
    if order[|order| - 1] == id then |order| - 1 else IndexOf(order[..|order| - 1], id)
  }

  function Indices(order: seq<nat>, ids: seq<nat>): seq<Item>
    requires forall id | id in ids :: id in order
  {
    seq(|ids|, i requires 0 <= i < |ids| => Int(IndexOf(order, ids[i])))
  }

  predicate AllIn(vv: seq<set<nat>>, order: seq<nat>) {
    forall b, id | 0 <= b < |vv| && id in vv[b] :: id in order
  }

  function BucketItems(order: seq<nat>, bucket: set<nat>): seq<Item>
    requires forall id | id in bucket :: id in order
  {
    [Int(|bucket|)] + Indices(order, Ascending(bucket))
  }

  function Buckets(vv: seq<set<nat>>, order: seq<nat>): seq<Item>
    requires AllIn(vv, order)
  {
    if vv == [] then [] else Buckets(vv[..|vv| - 1], order) + BucketItems(order, vv[|vv| - 1])
  }

  function Header(e: Env, s: State): seq<Item> {
    [Version(0), Key(e.nKey), Int(s.nNew), Int(s.nTried), Int(NEW_BUCKET_COUNT)]
  }

  // src/addrman.h:273-318
  function Saved(e: Env, s: State): seq<Item>
    requires AllIn(s.vvNew, NewOrder(s.mapInfo))
    requires forall id | id in NewOrder(s.mapInfo) || id in TriedOrder(s.mapInfo) :: id in s.mapInfo
  {
    Header(e, s) + Entries(s.mapInfo, NewOrder(s.mapInfo)) + Entries(s.mapInfo, TriedOrder(s.mapInfo))
      + Buckets(s.vvNew, NewOrder(s.mapInfo))
  }

  // ---------------------------------------------------------------- facts about the order

  lemma {:induction false} SelectMembers(m: map<nat, Info>, ids: seq<nat>, tried: bool)
    requires forall id | id in ids :: id in m
    ensures forall id :: id in Select(m, ids, tried) <==> id in ids && Wanted(m[id], tried)
  {
    if ids != [] {
      SelectMembers(m, ids[..|ids| - 1], tried);
      assert ids == ids[..|ids| - 1] + [ids[|ids| - 1]];
    }
  }

  lemma {:induction false} SelectAscends(m: map<nat, Info>, ids: seq<nat>, tried: bool)
    requires Ascends(ids) && forall id | id in ids :: id in m
    ensures Ascends(Select(m, ids, tried))
  {
    if ids != [] {
      var n := |ids| - 1;
      SelectAscends(m, ids[..n], tried);
      SelectMembers(m, ids[..n], tried);
      var front := Select(m, ids[..n], tried);
      forall i | 0 <= i < |front| ensures front[i] < ids[n] {
        assert front[i] in ids[..n];
      }
    }
  }

  lemma {:induction false} SelectPrefix(m: map<nat, Info>, ids: seq<nat>, i: nat, tried: bool)
    requires i <= |ids| && forall id | id in ids :: id in m
    ensures Select(m, ids[..i], tried) <= Select(m, ids, tried)
    decreases |ids| - i
  {
    if i == |ids| {
      assert ids[..i] == ids;
    } else {
      assert ids[..i + 1][..i] == ids[..i];
      SelectPrefix(m, ids, i + 1, tried);
    }
  }

  lemma AscendsDistinct(s: seq<nat>)
    requires Ascends(s)
    ensures Distinct(s)
  {
  }

  /** In a consistent manager the two lists are the new and the tried ids. */
  lemma Orders(e: Env, s: State)
    requires Inv(e, s)
    ensures var m := s.mapInfo;
            && (forall id :: id in NewOrder(m) <==> id in NewIds(m))
            && (forall id :: id in TriedOrder(m) <==> id in TriedIds(m))
            && Ascends(NewOrder(m)) && Ascends(TriedOrder(m))
            && |NewOrder(m)| == s.nNew && |TriedOrder(m)| == s.nTried
            && AllIn(s.vvNew, NewOrder(m))
  {
    var m := s.mapInfo;
    hide InvPending, Wanted, NewOrder, TriedOrder, NewIds, TriedIds, Ascends;
    RefsTell(e, s);
    OrdersList(m);
    OrderHasBuckets(s);
    AscendsDistinct(NewOrder(m));
    AscendsDistinct(TriedOrder(m));
    DistinctLength(NewOrder(m), NewIds(m));
    DistinctLength(TriedOrder(m), TriedIds(m));
  }

  lemma OrderHasBuckets(s: State)
    requires forall id :: id in NewOrder(s.mapInfo) <==> id in NewIds(s.mapInfo)
    requires forall b, id | 0 <= b < |s.vvNew| && id in s.vvNew[b] :: id in s.mapInfo && !s.mapInfo[id].fInTried
    ensures AllIn(s.vvNew, NewOrder(s.mapInfo))
  {
    hide NewOrder;
  }

  lemma OrdersList(m: map<nat, Info>)
    requires forall id | id in m :: Wanted(m[id], false) <==> !m[id].fInTried
    ensures forall id :: id in NewOrder(m) <==> id in NewIds(m)
    ensures forall id :: id in TriedOrder(m) <==> id in TriedIds(m)
    ensures Ascends(NewOrder(m)) && Ascends(TriedOrder(m))
  {
    hide Ascends;
    var ids := Ascending(m.Keys);
    SelectMembers(m, ids, false);
    SelectMembers(m, ids, true);
    SelectAscends(m, ids, false);
    SelectAscends(m, ids, true);
  }

  lemma RefsTell(e: Env, s: State)
    requires Inv(e, s)
    ensures forall id | id in s.mapInfo :: Wanted(s.mapInfo[id], false) <==> !s.mapInfo[id].fInTried
    ensures forall id | id in s.mapInfo :: Wanted(s.mapInfo[id], true) <==> s.mapInfo[id].fInTried
    ensures forall b, id | 0 <= b < |s.vvNew| && id in s.vvNew[b] :: id in s.mapInfo && !s.mapInfo[id].fInTried
    ensures Counters(s)
  {
    forall b, id | 0 <= b < |s.vvNew| && id in s.vvNew[b]
      ensures id in s.mapInfo && !s.mapInfo[id].fInTried
    {
      Steps.BucketMember(e, s, b, id, None);
    }
    hide NewTable, TriedTable, Indexes;
  }

  // ---------------------------------------------------------------- what loading preserves

  /** `s'` is `s` with the id `all[j]` renamed to `j`: the same addresses and stored fields,
      the same places in the tables, the same counters; only the order of the ids, of
      `vRandom` and within the tried buckets may differ, and the last tries are forgotten. */
  ghost predicate Renamed(s: State, s': State, all: seq<nat>) {
    && Distinct(all) && (forall id :: id in all <==> id in s.mapInfo)
    && RenamedInfos(s.mapInfo, s'.mapInfo, all)
    && RenamedIndex(s.mapInfo, s'.mapAddr, all)
    && s'.nIdCount == |all|
    && |s'.vRandom| == |all| && (forall j | 0 <= j < |all| :: s'.vRandom[j] == j)
    && RenamedTried(s.vvTried, s'.vvTried, all)
    && RenamedNew(s.vvNew, s'.vvNew, all)
    && s'.nNew == s.nNew && s'.nTried == s.nTried
  }

  ghost predicate RenamedInfos(m: map<nat, Info>, m': map<nat, Info>, all: seq<nat>)
  {
    && (forall j: nat :: j in m' <==> j < |all|)
    && (forall j: nat | j < |all| && all[j] in m :: m'[j] == m[all[j]].(nLastTry := 0, nRandomPos := j))
  }

  ghost predicate RenamedIndex(m: map<nat, Info>, a': map<NetAddr, nat>, all: seq<nat>) {
    && (forall j: nat | j < |all| && all[j] in m :: m[all[j]].Net() in a' && a'[m[all[j]].Net()] == j)
    && (forall net | net in a' :: a'[net] < |all| && all[a'[net]] in m && m[all[a'[net]]].Net() == net)
  }

  ghost predicate RenamedSet(a: set<nat>, a': set<nat>, all: seq<nat>) {
    forall j: nat :: j in a' <==> j < |all| && all[j] in a
  }

  ghost predicate RenamedTried(vv: seq<seq<nat>>, vv': seq<seq<nat>>, all: seq<nat>) {
    && |vv'| == |vv|
    && (forall k | 0 <= k < |vv| :: Distinct(vv'[k]) && RenamedSet(Elements(vv[k]), Elements(vv'[k]), all))
  }

  ghost predicate RenamedNew(vv: seq<set<nat>>, vv': seq<set<nat>>, all: seq<nat>) {
    && |vv'| == |vv|
    && (forall b | 0 <= b < |vv| :: RenamedSet(vv[b], vv'[b], all))
  }

  /** Renaming along a listing without repetitions keeps the size of a set. */
  lemma {:induction false} RenamedSize(a: set<nat>, a': set<nat>, all: seq<nat>)
    requires Distinct(all) && (forall x | x in a :: x in all) && RenamedSet(a, a', all)
    ensures |a'| == |a|
  {
    if all == [] {
      assert a == {} && a' == {};
    } else {
      var n := |all| - 1;
      var front := all[..n];
      assert all == front + [all[n]];
      RenamedSize(a - {all[n]}, a' - {n}, front);
    }
  }

  lemma {:induction false} RenamedCount(vv: seq<set<nat>>, vv': seq<set<nat>>, id: nat, j: nat)
    requires |vv'| == |vv| && forall b | 0 <= b < |vv| :: j in vv'[b] <==> id in vv[b]
    ensures Count(vv', j) == Count(vv, id)
  {
    if vv != [] {
      RenamedCount(vv[..|vv| - 1], vv'[..|vv| - 1], id, j);
    }
  }

  lemma RenamedNewTable(m: map<nat, Info>, m': map<nat, Info>, vv: seq<set<nat>>, vv': seq<set<nat>>, all: seq<nat>)
    requires NewTable(m, vv, None) && Distinct(all) && forall id :: id in all <==> id in m
    requires RenamedInfos(m, m', all) && RenamedNew(vv, vv', all)
    ensures NewTable(m', vv', None)
  {
    forall b | 0 <= b < |vv'| ensures |vv'[b]| <= NEW_BUCKET_SIZE && forall j | j in vv'[b] :: j in m' {
      assert RenamedSet(vv[b], vv'[b], all);
      RenamedSize(vv[b], vv'[b], all);
    }
    forall j | j in m' ensures m'[j].nRefCount == Count(vv', j) {
      assert all[j] in m;
      forall b | 0 <= b < |vv| ensures j in vv'[b] <==> all[j] in vv[b] {
        assert RenamedSet(vv[b], vv'[b], all);
      }
      RenamedCount(vv, vv', all[j], j);
    }
  }

  lemma RenamedTriedSize(m: map<nat, Info>, bucket: seq<nat>, bucket': seq<nat>, all: seq<nat>)
    requires Distinct(bucket) && Distinct(bucket') && Distinct(all) && forall x | x in bucket :: x in all
    requires RenamedSet(Elements(bucket), Elements(bucket'), all)
    ensures |bucket'| == |bucket|
  {
    DistinctLength(bucket, Elements(bucket));
    DistinctLength(bucket', Elements(bucket'));
    RenamedSize(Elements(bucket), Elements(bucket'), all);
  }

  lemma RenamedTriedTable(e: Env, m: map<nat, Info>, m': map<nat, Info>, vv: seq<seq<nat>>, vv': seq<seq<nat>>, all: seq<nat>)
    requires TriedTable(e, m, vv) && Distinct(all) && forall id :: id in all <==> id in m
    requires RenamedInfos(m, m', all) && RenamedTried(vv, vv', all)
    ensures TriedTable(e, m', vv')
  {
    forall k | 0 <= k < |vv'| ensures |vv'[k]| <= TRIED_BUCKET_SIZE {
      RenamedTriedSize(m, vv[k], vv'[k], all);
    }
    forall k, i | 0 <= k < |vv'| && 0 <= i < |vv'[k]|
      ensures vv'[k][i] in m' && m'[vv'[k][i]].fInTried && e.TriedBucket(m'[vv'[k][i]].addr.svc) == k
    {
      var j := vv'[k][i];
      assert j in Elements(vv'[k]);
      assert all[j] in Elements(vv[k]);
    }
    forall j | j in m' && m'[j].fInTried ensures j in vv'[e.TriedBucket(m'[j].addr.svc)] {
      assert all[j] in m;
      var k := e.TriedBucket(m'[j].addr.svc);
      assert all[j] in Elements(vv[k]);
      assert j in Elements(vv'[k]);
    }
  }

  lemma RenamedIds(m: map<nat, Info>, m': map<nat, Info>, all: seq<nat>)
    requires Distinct(all) && (forall id :: id in all <==> id in m) && RenamedInfos(m, m', all)
    ensures |TriedIds(m')| == |TriedIds(m)| && |NewIds(m')| == |NewIds(m)|
  {
    forall j: nat | j < |all| ensures all[j] in m { assert all[j] in all; }
    RenamedSize(TriedIds(m), TriedIds(m'), all);
    RenamedSize(NewIds(m), NewIds(m'), all);
  }

  lemma RenamedIndexes(s: State, s': State, all: seq<nat>)
    requires Renamed(s, s', all)
    ensures Indexes(s')
  {
    hide RenamedTried, RenamedNew, Indexed, Placed, Distinct;
    RenamedIndexed(s.mapInfo, s'.mapInfo, s'.mapAddr, all);
    RenamedPlaced(s.mapInfo, s'.mapInfo, s'.vRandom, all);
    assert IdsBelow(s'.mapInfo, s'.nIdCount);
  }

  lemma RenamedIndexed(m: map<nat, Info>, m': map<nat, Info>, a': map<NetAddr, nat>, all: seq<nat>)
    requires RenamedInfos(m, m', all) && RenamedIndex(m, a', all) && forall id :: id in all <==> id in m
    ensures Indexed(m', a')
  {
    forall j | j in m' ensures m'[j].Net() == m[all[j]].Net() {
      assert all[j] in all;
    }
  }

  lemma RenamedPlaced(m: map<nat, Info>, m': map<nat, Info>, v: seq<nat>, all: seq<nat>)
    requires RenamedInfos(m, m', all) && forall id :: id in all <==> id in m
    requires |v| == |all| && forall j | 0 <= j < |all| :: v[j] == j
    ensures Placed(m', v)
  {
    forall j | j in m' ensures m'[j].nRandomPos == j {
      assert all[j] in all;
    }
  }

  lemma RenamedOk(m: map<nat, Info>, m': map<nat, Info>, all: seq<nat>)
    requires InfosOk(m) && (forall id :: id in all <==> id in m) && RenamedInfos(m, m', all)
    ensures InfosOk(m')
  {
    forall j | j in m' ensures InfoOk(m'[j]) {
      assert all[j] in m;
    }
  }

  /** A renamed manager is as consistent as the original. */
  lemma RenamedKeeps(e: Env, s: State, s': State, all: seq<nat>)
    requires Inv(e, s) && Renamed(s, s', all)
    ensures Inv(e, s')
  {
    hide Indexes, NewTable, TriedTable, InfosOk, TriedIds, NewIds, RenamedInfos, RenamedIndex, RenamedTried, RenamedNew, Distinct;
    RenamedIndexes(s, s', all);
    RenamedOk(s.mapInfo, s'.mapInfo, all);
    RenamedNewTable(s.mapInfo, s'.mapInfo, s.vvNew, s'.vvNew, all);
    RenamedTriedTable(e, s.mapInfo, s'.mapInfo, s.vvTried, s'.vvTried, all);
    RenamedIds(s.mapInfo, s'.mapInfo, all);
  }

  // ---------------------------------------------------------------- steps of the writer

  lemma SelectNext(m: map<nat, Info>, ids: seq<nat>, i: nat, tried: bool)
    requires i < |ids| && forall id | id in ids :: id in m
    ensures Select(m, ids[..i + 1], tried) ==
            Select(m, ids[..i], tried) + if Wanted(m[ids[i]], tried) then [ids[i]] else []
    ensures forall id | id in Select(m, ids[..i], tried) :: id in ids[..i]
  {
    assert ids[..i + 1][..i] == ids[..i];
    SelectMembers(m, ids[..i], tried);
  }

  /** A prefix that already has all there is of its list. */
  lemma SelectFull(m: map<nat, Info>, ids: seq<nat>, i: nat, tried: bool)
    requires i <= |ids| && forall id | id in ids :: id in m
    requires i == |ids| || |Select(m, ids[..i], tried)| == |Select(m, ids, tried)|
    ensures Select(m, ids[..i], tried) == Select(m, ids, tried)
  {
    SelectPrefix(m, ids, i, tried);
    if i == |ids| { assert ids[..i] == ids; }
  }

  lemma IndexOfDistinct(order: seq<nat>, j: nat)
    requires Distinct(order) && j < |order|
    ensures IndexOf(order, order[j]) == j
  {
  }
}

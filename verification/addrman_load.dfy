/** The loader's progress (src/addrman.h:319-378): what holds between two items it reads. */
module AddrManLoad {
  import opened Common
  import opened AddrManState
  import opened FiniteSets
  import opened AddrManStore
  import Check = AddrManCheck

  ghost predicate IsSaved(e: Env, s: State, stream: seq<Item>) {
    && AllIn(s.vvNew, NewOrder(s.mapInfo))
    && (forall id | id in NewOrder(s.mapInfo) || id in TriedOrder(s.mapInfo) :: id in s.mapInfo)
    && stream == Saved(e, s)
  }

  /** The ids of `s` in the order in which the loader numbers them. */
  function LoadOrder(m: map<nat, Info>): seq<nat> { NewOrder(m) + TriedOrder(m) }

  /** The entries read so far are those of `all`, each with the references counted so far. */
  ghost predicate Loading(m: map<nat, Info>, m': map<nat, Info>, all: seq<nat>, vv: seq<set<nat>>, b: nat, done: set<nat>)
    requires b <= |vv|
  {
    && (forall j: nat :: j in m' <==> j < |all|)
    && (forall j: nat | j < |all| :: all[j] in m)
    && (forall j: nat | j < |all| :: m'[j] == m[all[j]].(nLastTry := 0, nRandomPos := j,
                                                         nRefCount := Check.CountTo(vv, b, done, all[j])))
  }

  ghost predicate Numbered(v: seq<nat>, n: nat) {
    |v| == n && forall j | 0 <= j < n :: v[j] == j
  }

  lemma LoadOrderListsAll(e: Env, s: State)
    requires Inv(e, s)
    ensures var all := LoadOrder(s.mapInfo);
            && Distinct(all) && (forall id :: id in all <==> id in s.mapInfo)
            && |all| == s.nNew + s.nTried
  {
    hide InvPending, NewOrder, TriedOrder, Ascends, AllIn;
    Orders(e, s);
    AscendsDistinct(NewOrder(s.mapInfo));
    AscendsDistinct(TriedOrder(s.mapInfo));
    var a, b := NewOrder(s.mapInfo), TriedOrder(s.mapInfo);
    forall i, j | 0 <= i < j < |a + b| ensures (a + b)[i] != (a + b)[j] {
      if i < |a| <= j {
        assert a[i] in NewIds(s.mapInfo) && b[j - |a|] in TriedIds(s.mapInfo);
      }
    }
  }

  // ---------------------------------------------------------------- reading entries

  lemma LoadingNone(m: map<nat, Info>, vv: seq<set<nat>>)
    ensures Loading(m, map[], [], vv, 0, {}) && RenamedIndex(m, map[], [])
  {
  }

  lemma LoadingEntry(m: map<nat, Info>, m': map<nat, Info>, all: seq<nat>, vv: seq<set<nat>>, id: nat, info: Info)
    requires Loading(m, m', all, vv, 0, {}) && id in m
    requires info == m[id].(nLastTry := 0, nRandomPos := |all|, nRefCount := 0)
    ensures Loading(m, m'[|all| := info], all + [id], vv, 0, {})
  {
    assert Check.CountTo(vv, 0, {}, id) == 0;
  }

  lemma IndexEntry(s: State, a': map<NetAddr, nat>, all: seq<nat>, id: nat)
    requires Indexed(s.mapInfo, s.mapAddr) && RenamedIndex(s.mapInfo, a', all)
    requires id in s.mapInfo && id !in all
    ensures RenamedIndex(s.mapInfo, a'[s.mapInfo[id].Net() := |all|], all + [id])
  {
  }


  lemma TriedNone(e: Env, m: map<nat, Info>, vv: seq<seq<nat>>, all: seq<nat>)
    requires TriedTable(e, m, vv) && forall id | id in all :: id in m && !m[id].fInTried
    ensures RenamedTried(vv, EmptyTried(), all)
  {
    var vv' := EmptyTried();
    forall k | 0 <= k < |vv| ensures Distinct(vv'[k]) && RenamedSet(Elements(vv[k]), Elements(vv'[k]), all) {
      forall j: nat | j < |all| ensures all[j] !in Elements(vv[k]) {
        assert all[j] in all;
      }
    }
  }

  /** There is always room: a tried bucket is being refilled with what it held. */
  lemma TriedRoom(e: Env, m: map<nat, Info>, vv: seq<seq<nat>>, vv': seq<seq<nat>>, all: seq<nat>, id: nat, k: nat)
    requires TriedTable(e, m, vv) && RenamedTried(vv, vv', all) && Distinct(all + [id])
    requires id in m && m[id].fInTried && k == e.TriedBucket(m[id].addr.svc)
    ensures k < |vv'| && |vv'[k]| < TRIED_BUCKET_SIZE
  {
    var whole := Elements(vv[k]);
    var part := set x | x in whole && x in all;
    assert id in whole;
    DistinctAppend(all, id);
    DistinctLength(vv[k], whole);
    DistinctLength(vv'[k], Elements(vv'[k]));
    assert RenamedSet(part, Elements(vv'[k]), all) by {
      assert RenamedSet(whole, Elements(vv'[k]), all);
    }
    RenamedSize(part, Elements(vv'[k]), all);
    ProperSubset(part, whole, id);
  }

  lemma DistinctAppend(all: seq<nat>, id: nat)
    requires Distinct(all + [id])
    ensures Distinct(all) && id !in all
  {
    var whole := all + [id];
    forall i | 0 <= i < |all| ensures all[i] != id {
      assert whole[i] != whole[|all|];
    }
    forall i, j | 0 <= i < j < |all| ensures all[i] != all[j] {
      assert whole[i] != whole[j];
    }
  }

  lemma ProperSubset(a: set<nat>, b: set<nat>, x: nat)
    requires a <= b && x in b && x !in a
    ensures |a| < |b|
  {
    var c := b - {x};
    assert a <= c;
    SubsetSize(a, c);
  }

  lemma TriedNext(e: Env, m: map<nat, Info>, vv: seq<seq<nat>>, vv': seq<seq<nat>>, all: seq<nat>, id: nat, k: nat)
    requires TriedTable(e, m, vv) && RenamedTried(vv, vv', all)
    requires id in m && m[id].fInTried && k == e.TriedBucket(m[id].addr.svc)
    ensures k < |vv'| && RenamedTried(vv, vv'[k := vv'[k] + [|all|]], all + [id])
  {
    var vv'' := vv'[k := vv'[k] + [|all|]];
    var next := all + [id];
    forall b | 0 <= b < |vv|
      ensures Distinct(vv''[b]) && RenamedSet(Elements(vv[b]), Elements(vv''[b]), next)
    {
      assert RenamedSet(Elements(vv[b]), Elements(vv'[b]), all);
      BucketTells(e, m, vv, id, b);
      if b == k {
        assert |all| !in Elements(vv'[k]);
        assert Elements(vv''[k]) == Elements(vv'[k]) + {|all|};
      }
      forall j: nat
        ensures j in Elements(vv''[b]) <==> j < |next| && next[j] in Elements(vv[b])
      {
        if b == k { assert j in Elements(vv''[b]) <==> j in Elements(vv'[b]) || j == |all|; }
        if j < |all| { assert next[j] == all[j]; } else if j == |all| { assert next[j] == id; }
      }
    }
  }

  lemma BucketTells(e: Env, m: map<nat, Info>, vv: seq<seq<nat>>, id: nat, b: nat)
    requires TriedTable(e, m, vv) && id in m && m[id].fInTried && b < |vv|
    ensures id in Elements(vv[b]) <==> b == e.TriedBucket(m[id].addr.svc)
  {
  }

  // ---------------------------------------------------------------- reading the new buckets

  lemma LoadingReference(m: map<nat, Info>, m': map<nat, Info>, all: seq<nat>, vv: seq<set<nat>>, b: nat, done: set<nat>, i: nat)
    requires b < |vv| && Loading(m, m', all, vv, b, done) && Distinct(all)
    requires i < |all| && all[i] in vv[b] && all[i] !in done
    ensures Loading(m, m'[i := m'[i].(nRefCount := m'[i].nRefCount + 1)], all, vv, b, done + {all[i]})
  {
    forall j: nat | j < |all|
      ensures Check.CountTo(vv, b, done + {all[i]}, all[j]) == Check.CountTo(vv, b, done, all[j]) + if j == i then 1 else 0
    {
    }
    hide Check.CountTo;
  }

  /** The limit on references never stops the loader: the counts of the original obeyed it. */
  lemma ReferenceFits(m: map<nat, Info>, m': map<nat, Info>, all: seq<nat>, vv: seq<set<nat>>, b: nat, done: set<nat>, i: nat)
    requires b < |vv| && Loading(m, m', all, vv, b, done) && NewTable(m, vv, None) && InfosOk(m)
    requires i < |all| && all[i] in vv[b] && all[i] !in done
    ensures m'[i].nRefCount < NEW_BUCKETS_PER_ADDRESS
  {
    Check.CountNext(vv, b, all[i]);
    Check.CountMonotone(vv, b + 1, all[i]);
    assert InfoOk(m[all[i]]);
  }

  lemma LoadingBucket(m: map<nat, Info>, m': map<nat, Info>, all: seq<nat>, vv: seq<set<nat>>, b: nat)
    requires b < |vv| && Loading(m, m', all, vv, b, vv[b])
    ensures Loading(m, m', all, vv, b + 1, {})
  {
    forall id ensures Check.CountTo(vv, b + 1, {}, id) == Check.CountTo(vv, b, vv[b], id) {
      Check.CountNext(vv, b, id);
    }
    hide Check.CountTo;
  }

  lemma LoadingDone(m: map<nat, Info>, m': map<nat, Info>, all: seq<nat>, vv: seq<set<nat>>)
    requires Loading(m, m', all, vv, |vv|, {}) && NewTable(m, vv, None)
    ensures RenamedInfos(m, m', all)
  {
    assert vv[..|vv|] == vv;
  }

  // ---------------------------------------------------------------- where the items are

  lemma {:induction false} BucketsAt(vv: seq<set<nat>>, order: seq<nat>, b: nat)
    requires AllIn(vv, order) && b < |vv|
    ensures AllIn(vv[..b], order) && AllIn(vv[..b + 1], order)
    ensures Buckets(vv[..b], order) + BucketItems(order, vv[b]) <= Buckets(vv, order)
    ensures Buckets(vv[..b + 1], order) == Buckets(vv[..b], order) + BucketItems(order, vv[b])
    decreases |vv| - b
  {
    assert vv[..b + 1][..b] == vv[..b];
    assert AllIn(vv[..b + 1], order);
    assert Buckets(vv[..b + 1], order) == Buckets(vv[..b], order) + BucketItems(order, vv[b]);
    if b + 1 == |vv| {
      assert vv[..b + 1] == vv;
    } else {
      BucketsAt(vv, order, b + 1);
    }
  }

  /** What the loader finds in the stream of a consistent manager. */
  ghost predicate StreamOf(s: State, input: seq<Item>) {
    var news, trieds := NewOrder(s.mapInfo), TriedOrder(s.mapInfo);
    && |news| == s.nNew && |trieds| == s.nTried
    && (forall id | id in news :: id in s.mapInfo && !s.mapInfo[id].fInTried)
    && (forall id | id in trieds :: id in s.mapInfo && s.mapInfo[id].fInTried)
    && AllIn(s.vvNew, news)
    && |input| >= 5 + s.nNew + s.nTried
    && input[2] == Int(s.nNew) && input[3] == Int(s.nTried) && input[4] == Int(NEW_BUCKET_COUNT)
    && (forall n | 0 <= n < s.nNew :: input[5 + n] == Entry(StoredOf(s.mapInfo[news[n]])))
    && (forall n | 0 <= n < s.nTried :: input[5 + s.nNew + n] == Entry(StoredOf(s.mapInfo[trieds[n]])))
    && input[5 + s.nNew + s.nTried..] == Buckets(s.vvNew, news)
  }

  lemma StreamShape(e: Env, s: State, input: seq<Item>)
    requires Inv(e, s) && IsSaved(e, s, input)
    ensures StreamOf(s, input)
  {
    hide InvPending, NewOrder, TriedOrder, AllIn, Buckets;
    Orders(e, s);
    var m := s.mapInfo;
    var a, b, c := Entries(m, NewOrder(m)), Entries(m, TriedOrder(m)), Buckets(s.vvNew, NewOrder(m));
    hide Entries;
    StreamParts(input, Header(e, s), a, b, c);
    EntriesAre(m, NewOrder(m));
    EntriesAre(m, TriedOrder(m));
  }

  lemma StreamParts(input: seq<Item>, h: seq<Item>, a: seq<Item>, b: seq<Item>, c: seq<Item>)
    requires input == h + a + b + c
    ensures |input| == |h| + |a| + |b| + |c|
    ensures forall i | 0 <= i < |h| :: input[i] == h[i]
    ensures forall i | 0 <= i < |a| :: input[|h| + i] == a[i]
    ensures forall i | 0 <= i < |b| :: input[|h| + |a| + i] == b[i]
    ensures input[|h| + |a| + |b|..] == c
  {
  }

  lemma EntriesAre(m: map<nat, Info>, ids: seq<nat>)
    requires forall id | id in ids :: id in m
    ensures |Entries(m, ids)| == |ids| && forall n | 0 <= n < |ids| :: Entries(m, ids)[n] == Entry(StoredOf(m[ids[n]]))
  {
  }

  lemma StreamSizes(s: State, input: seq<Item>)
    requires StreamOf(s, input)
    ensures |NewOrder(s.mapInfo)| == s.nNew && |TriedOrder(s.mapInfo)| == s.nTried
    ensures |LoadOrder(s.mapInfo)| == s.nNew + s.nTried
  {
  }

  /** The last step: everything read, the references counted. */
  lemma Loaded(e: Env, s: State, s': State)
    requires Inv(e, s)
    requires var all := LoadOrder(s.mapInfo);
             && Loading(s.mapInfo, s'.mapInfo, all, s.vvNew, |s.vvNew|, {})
             && RenamedIndex(s.mapInfo, s'.mapAddr, all)
             && s'.nIdCount == |all| && Numbered(s'.vRandom, |all|)
             && RenamedTried(s.vvTried, s'.vvTried, all)
             && RenamedNew(s.vvNew, s'.vvNew, all)
    requires s'.nNew == s.nNew && s'.nTried == s.nTried
    ensures Renamed(s, s', LoadOrder(s.mapInfo))
  {
    hide InvPending, Loading, RenamedInfos, RenamedIndex, RenamedTried, RenamedNew, LoadOrder, NewTable, Distinct;
    InvNewTable(e, s);
    LoadOrderListsAll(e, s);
    LoadingDone(s.mapInfo, s'.mapInfo, LoadOrder(s.mapInfo), s.vvNew);
  }

  lemma InvNewTable(e: Env, s: State)
    requires Inv(e, s)
    ensures NewTable(s.mapInfo, s.vvNew, None) && InfosOk(s.mapInfo) && TriedTable(e, s.mapInfo, s.vvTried)
    ensures Indexed(s.mapInfo, s.mapAddr) && |s.vvNew| == NEW_BUCKET_COUNT
  {
  }

  /** The next id of the bucket being read, found by its number. */
  lemma BucketNext(order: seq<nat>, all: seq<nat>, bucket: set<nat>, ids: seq<nat>, n: nat)
    requires n < |ids| && Ascends(ids) && (forall id :: id in ids <==> id in bucket)
    requires order <= all && (forall id | id in bucket :: id in order)
    ensures var i := IndexOf(order, ids[n]);
            && i < |all| && all[i] == ids[n] && ids[n] in bucket && ids[n] !in Elements(ids[..n])
            && Elements(ids[..n + 1]) == Elements(ids[..n]) + {ids[n]}
  {
    var i := IndexOf(order, ids[n]);
    assert all[i] == order[i];
  }

  /** A bucket read so far, with one id more. */
  lemma RenamedMore(part: set<nat>, w: set<nat>, all: seq<nat>, i: nat)
    requires RenamedSet(part, w, all) && Distinct(all) && i < |all|
    ensures RenamedSet(part + {all[i]}, w + {i}, all)
  {
  }

  /** The reader stands at position `p`, before the items of bucket `b`. */
  ghost predicate ReadUpTo(s: State, input: seq<Item>, p: nat, b: nat) {
    && AllIn(s.vvNew, NewOrder(s.mapInfo)) && b <= |s.vvNew|
    && AllIn(s.vvNew[..b], NewOrder(s.mapInfo))
    && 0 <= s.nNew && 0 <= s.nTried
    && p == 5 + s.nNew + s.nTried + |Buckets(s.vvNew[..b], NewOrder(s.mapInfo))|
  }

  ghost predicate ItemsAt(input: seq<Item>, p: nat, items: seq<Item>) {
    p + |items| <= |input| && forall i | 0 <= i < |items| :: input[p + i] == items[i]
  }

  lemma BucketItemsAt(s: State, input: seq<Item>, p: nat, b: nat)
    requires StreamOf(s, input) && ReadUpTo(s, input, p, b) && b < |s.vvNew|
    ensures forall id | id in s.vvNew[b] :: id in NewOrder(s.mapInfo)
    ensures ItemsAt(input, p, BucketItems(NewOrder(s.mapInfo), s.vvNew[b]))
    ensures ReadUpTo(s, input, p + |BucketItems(NewOrder(s.mapInfo), s.vvNew[b])|, b + 1)
  {
    hide NewOrder, TriedOrder, Buckets, BucketItems;
    var order := NewOrder(s.mapInfo);
    BucketsAt(s.vvNew, order, b);
    PrefixAt(input, 5 + s.nNew + s.nTried, Buckets(s.vvNew, order), Buckets(s.vvNew[..b], order), BucketItems(order, s.vvNew[b]));
  }

  lemma PrefixAt(input: seq<Item>, start: nat, whole: seq<Item>, front: seq<Item>, items: seq<Item>)
    requires start <= |input| && input[start..] == whole && front + items <= whole
    ensures ItemsAt(input, start + |front|, items)
  {
    forall i | 0 <= i < |items| ensures input[start + |front| + i] == items[i] {
      assert input[start..][|front| + i] == whole[|front| + i];
      assert (front + items)[|front| + i] == items[i];
    }
  }

  lemma BucketHead(s: State, input: seq<Item>, p: nat, b: nat)
    requires StreamOf(s, input) && ReadUpTo(s, input, p, b) && b < |s.vvNew|
    ensures p < |input| && input[p] == Int(|Ascending(s.vvNew[b])|)
  {
    hide NewOrder, TriedOrder, StreamOf, ReadUpTo;
    BucketItemsAt(s, input, p, b);
    assert input[p + 0] == BucketItems(NewOrder(s.mapInfo), s.vvNew[b])[0];
  }

  lemma BucketEntry(s: State, input: seq<Item>, p: nat, b: nat, n: nat)
    requires StreamOf(s, input) && ReadUpTo(s, input, p, b) && b < |s.vvNew| && n < |Ascending(s.vvNew[b])|
    ensures forall id | id in s.vvNew[b] :: id in NewOrder(s.mapInfo)
    ensures p + 1 + n < |input| && input[p + 1 + n] == Int(IndexOf(NewOrder(s.mapInfo), Ascending(s.vvNew[b])[n]))
  {
    BucketItemsAt(s, input, p, b);
    hide NewOrder, StreamOf, ReadUpTo, IndexOf;
    EntryAt(input, p, NewOrder(s.mapInfo), s.vvNew[b], n);
  }

  lemma EntryAt(input: seq<Item>, p: nat, order: seq<nat>, bucket: set<nat>, n: nat)
    requires (forall id | id in bucket :: id in order) && n < |Ascending(bucket)|
    requires ItemsAt(input, p, BucketItems(order, bucket))
    ensures p + 1 + n < |input| && input[p + 1 + n] == Int(IndexOf(order, Ascending(bucket)[n]))
  {
    hide IndexOf;
    var items := BucketItems(order, bucket);
    assert input[p + (1 + n)] == items[1 + n];
  }

  lemma NewFirst(m: map<nat, Info>)
    ensures NewOrder(m) <= LoadOrder(m)
  {
  }

  /** One reference read: the entry is there, has room for it, and is then counted once more. */
  lemma OneReference(m: map<nat, Info>, m': map<nat, Info>, order: seq<nat>, all: seq<nat>, vv: seq<set<nat>>, b: nat,
                     ids: seq<nat>, n: nat, w: set<nat>)
    requires b < |vv| && n < |ids| && Ascends(ids) && (forall id :: id in ids <==> id in vv[b])
    requires forall id | id in vv[b] :: id in order
    requires order <= all && Distinct(all) && NewTable(m, vv, None) && InfosOk(m)
    requires Loading(m, m', all, vv, b, Elements(ids[..n])) && RenamedSet(Elements(ids[..n]), w, all)
    ensures var i := IndexOf(order, ids[n]);
            && i in m' && m'[i].nRefCount < NEW_BUCKETS_PER_ADDRESS
            && Loading(m, m'[i := m'[i].(nRefCount := m'[i].nRefCount + 1)], all, vv, b, Elements(ids[..n + 1]))
            && RenamedSet(Elements(ids[..n + 1]), w + {i}, all)
  {
    var i, done := IndexOf(order, ids[n]), Elements(ids[..n]);
    hide Loading, Distinct, NewTable, RenamedSet, InfosOk, Ascends, Elements, IndexOf;
    BucketNext(order, all, vv[b], ids, n);
    RenamedMore(done, w, all, i);
    ReferenceFits(m, m', all, vv, b, done, i);
    LoadingReference(m, m', all, vv, b, done, i);
    LoadingHas(m, m', all, vv, b, done, i);
  }

  lemma LoadingHas(m: map<nat, Info>, m': map<nat, Info>, all: seq<nat>, vv: seq<set<nat>>, b: nat, done: set<nat>, i: nat)
    requires b <= |vv| && Loading(m, m', all, vv, b, done) && i < |all|
    ensures i in m'
  {
  }

  lemma BucketEnd(s: State, input: seq<Item>, p: nat, b: nat)
    requires StreamOf(s, input) && ReadUpTo(s, input, p, b) && b < |s.vvNew|
    ensures ReadUpTo(s, input, p + 1 + |Ascending(s.vvNew[b])|, b + 1)
  {
    hide NewOrder, TriedOrder, StreamOf, ReadUpTo;
    BucketItemsAt(s, input, p, b);
  }
}

/**
 The address manager (src/addrman.h:166-502, src/addrman.cpp): the class with its fields,
 each method updating them in place. Every method keeps `Valid` and makes a change that
 `AddrManSpec` allows.
 */
module AddrMan {
  import opened Common
  import opened AddrManState
  import opened FiniteSets
  import Steps = AddrManSteps
  import Promote = AddrManPromote
  import Inspects = AddrManInspect
  import Spec = AddrManSpec
  import CheckSpec = AddrManCheck
  import Reply = AddrManReply
  import opened AddrManStore
  import Loads = AddrManLoad
  import Random

  class Manager {
    const env: Env
    var nIdCount: nat
    var mapInfo: map<nat, Info>
    var mapAddr: map<NetAddr, nat>
    var vRandom: seq<nat>
    var nTried: int
    var vvTried: seq<seq<nat>>
    var nNew: int
    var vvNew: seq<set<nat>>

    ghost function Abs(): State
      reads this
    {
      State(nIdCount, mapInfo, mapAddr, vRandom, nTried, vvTried, nNew, vvNew)
    }

    ghost predicate Valid()
      reads this
    {
      Inv(env, Abs())
    }

    // src/addrman.h:383-391
    constructor (e: Env)
      ensures env == e && Valid() && Abs() == EmptyState()
    {
      env := e;
      nIdCount, mapInfo, mapAddr, vRandom := 0, map[], map[], [];
      nTried, vvTried := 0, EmptyTried();
      nNew, vvNew := 0, EmptyNew();
      new;
      assert Abs() == EmptyState();
      Steps.EmptyInv(e);
    }

    function Find(net: NetAddr): Option<nat>
      reads this
    {
      if net in mapAddr && mapAddr[net] in mapInfo then Some(mapAddr[net]) else None
    }

    // src/addrman.cpp:96-106
    method Create(addr: Address, source: NetAddr) returns (id: nat)
      modifies this
      ensures id == old(nIdCount)
      ensures Abs() == Steps.Created(old(Abs()), addr, source, 0).(mapInfo := mapInfo, nNew := old(nNew))
      ensures mapInfo == old(mapInfo)[id := Info(addr, source, 0, 0, 0, 0, false, |old(vRandom)|)]
    {
      id := nIdCount;
      nIdCount := nIdCount + 1;
      mapInfo := mapInfo[id := Info(addr, source, 0, 0, 0, 0, false, -1)];
      mapAddr := mapAddr[addr.svc.net := id];
      mapInfo := mapInfo[id := mapInfo[id].(nRandomPos := |vRandom|)];
      vRandom := vRandom + [id];
    }

    // src/addrman.cpp:108-126
    method SwapRandom(i: nat, j: nat)
      requires Placed(mapInfo, vRandom) && i < |vRandom| && j < |vRandom|
      modifies this`mapInfo, this`vRandom
      ensures Abs() == Steps.SwapRandom(old(Abs()), i, j) && |vRandom| == |old(vRandom)|
    {
      if i == j { return; }
      var id1, id2 := vRandom[i], vRandom[j];
      mapInfo := mapInfo[id1 := mapInfo[id1].(nRandomPos := j)];
      mapInfo := mapInfo[id2 := mapInfo[id2].(nRandomPos := i)];
      vRandom := vRandom[i := id2];
      vRandom := vRandom[j := id1];
    }

    /** Take a reference from `id`, delete it with its last one, and take it out of bucket `b`
        (src/addrman.cpp:164-172 and again 193-201). */
    method Unref(b: nat, id: nat)
      requires Placed(mapInfo, vRandom) && id in mapInfo && b < |vvNew|
      modifies this
      ensures Abs() == Steps.Evicted(old(Abs()), b, id)
    {
      ghost var m := mapInfo;
      mapInfo := mapInfo[id := mapInfo[id].(nRefCount := mapInfo[id].nRefCount - 1)];
      Steps.TouchPlaced(m, vRandom, id, mapInfo[id]);
      if mapInfo[id].nRefCount == 0 { Delete(id); }
      hide Placed, Steps.Deleted;
      vvNew := vvNew[b := vvNew[b] - {id}];
    }

    method Delete(id: nat)
      requires Placed(mapInfo, vRandom) && id in mapInfo
      modifies this
      ensures Abs() == Steps.Deleted(old(Abs()), id)
    {
      hide Steps.SwapRandom;
      Steps.SlotOf(mapInfo, vRandom, id);
      var net := mapInfo[id].Net();
      SwapRandom(mapInfo[id].nRandomPos, |vRandom| - 1);
      vRandom := vRandom[..|vRandom| - 1];
      mapAddr := mapAddr - {net};
      mapInfo := mapInfo - {id};
      nNew := nNew - 1;
    }

    /** The position in `order` of the first terrible entry, or its length. */
    method FirstTerrible(order: seq<nat>, nNow: int) returns (i: nat)
      requires forall id | id in order :: id in mapInfo
      ensures i <= |order|
      ensures forall j | 0 <= j < i :: !mapInfo[order[j]].IsTerrible(nNow)
      ensures i < |order| ==> mapInfo[order[i]].IsTerrible(nNow)
    {
      i := 0;
      while i < |order|
        invariant i <= |order|
        invariant forall j | 0 <= j < i :: !mapInfo[order[j]].IsTerrible(nNow)
      {
        if mapInfo[order[i]].IsTerrible(nNow) { return; }
        i := i + 1;
      }
    }

    /** The oldest of the entries at the drawn positions, the first of equals (src/addrman.cpp:178-190). */
    method OldestDrawn(order: seq<nat>, n: seq<nat>) returns (oldest: nat)
      requires forall id | id in order :: id in mapInfo
      requires n != [] && forall d | d in n :: d < |order|
      requires Ascends(order)
      ensures exists d :: d in n && order[d] == oldest
      ensures oldest in mapInfo && forall d | d in n :: Older(mapInfo, oldest, order[d])
    {
      var nI := 0;
      var nOldest: int := -1;
      while nI < |order|
        invariant nI <= |order|
        invariant nOldest == -1 ==> forall d | d in n :: nI <= d
        invariant nOldest != -1 ==> exists d :: d in n && d < nI && order[d] == nOldest
        invariant nOldest != -1 ==>
                    nOldest in mapInfo && forall d | d in n && d < nI :: Older(mapInfo, nOldest, order[d])
      {
        if nI in n {
          if nOldest == -1 || mapInfo[order[nI]].addr.nTime < mapInfo[nOldest].addr.nTime {
            nOldest := order[nI];
          }
        }
        nI := nI + 1;
      }
      assert n[0] in n;
      oldest := nOldest;
    }

    // src/addrman.cpp:152-204
    method ShrinkNew(b: nat, nNow: int, ghost pending: Option<nat>) returns (ret: int, ghost victim: nat)
      requires InvPending(env, Abs(), pending) && b < |vvNew| && vvNew[b] != {}
      modifies this
      ensures Spec.ShrinkChoice(old(Abs()), b, nNow, victim, ret)
      ensures victim in old(mapInfo) && Placed(old(mapInfo), old(vRandom))
      ensures Abs() == Steps.Evicted(old(Abs()), b, victim)
    {
      hide InvPending, Placed, Steps.Evicted, Spec.ShrinkChoice, Ascending;
      ghost var s := Abs();
      var order := Ascending(vvNew[b]);
      BucketReady(env, s, b, pending);
      assert order != [] by { assert vvNew[b] != {}; }
      var i := FirstTerrible(order, nNow);
      if i < |order| {
        victim := order[i];
        FirstIsTerrible(s, b, order, i, nNow);
        Unref(b, order[i]);
        return 0, victim;
      }
      var n0 := Random.GetRandInt(|order|);
      var n1 := Random.GetRandInt(|order|);
      var n2 := Random.GetRandInt(|order|);
      var n3 := Random.GetRandInt(|order|);
      var oldest := OldestDrawn(order, [n0, n1, n2, n3]);
      victim := oldest;
      OldestIsDrawn(s, b, order, [n0, n1, n2, n3], nNow, oldest);
      Unref(b, oldest);
      ret := 1;
    }

    static lemma FirstIsTerrible(s: State, b: nat, order: seq<nat>, i: nat, nNow: int)
      requires b < |s.vvNew| && Ascends(order) && forall id :: id in order <==> id in s.vvNew[b]
      requires forall id | id in s.vvNew[b] :: id in s.mapInfo
      requires i < |order| && s.mapInfo[order[i]].IsTerrible(nNow)
      requires forall j | 0 <= j < i :: !s.mapInfo[order[j]].IsTerrible(nNow)
      ensures Spec.ShrinkChoice(s, b, nNow, order[i], 0)
    {
      assert order[i] in order;
      forall id | id in s.vvNew[b] && id < order[i]
        ensures !s.mapInfo[id].IsTerrible(nNow)
      {
        assert id in order;
        var j :| 0 <= j < |order| && order[j] == id;
      }
    }

    /** `a` was seen no later than `b`; of equals, the one with the smaller id. */
    static predicate Older(m: map<nat, Info>, a: nat, b: nat)
      requires a in m && b in m
    {
      m[a].addr.nTime < m[b].addr.nTime || (m[a].addr.nTime == m[b].addr.nTime && a <= b)
    }

    static lemma BucketReady(e: Env, s: State, b: nat, pending: Option<nat>)
      requires InvPending(e, s, pending) && b < |s.vvNew|
      ensures Placed(s.mapInfo, s.vRandom) && forall id | id in s.vvNew[b] :: id in s.mapInfo
    {
    }

    static lemma OldestIsDrawn(s: State, b: nat, order: seq<nat>, n: seq<nat>, nNow: int, oldest: nat)
      requires b < |s.vvNew| && forall id :: id in order <==> id in s.vvNew[b]
      requires forall id | id in s.vvNew[b] :: id in s.mapInfo
      requires forall j | 0 <= j < |order| :: !s.mapInfo[order[j]].IsTerrible(nNow)
      requires |n| == 4 && n[0] < |order| && n[1] < |order| && n[2] < |order| && n[3] < |order|
      requires exists d :: d in n && order[d] == oldest
      requires oldest in s.mapInfo && forall d | d in n :: Older(s.mapInfo, oldest, order[d])
      ensures Spec.ShrinkChoice(s, b, nNow, oldest, 1)
    {
      NoneTerrible(s, b, order, nNow);
      DrawnAreOlder(s, order, n, oldest);
      hide Older;
      OldestAmong(s, b, order[n[0]], order[n[1]], order[n[2]], order[n[3]], oldest);
    }

    static lemma DrawnAreOlder(s: State, order: seq<nat>, n: seq<nat>, oldest: nat)
      requires |n| == 4 && n[0] < |order| && n[1] < |order| && n[2] < |order| && n[3] < |order|
      requires forall id | id in order :: id in s.mapInfo
      requires exists d :: d in n && order[d] == oldest
      requires oldest in s.mapInfo && forall d | d in n :: Older(s.mapInfo, oldest, order[d])
      ensures oldest in {order[n[0]], order[n[1]], order[n[2]], order[n[3]]} && oldest in order
      ensures Older(s.mapInfo, oldest, order[n[0]]) && Older(s.mapInfo, oldest, order[n[1]])
      ensures Older(s.mapInfo, oldest, order[n[2]]) && Older(s.mapInfo, oldest, order[n[3]])
    {
      assert n[0] in n && n[1] in n && n[2] in n && n[3] in n;
    }

    static lemma NoneTerrible(s: State, b: nat, order: seq<nat>, nNow: int)
      requires b < |s.vvNew| && forall id :: id in order <==> id in s.vvNew[b]
      requires forall id | id in s.vvNew[b] :: id in s.mapInfo
      requires forall j | 0 <= j < |order| :: !s.mapInfo[order[j]].IsTerrible(nNow)
      ensures forall id | id in s.vvNew[b] :: !s.mapInfo[id].IsTerrible(nNow)
    {
      forall id | id in s.vvNew[b] ensures !s.mapInfo[id].IsTerrible(nNow) {
        assert id in order;
      }
    }

    static lemma OldestAmong(s: State, b: nat, w: nat, x: nat, y: nat, z: nat, oldest: nat)
      requires b < |s.vvNew| && forall id | id in s.vvNew[b] :: id in s.mapInfo
      requires w in s.vvNew[b] && x in s.vvNew[b] && y in s.vvNew[b] && z in s.vvNew[b]
      requires oldest in {w, x, y, z}
      requires Older(s.mapInfo, oldest, w) && Older(s.mapInfo, oldest, x)
      requires Older(s.mapInfo, oldest, y) && Older(s.mapInfo, oldest, z)
      ensures Spec.OldestOf(s, b, {w, x, y, z}, oldest)
    {
      FourAtMost(w, x, y, z);
    }

    static lemma FourAtMost(a: nat, b: nat, c: nat, d: nat)
      ensures 1 <= |{a, b, c, d}| <= 4
    {
      assert {a, b, c, d} == {a} + {b} + {c} + {d};
    }

    /** The position of the entry to give up, and the draws that decide it. It holds the entry
        found oldest exactly when that was drawn from its own slot (src/addrman.cpp:128-150). */
    method SelectTried(k: nat) returns (pos: nat, ghost draws: seq<nat>)
      requires k < |vvTried| && vvTried[k] != [] && Inspects.Present(mapInfo, vvTried[k])
      modifies this`vvTried
      ensures |draws| == if |old(vvTried)[k]| < TRIED_ENTRIES_INSPECT_ON_EVICT then |old(vvTried)[k]| else TRIED_ENTRIES_INSPECT_ON_EVICT
      ensures Inspects.Draws(draws, |old(vvTried)[k]|)
      ensures var l := Inspects.Inspect(mapInfo, old(vvTried)[k], draws);
              && vvTried == old(vvTried)[k := l.bucket] && multiset(l.bucket) == multiset(old(vvTried)[k])
              && l.slot < |draws| && l.slot <= pos == l.pos < |l.bucket| && l.bucket[l.slot] == l.oldest.value
              && pos == draws[l.slot] && l.oldest.value in mapInfo && Inspects.FoundOldest(mapInfo, |draws|, l)
              && (Distinct(old(vvTried)[k]) ==> (l.bucket[pos] == l.oldest.value <==> draws[l.slot] == l.slot))
    {
      hide Inspects.Inspect, Inspects.Sound, Inspects.Step, Inspects.Present, Inspects.FoundOldest, Distinct;
      ghost var v := vvTried[k];
      var nOldest: Option<nat>, nOldestPos: nat, i := None, 0, 0;
      ghost var slot := 0;
      draws := [];
      Inspects.NoDraws(mapInfo, v);
      while i < TRIED_ENTRIES_INSPECT_ON_EVICT && i < |vvTried[k]|
        invariant |vvTried| == |old(vvTried)| && |vvTried[k]| == |v|
        invariant i <= |v| && i <= TRIED_ENTRIES_INSPECT_ON_EVICT && |draws| == i && Inspects.Draws(draws, |v|)
        invariant vvTried == old(vvTried)[k := vvTried[k]]
        invariant Inspects.Inspect(mapInfo, v, draws) == Inspects.Look(vvTried[k], nOldest, slot, nOldestPos)
      {
        var r := Random.GetRandInt(|vvTried[k]| - i);
        var nPos := r + i;
        ghost var before := draws;
        draws := draws + [nPos];
        Inspects.InspectLast(mapInfo, v, draws, before);
        Inspects.StepIs(mapInfo, Inspects.Look(vvTried[k], nOldest, slot, nOldestPos), i, nPos);
        var nTemp := vvTried[k][nPos];
        var w: seq<nat> := vvTried[k][nPos := vvTried[k][i]];
        w := w[i := nTemp];
        vvTried := vvTried[k := w];
        if nOldest.None? || mapInfo[nTemp].nLastSuccess < mapInfo[nOldest.value].nLastSuccess {
          nOldest := Some(nTemp);
          nOldestPos := nPos;
          slot := i;
        }
        i := i + 1;
      }
      pos := nOldestPos;
      Inspects.OldestOfInspected(mapInfo, v, draws);
      Inspects.LookBounds(mapInfo, v, draws);
      if Distinct(v) { Inspects.EvictsOldestIff(mapInfo, v, draws); }
    }

    /** Take `id` out of every new bucket, one reference at a time (src/addrman.cpp:210-218). */
    method Strip(id: nat)
      requires id in mapInfo && mapInfo[id].nRefCount == Count(vvNew, id)
      modifies this`mapInfo, this`vvNew, this`nNew
      ensures Abs() == Steps.Stripped(old(Abs()), id)
    {
      hide Count, Steps.Without;
      var refs := EraseEverywhere(id, mapInfo[id].nRefCount);
      mapInfo := mapInfo[id := mapInfo[id].(nRefCount := refs)];
      nNew := nNew - 1;
      assert mapInfo[id].nRefCount == 0;
    }

    /** The loop over the new buckets; each that held `id` takes one from the count. */
    method EraseEverywhere(id: nat, nRefCount: int) returns (refs: int)
      modifies this`vvNew
      ensures vvNew == Steps.Without(old(vvNew), id)
      ensures refs == nRefCount - Count(old(vvNew), id)
    {
      ghost var vv := vvNew;
      CountEnds(vv, id);
      hide Steps.Without, Count;
      refs := nRefCount;
      var b := 0;
      while b < |vvNew|
        invariant b <= |vvNew| == |vv|
        invariant forall j | 0 <= j < b :: vvNew[j] == vv[j] - {id}
        invariant forall j | b <= j < |vv| :: vvNew[j] == vv[j]
        invariant refs == nRefCount - Count(vv[..b], id)
      {
        CheckSpec.CountNext(vv, b, id);
        if id in vvNew[b] {
          refs := refs - 1;
        }
        vvNew := vvNew[b := vvNew[b] - {id}];
        b := b + 1;
      }
      IsWithout(vv, id, vvNew);
    }

    static lemma CountEnds(vv: seq<set<nat>>, id: nat)
      ensures Count(vv[..0], id) == 0 && vv[..|vv|] == vv
    {
    }

    static lemma IsWithout(vv: seq<set<nat>>, id: nat, vv': seq<set<nat>>)
      requires |vv'| == |vv| && forall j | 0 <= j < |vv| :: vv'[j] == vv[j] - {id}
      ensures vv' == Steps.Without(vv, id)
    {
    }

    // src/addrman.cpp:206-262
    method MakeTried(id: nat, nOrigin: nat)
      requires id in mapInfo && Spec.ValidBut(env, Abs(), id) && !mapInfo[id].fInTried
      requires nOrigin < NEW_BUCKET_COUNT && nOrigin < |vvNew| && id in vvNew[nOrigin]
      modifies this
      ensures Spec.PromotedFrom(env, old(Abs()), id, nOrigin, Abs())
      ensures old(Valid() && mapInfo[id].nLastSuccess > 0) ==> Valid()
    {
      ghost var s := Abs();
      hide InvPending, NewSizes, Steps.Stripped, Spec.SomeReplacement, Spec.ValidBut, Inspects.Present;
      Spec.ValidButTimes(env, s, id);
      var k := env.TriedBucket(mapInfo[id].addr.svc);
      Strip(id);
      ghost var t := Abs();
      StrippedFields(s, id, k);
      if |vvTried[k]| < TRIED_BUCKET_SIZE {
        vvTried := vvTried[k := vvTried[k] + [id]];
        nTried := nTried + 1;
        mapInfo := mapInfo[id := mapInfo[id].(fInTried := true)];
        assert Abs() == Promote.Appended(t, k, id);
      } else {
        TakeSlot(k, id, nOrigin);
      }
      if Inv(env, s) && s.mapInfo[id].nLastSuccess > 0 { Spec.PromoteKeeps(env, s, id, nOrigin, Abs()); }
    }

    static lemma StrippedFields(s: State, id: nat, k: nat)
      requires id in s.mapInfo && k < |s.vvTried| && Inspects.Present(s.mapInfo, s.vvTried[k])
      ensures var t := Steps.Stripped(s, id);
              && id in t.mapInfo && t.mapInfo[id].addr == s.mapInfo[id].addr
              && t.vvTried == s.vvTried && |t.vvNew| == |s.vvNew|
              && Inspects.Present(t.mapInfo, t.vvTried[k])
    {
    }

    /** A full tried bucket gives up one entry for `id` (src/addrman.cpp:233-261). */
    method TakeSlot(k: nat, id: nat, nOrigin: nat)
      requires k < |vvTried| && |vvTried[k]| >= TRIED_BUCKET_SIZE && id in mapInfo
      requires Inspects.Present(mapInfo, vvTried[k])
      requires |vvNew| == NEW_BUCKET_COUNT && nOrigin < NEW_BUCKET_COUNT
      modifies this
      ensures Spec.SomeReplacement(env, old(Abs()), id, nOrigin, k, Abs())
    {
      ghost var t := Abs();
      hide Promote.Replaced, Inspects.Present, Inspects.Inspect, Inspects.FoundOldest, Inspects.Draws, Distinct;
      var nPos, draws := SelectTried(k);
      ghost var l := Inspects.Inspect(t.mapInfo, t.vvTried[k], draws);
      var nEvict := vvTried[k][nPos];
      Inspects.LookBounds(t.mapInfo, t.vvTried[k], draws);
      var b := env.NewBucket(mapInfo[nEvict].Net(), mapInfo[nEvict].source);
      assert Abs() == Promote.Reordered(t, k, l.bucket);
      Replace(k, nPos, id, b, nOrigin);
      assert Spec.ReplacedAt(env, t, id, nOrigin, k, draws, Abs());
    }

    // src/addrman.cpp:236-260
    method Replace(k: nat, nPos: nat, id: nat, b: nat, nOrigin: nat)
      requires k < |vvTried| && nPos < |vvTried[k]| && vvTried[k][nPos] in mapInfo && id in mapInfo
      requires b < |vvNew| && nOrigin < |vvNew|
      modifies this
      ensures Abs() == Promote.Replaced(old(Abs()), k, nPos, id, if Spec.RoomIn(old(vvNew), b) then b else nOrigin)
    {
      var nEvict := vvTried[k][nPos];
      mapInfo := mapInfo[nEvict := mapInfo[nEvict].(fInTried := false, nRefCount := 1)];
      if |vvNew[b]| < NEW_BUCKET_SIZE {
        vvNew := vvNew[b := vvNew[b] + {nEvict}];
      } else {
        vvNew := vvNew[nOrigin := vvNew[nOrigin] + {nEvict}];
      }
      nNew := nNew + 1;
      var bucket: seq<nat> := vvTried[k][nPos := id];
      vvTried := vvTried[k := bucket];
      mapInfo := mapInfo[id := mapInfo[id].(fInTried := true)];
    }

    /** Any time is taken; the manager stays consistent exactly when it is positive or the
        address is not known (src/addrman.cpp:264-311). */
    method Good_(svc: Service, nTime: int)
      requires Valid()
      modifies this
      ensures Spec.GoodStep(env, old(Abs()), svc, nTime, Abs())
      ensures Valid() <==> Spec.Known(old(Abs()), svc).None? || nTime > 0
    {
      hide InvPending, ToUint32, Spec.PromotedFrom, Spec.ValidBut;
      ghost var s := Abs();
      ghost var t := s;
      var found := Find(svc.net);
      if found.Some? && mapInfo[found.value].addr.svc == svc {
        var id := found.value;
        var info := mapInfo[id];
        mapInfo := mapInfo[id := info.(nLastSuccess := nTime, nLastTry := nTime, nAttempts := 0,
                                       addr := info.addr.(nTime := ToUint32(nTime)))];
        t := Abs();
        Spec.RefreshedValidBut(env, s, id, nTime);
        if !mapInfo[id].fInTried {
          var nUBucket := FindBucket(id);
          MakeTried(id, nUBucket);
          assert Spec.MovedToTried(env, t, id, Abs());
        }
      }
      Spec.GoodKeeps(env, s, svc, nTime, Abs());
    }

    /** A new bucket holding `id`, searched from a random one on (src/addrman.cpp:290-305);
        there always is one, so the exit of line 305 is never taken. */
    method FindBucket(id: nat) returns (nUBucket: nat)
      requires id in mapInfo && Spec.ValidBut(env, Abs(), id) && !mapInfo[id].fInTried
      ensures nUBucket < |vvNew| && nUBucket < NEW_BUCKET_COUNT && id in vvNew[nUBucket]
    {
      hide InvPending, NewSizes;
      Spec.InSomeBucket(env, Abs(), id);
      Spec.ValidButTimes(env, Abs(), id);
      ghost var home: nat :| home < |vvNew| && id in vvNew[home];
      var nRnd := Random.GetRandInt(|vvNew|);
      var n := 0;
      while n < |vvNew|
        invariant n <= |vvNew|
        invariant forall i | 0 <= i < n :: id !in vvNew[Rotated(i, nRnd, |vvNew|)]
      {
        var nB := (n + nRnd) % |vvNew|;
        if id in vvNew[nB] { return nB; }
        assert nB == Rotated(n, nRnd, |vvNew|);
        n := n + 1;
      }
      RotationCovers(vvNew, nRnd, id, home);
    }

    static lemma RotationCovers(vv: seq<set<nat>>, nRnd: nat, id: nat, home: nat)
      requires home < |vv| && id in vv[home] && nRnd < |vv|
      ensures exists i | 0 <= i < |vv| :: id in vv[Rotated(i, nRnd, |vv|)]
    {
      var i := if home >= nRnd then home - nRnd else home + |vv| - nRnd;
      RotatedBack(home, nRnd, |vv|, i);
    }

    static function Rotated(i: nat, shift: nat, n: nat): (r: nat)
      requires n > 0
      ensures r < n
    {
      (i + shift) % n
    }

    static lemma RotatedBack(home: nat, shift: nat, n: nat, i: nat)
      requires home < n && shift < n
      requires i == if home >= shift then home - shift else home + n - shift
      ensures i < n && Rotated(i, shift, n) == home
    {
      if home < shift { assert (home + n) % n == home; }
    }

    // src/addrman.cpp:313-368
    method Add_(addr: Address, source: NetAddr, nTimePenalty: int, nNow: int) returns (fNew: bool)
      requires Valid()
      modifies this
      ensures Spec.AddStep(env, old(Abs()), addr, source, nTimePenalty, nNow, fNew, Abs())
      ensures Valid()
    {
      hide InvPending, NewSizes, Spec.Bucketed, ToUint32, Max, Spec.Reseen;
      ghost var s := Abs();
      if !env.isRoutable(addr.svc.net) { return false; }
      Spec.InvSizes(env, s, None);
      Spec.AddedEntry(env, s, addr.svc.net);
      var id;
      var b := env.NewBucket(addr.svc.net, source);
      var found := Find(addr.svc.net);
      if found.Some? {
        id := found.value;
        UpdateSeen(id, addr, nTimePenalty, nNow);
        ghost var t := Abs();
        ReseenFields(s.mapInfo[id], addr, nTimePenalty, nNow);
        Steps.TouchKeeps(env, s, id, mapInfo[id], None);
        var info := mapInfo[id];
        if addr.nTime == 0 || (info.addr.nTime != 0 && addr.nTime <= info.addr.nTime) { return false; }
        if info.fInTried { return false; }
        if info.nRefCount == NEW_BUCKETS_PER_ADDRESS { return false; }
        var nFactor, n := 1, 0;
        while n < info.nRefCount
          invariant nFactor >= 1 && (nFactor > 1 ==> n > 0)
        {
          nFactor := nFactor * 2;
          n := n + 1;
        }
        if nFactor > 1 {
          var r := Random.GetRandInt(nFactor);
          if r != 0 { return false; }
        }
        fNew := false;
        if id !in vvNew[b] {
          Steps.AddRefKeeps(env, t, id);
          Enter(id, b, nNow);
        } else {
          AlreadyIn(t, id, b, nNow);
        }
      } else {
        id := Create(addr, source);
        mapInfo := mapInfo[id := mapInfo[id].(
                     addr := mapInfo[id].addr.(nTime := ToUint32(Max(0, mapInfo[id].addr.nTime - nTimePenalty))))];
        nNew := nNew + 1;
        fNew := true;
        assert Abs() == Steps.Created(s, addr, source, nTimePenalty);
        Steps.CreateKeeps(env, s, addr, source, nTimePenalty);
        Enter(id, b, nNow);
      }
    }

    static lemma AlreadyIn(s: State, id: nat, b: nat, nNow: int)
      requires id in s.mapInfo && b < |s.vvNew| && id in s.vvNew[b]
      ensures Spec.Bucketed(s, id, b, nNow, s)
    {
    }

    static lemma ReseenFields(info: Info, addr: Address, nTimePenalty: int, nNow: int)
      ensures var r := Spec.Reseen(info, addr, nTimePenalty, nNow);
              && Steps.SameTable(info, r) && info.nRandomPos == r.nRandomPos && (InfoOk(info) ==> InfoOk(r))
    {
    }

    // src/addrman.cpp:324-331
    method UpdateSeen(id: nat, addr: Address, nTimePenalty: int, nNow: int)
      requires id in mapInfo
      modifies this`mapInfo
      ensures mapInfo == old(mapInfo)[id := Spec.Reseen(old(mapInfo)[id], addr, nTimePenalty, nNow)]
    {
      hide ToUint32, Max, Spec.Merged;
      var fCurrentlyOnline := nNow - addr.nTime < 24 * 60 * 60;
      var nUpdateInterval := if fCurrentlyOnline then 60 * 60 else 24 * 60 * 60;
      var info := mapInfo[id];
      if addr.nTime != 0 && (info.addr.nTime == 0 || info.addr.nTime < addr.nTime - nUpdateInterval - nTimePenalty) {
        info := info.(addr := info.addr.(nTime := ToUint32(Max(0, addr.nTime - nTimePenalty))));
      }
      info := info.(addr := info.addr.(services := Spec.Merged(info.addr.services, addr.services)));
      assert info == Spec.Reseen(mapInfo[id], addr, nTimePenalty, nNow);
      mapInfo := mapInfo[id := info];
    }

    /** Give `id` the new bucket `b`, making room first if it is full (src/addrman.cpp:360-366). */
    method Enter(id: nat, b: nat, nNow: int)
      requires id in mapInfo && InvPending(env, Steps.AddRef(Abs(), id), Some(id))
      requires b < |vvNew| && id !in vvNew[b]
      modifies this
      ensures Spec.Bucketed(old(Abs()), id, b, nNow, Abs())
      ensures Valid()
    {
      hide InvPending, Spec.ShrinkChoice, Placed, Steps.Evicted;
      ghost var s := Abs();
      mapInfo := mapInfo[id := mapInfo[id].(nRefCount := mapInfo[id].nRefCount + 1)];
      ghost var t := Abs();
      assert t == Steps.AddRef(s, id);
      if |vvNew[b]| == NEW_BUCKET_SIZE {
        ghost var victim;
        var ret;
        ret, victim := ShrinkNew(b, nNow, Some(id));
        Spec.ChoiceMember(t, b, nNow, victim, ret);
        Spec.EvictedOthers(t, b, victim, id);
        vvNew := vvNew[b := vvNew[b] + {id}];
        assert Spec.ShrunkThenPut(t, id, b, nNow, victim, ret, Abs());
      } else {
        vvNew := vvNew[b := vvNew[b] + {id}];
      }
      Spec.BucketedKeeps(env, s, id, b, nNow, Abs());
    }

    // src/addrman.cpp:370-387
    method Attempt_(svc: Service, nTime: int)
      requires Valid()
      modifies this`mapInfo
      ensures Abs() == Spec.Attempted(old(Abs()), svc, nTime)
      ensures Valid() <==> Spec.Known(old(Abs()), svc).None? || nTime >= 0
    {
      hide InvPending;
      Spec.AttemptKeeps(env, Abs(), svc, nTime);
      var found := Find(svc.net);
      if found.None? { return; }
      var info := mapInfo[found.value];
      if info.addr.svc != svc { return; }
      mapInfo := mapInfo[found.value := info.(nLastTry := nTime, nAttempts := info.nAttempts + 1)];
    }

    // src/addrman.cpp:518-536
    method Connected_(svc: Service, nTime: int)
      requires Valid()
      modifies this`mapInfo
      ensures Abs() == Spec.Connected(old(Abs()), svc, nTime)
      ensures Valid()
    {
      hide InvPending, ToUint32;
      Spec.ConnectedKeeps(env, Abs(), svc, nTime);
      var found := Find(svc.net);
      if found.None? { return; }
      var info := mapInfo[found.value];
      if info.addr.svc != svc { return; }
      var nUpdateInterval := 20 * 60;
      if nTime - info.addr.nTime > nUpdateInterval {
        mapInfo := mapInfo[found.value := info.(addr := info.addr.(nTime := ToUint32(nTime)))];
      }
    }

    // src/addrman.cpp:493-516
    method GetAddr_() returns (vAddr: seq<Address>)
      requires Valid()
      modifies this`mapInfo, this`vRandom
      ensures Spec.GetAddrStep(env, old(Abs()), vAddr, Abs())
      ensures Valid()
    {
      hide InvPending, Placed, Steps.SwapRandom, Reply.Routable, Steps.SameButSlots, Spec.GetAddrStep;
      ghost var s := Abs();
      InvPlaced(env, s);
      var nNodes := GETADDR_MAX_PCT * |vRandom| / 100;
      if nNodes > GETADDR_MAX { nNodes := GETADDR_MAX; }
      vAddr := [];
      var n := 0;
      NothingYet(env, s);
      while n < |vRandom|
        invariant n <= |vRandom| == |s.vRandom|
        invariant Shuffled(s, Abs()) && Placed(mapInfo, vRandom)
        invariant forall id | id in vRandom :: id in mapInfo
        invariant vAddr == Reply.Routable(env, mapInfo, vRandom[..n]) && |vAddr| <= nNodes
      {
        if |vAddr| >= nNodes { break; }
        var r := Random.GetRandInt(|vRandom| - n);
        var nRndPos := r + n;
        ghost var t := Abs();
        SwapRandom(n, nRndPos);
        StillShuffled(env, s, t, n, nRndPos);
        Reply.RoutableNext(env, mapInfo, vRandom, n);
        if env.isRoutable(mapInfo[vRandom[n]].Net()) {
          vAddr := vAddr + [mapInfo[vRandom[n]].addr];
        }
        n := n + 1;
      }
      Reply.ReplyIsRight(env, s, Abs(), n);
      Spec.GetAddrKeeps(env, s, vAddr, Abs());
    }

    static lemma InvPlaced(e: Env, s: State)
      requires Inv(e, s)
      ensures Placed(s.mapInfo, s.vRandom) && forall id | id in s.vRandom :: id in s.mapInfo
    {
    }

    static lemma NothingYet(e: Env, s: State)
      requires forall id | id in s.vRandom :: id in s.mapInfo
      ensures Reply.Routable(e, s.mapInfo, s.vRandom[..0]) == [] && Steps.SameButSlots(s.mapInfo, s.mapInfo)
    {
    }

    /** `t` is `s` with the slots of `vRandom` permuted. */
    static ghost predicate Shuffled(s: State, t: State) {
      && t == s.(mapInfo := t.mapInfo, vRandom := t.vRandom)
      && Steps.SameButSlots(s.mapInfo, t.mapInfo)
      && multiset(t.vRandom) == multiset(s.vRandom)
    }

    /** One more swap, beyond the slots already served. */
    static lemma StillShuffled(e: Env, s: State, t: State, n: nat, j: nat)
      requires Shuffled(s, t) && Placed(t.mapInfo, t.vRandom) && n <= j < |t.vRandom|
      requires forall id | id in t.vRandom :: id in t.mapInfo
      ensures var u := Steps.SwapRandom(t, n, j);
              && Shuffled(s, u) && Placed(u.mapInfo, u.vRandom)
              && |u.vRandom| == |t.vRandom|
              && (forall id | id in u.vRandom :: id in u.mapInfo)
              && (forall id | id in u.vRandom[..n] :: id in u.mapInfo)
              && Reply.Routable(e, u.mapInfo, u.vRandom[..n]) == Reply.Routable(e, t.mapInfo, t.vRandom[..n])
    {
      hide Steps.SwapRandom, Placed, Steps.SameButSlots, Reply.Routable;
      var u := Steps.SwapRandom(t, n, j);
      Steps.SwapKeepsPlaced(t, n, j);
      Inspects.SwapMultiset(t.vRandom, j, n);
      SlotsChain(s.mapInfo, t.mapInfo, u.mapInfo);
      SwappedKnown(t, u, n, j);
      Reply.RoutableSame(e, t.mapInfo, u.mapInfo, t.vRandom[..n]);
    }

    static lemma SlotsChain(m: map<nat, Info>, m': map<nat, Info>, m'': map<nat, Info>)
      requires Steps.SameButSlots(m, m') && Steps.SameButSlots(m', m'')
      ensures Steps.SameButSlots(m, m'') && m''.Keys == m'.Keys
    {
    }

    static lemma SwappedKnown(t: State, u: State, n: nat, j: nat)
      requires n <= j < |t.vRandom| && u.vRandom == t.vRandom[n := t.vRandom[j]][j := t.vRandom[n]]
      requires u.mapInfo.Keys == t.mapInfo.Keys && forall id | id in t.vRandom :: id in t.mapInfo
      ensures u.vRandom[..n] == t.vRandom[..n]
      ensures forall id | id in u.vRandom :: id in u.mapInfo
      ensures forall id | id in u.vRandom[..n] :: id in u.mapInfo
    {
    }

    /** The authors' consistency check: zero exactly when the manager agrees with itself. The
        lookup of an absent address inserts a zero, so the map of addresses may grow
        (src/addrman.cpp:434-490). */
    method Check_() returns (err: int)
      modifies this`mapAddr
      ensures err == 0 <==> CheckSpec.Agrees(old(Abs()))
      ensures CheckSpec.Grown(old(mapAddr), mapAddr)
      ensures old(Valid()) ==> err == 0 && mapAddr == old(mapAddr)
    {
      ghost var s := Abs();
      if Valid() { CheckSpec.InvAgrees(env, s); }
      hide InvPending, CheckSpec.EntryAgrees, CheckSpec.ListsOnce, CheckSpec.CountsAgree, TriedIds, NewIds;
      if |vRandom| != nTried + nNew { return -7; }
      var setTried, mapNew;
      if Valid() { CheckSpec.InvKnows(env, s); }
      err, setTried, mapNew, mapAddr := CheckSpec.CheckEntries(mapInfo, mapAddr, vRandom);
      if err != 0 { return; }
      if |setTried| != nTried { return -9; }
      if |mapNew| != nNew { return -10; }
      err := CheckSpec.CheckTried(vvTried, setTried);
      if err != 0 { return; }
      err := CheckSpec.CheckNew(vvNew, mapNew);
    }

    // ------------------------------------------------------------ saving

    // src/addrman.h:273-318
    method Save() returns (out: seq<Item>)
      requires Valid()
      ensures Loads.IsSaved(env, Abs(), out)
    {
      hide InvPending, Entries, Buckets, Select, Ascends, TriedIds, NewIds, AllIn, NumberedBy;
      Orders(env, Abs());
      SelectMembersOf(mapInfo);
      out := [Version(0), Key(env.nKey), Int(nNew), Int(nTried), Int(NEW_BUCKET_COUNT)];
      var entries, mapUnkIds := SaveEntries(mapInfo, nNew, false);
      out := out + entries;
      var triedEntries, _ := SaveEntries(mapInfo, nTried, true);
      out := out + triedEntries;
      var buckets := SaveBuckets(vvNew, NewOrder(mapInfo), mapUnkIds);
      out := out + buckets;
    }

    static lemma SelectMembersOf(m: map<nat, Info>)
      ensures forall id | id in NewOrder(m) || id in TriedOrder(m) :: id in m
    {
      SelectMembers(m, Ascending(m.Keys), false);
      SelectMembers(m, Ascending(m.Keys), true);
    }

    /** One pass over `mapInfo`, writing the entries of one kind and numbering every id with the
        count of entries written before it; it stops after `nWanted` of them (src/addrman.h:284-307). */
    static method SaveEntries(m: map<nat, Info>, nWanted: int, tried: bool)
      returns (out: seq<Item>, unkIds: map<nat, nat>)
      requires nWanted == |Select(m, Ascending(m.Keys), tried)|
      ensures forall id | id in Select(m, Ascending(m.Keys), tried) :: id in m
      ensures out == Entries(m, Select(m, Ascending(m.Keys), tried))
      ensures NumberedBy(Select(m, Ascending(m.Keys), tried), unkIds)
    {
      hide Select, Entries, NumberedBy, WrittenBy, Wanted, Ascends;
      var ids := Ascending(m.Keys);
      out, unkIds := [], map[];
      var nIds, i := 0, 0;
      NothingSelected(m, ids, tried);
      while i < |ids|
        invariant i <= |ids|
        invariant WrittenBy(m, Select(m, ids[..i], tried), out) && NumberedBy(Select(m, ids[..i], tried), unkIds)
        invariant nIds == |Select(m, ids[..i], tried)|
      {
        if nIds == nWanted { break; }
        WrittenKnown(m, ids, i, tried, out);
        SelectNext(m, ids, i, tried);
        var info := m[ids[i]];
        NumberNext(Select(m, ids[..i], tried), unkIds, ids, i, nIds);
        unkIds := unkIds[ids[i] := nIds];
        EntriesNext(m, Select(m, ids[..i], tried), ids[i], out);
        WantedIs(info, tried);
        if (tried && info.fInTried) || (!tried && info.nRefCount != 0) {
          out := out + [Entry(StoredOf(info))];
          nIds := nIds + 1;
        }
        i := i + 1;
      }
      SelectFull(m, ids, i, tried);
      WrittenKnown(m, ids, i, tried, out);
    }

    static lemma WantedIs(info: Info, tried: bool)
      ensures Wanted(info, tried) <==> (tried && info.fInTried) || (!tried && info.nRefCount != 0)
    {
    }

    static lemma WrittenKnown(m: map<nat, Info>, ids: seq<nat>, i: nat, tried: bool, out: seq<Item>)
      requires i <= |ids| && (forall id | id in ids :: id in m) && WrittenBy(m, Select(m, ids[..i], tried), out)
      ensures forall id | id in Select(m, ids[..i], tried) :: id in m
      ensures out == Entries(m, Select(m, ids[..i], tried))
    {
    }

    /** `unkIds` numbers the ids of `order` by their position. */
    static ghost predicate NumberedBy(order: seq<nat>, unkIds: map<nat, nat>) {
      forall j | 0 <= j < |order| :: order[j] in unkIds && unkIds[order[j]] == j
    }

    static ghost predicate WrittenBy(m: map<nat, Info>, order: seq<nat>, out: seq<Item>) {
      (forall id | id in order :: id in m) && out == Entries(m, order)
    }

    static lemma NothingSelected(m: map<nat, Info>, ids: seq<nat>, tried: bool)
      requires forall id | id in ids :: id in m
      ensures Select(m, ids[..0], tried) == [] && WrittenBy(m, [], []) && NumberedBy([], map[])
    {
    }

    static lemma EntriesNext(m: map<nat, Info>, ids: seq<nat>, id: nat, out: seq<Item>)
      requires id in m && WrittenBy(m, ids, out)
      ensures WrittenBy(m, ids + [id], out + [Entry(StoredOf(m[id]))])
      ensures ids + [] == ids
    {
    }

    static lemma NumberNext(order: seq<nat>, unkIds: map<nat, nat>, ids: seq<nat>, i: nat, n: nat)
      requires NumberedBy(order, unkIds) && i < |ids| && Ascends(ids) && n == |order|
      requires forall id | id in order :: id in ids[..i]
      ensures NumberedBy(order, unkIds[ids[i] := n]) && NumberedBy(order + [ids[i]], unkIds[ids[i] := n])
    {
      forall j | 0 <= j < |order| ensures order[j] != ids[i] {
        assert order[j] in ids[..i];
      }
    }

    // src/addrman.h:308-318
    static method SaveBuckets(vv: seq<set<nat>>, ghost order: seq<nat>, unkIds: map<nat, nat>) returns (out: seq<Item>)
      requires AllIn(vv, order) && Ascends(order) && NumberedBy(order, unkIds)
      ensures out == Buckets(vv, order)
    {
      hide NumberedBy, Ascends;
      out := [];
      var b := 0;
      while b < |vv|
        invariant b <= |vv| && AllIn(vv[..b], order) && out == Buckets(vv[..b], order)
      {
        var items := SaveBucket(vv[b], order, unkIds);
        out := out + items;
        assert vv[..b + 1][..b] == vv[..b];
        b := b + 1;
      }
      assert vv[..b] == vv;
    }

    static lemma UnkIdIs(order: seq<nat>, unkIds: map<nat, nat>, id: nat)
      requires Ascends(order) && NumberedBy(order, unkIds) && id in order
      ensures id in unkIds && unkIds[id] == IndexOf(order, id)
    {
      AscendsDistinct(order);
      IndexOfDistinct(order, IndexOf(order, id));
    }

    static method SaveBucket(bucket: set<nat>, ghost order: seq<nat>, unkIds: map<nat, nat>) returns (out: seq<Item>)
      requires (forall id | id in bucket :: id in order) && Ascends(order) && NumberedBy(order, unkIds)
      ensures out == BucketItems(order, bucket)
    {
      hide NumberedBy, IndexOf, BucketItems, Ascends;
      var vNew := Ascending(bucket);
      out := [Int(|bucket|)];
      var i := 0;
      while i < |vNew|
        invariant i <= |vNew|
        invariant |out| == 1 + i && out[0] == Int(|bucket|)
        invariant forall j | 0 <= j < i :: out[1 + j] == Int(IndexOf(order, vNew[j]))
      {
        UnkIdIs(order, unkIds, vNew[i]);
        out := out + [Int(unkIds[vNew[i]])];
        i := i + 1;
      }
      ItemsAre(order, bucket, out);
    }

    static lemma ItemsAre(order: seq<nat>, bucket: set<nat>, out: seq<Item>)
      requires (forall id | id in bucket :: id in order) && |out| == 1 + |Ascending(bucket)|
      requires out[0] == Int(|bucket|)
      requires forall j | 0 <= j < |Ascending(bucket)| :: out[1 + j] == Int(IndexOf(order, Ascending(bucket)[j]))
      ensures out == BucketItems(order, bucket)
    {
      hide IndexOf;
      var items := BucketItems(order, bucket);
      forall i | 0 <= i < |out| ensures out[i] == items[i] {
        if i > 0 { assert out[1 + (i - 1)] == items[1 + (i - 1)]; }
      }
    }

    // ------------------------------------------------------------ loading

    /** Loading what a consistent manager `s` saved (src/addrman.h:319-378). The key is read from
        the stream; every other field is rebuilt. */
    constructor Load(e: Env, input: seq<Item>, ghost s: State)
      requires |input| > 1 && input[1].Key?
      requires Inv(e.(nKey := input[1].key), s) && Loads.IsSaved(e.(nKey := input[1].key), s, input)
      ensures env == e.(nKey := input[1].key)
      ensures Valid()
      ensures Renamed(s, Abs(), Loads.LoadOrder(s.mapInfo))
    {
      hide InvPending, Loads.IsSaved, Loads.StreamOf, Renamed, Loads.Loading, RenamedIndex, RenamedTried, RenamedNew,
        Loads.Numbered, Loads.LoadOrder, NewOrder, TriedOrder, EmptyTried, EmptyNew;
      env := e.(nKey := input[1].key);
      nIdCount, mapInfo, mapAddr, vRandom := 0, map[], map[], [];
      nNew, nTried := 0, 0;
      vvTried, vvNew := EmptyTried(), EmptyNew();
      new;
      Loads.StreamShape(env, s, input);
      Starting(env, s, input);
      nNew := input[2].n;
      nTried := input[3].n;
      LoadNew(input, s);
      var nLost := LoadTried(input, s);
      nTried := nTried - nLost;
      LoadBuckets(input, s);
      Loads.Loaded(env, s, Abs());
      RenamedKeeps(env, s, Abs(), Loads.LoadOrder(s.mapInfo));
    }

    static lemma Starting(e: Env, s: State, input: seq<Item>)
      requires Inv(e, s) && Loads.StreamOf(s, input)
      ensures |input| > 5 && input[2] == Int(s.nNew) && input[3] == Int(s.nTried)
    {
      hide InvPending;
      Loads.LoadOrderListsAll(e, s);
      Spec.InvSizes(e, s, None);
      Loads.BucketsAt(s.vvNew, NewOrder(s.mapInfo), 0);
    }

    // src/addrman.h:328-341, with the bucket count of the stream equal to the compiled one
    method LoadNew(input: seq<Item>, ghost s: State)
      requires Inv(env, s) && Loads.StreamOf(s, input) && nNew == s.nNew
      requires mapInfo == map[] && mapAddr == map[] && vRandom == []
      modifies this`mapInfo, this`mapAddr, this`vRandom, this`nIdCount
      ensures Loads.Loading(s.mapInfo, mapInfo, NewOrder(s.mapInfo), s.vvNew, 0, {})
      ensures RenamedIndex(s.mapInfo, mapAddr, NewOrder(s.mapInfo))
      ensures Loads.Numbered(vRandom, |NewOrder(s.mapInfo)|) && nIdCount == |NewOrder(s.mapInfo)|
    {
      hide InvPending, Loads.Loading, RenamedIndex, NewOrder, TriedOrder, Indexed, Loads.StreamOf, Distinct, TriedTable, NewTable;
      ghost var news := NewOrder(s.mapInfo);
      Loads.InvNewTable(env, s);
      Loads.LoadOrderListsAll(env, s);
      Loads.StreamSizes(s, input);
      Loads.LoadingNone(s.mapInfo, s.vvNew);
      var n := 0;
      while n < nNew
        invariant n <= nNew
        invariant Loads.Loading(s.mapInfo, mapInfo, news[..n], s.vvNew, 0, {})
        invariant RenamedIndex(s.mapInfo, mapAddr, news[..n])
        invariant Loads.Numbered(vRandom, n)
      {
        ghost var id := news[n];
        ReadNew(s, input, n);
        var info := Restored(input[5 + n].rec, false, |vRandom|);
        Loads.LoadingEntry(s.mapInfo, mapInfo, news[..n], s.vvNew, id, info);
        Loads.IndexEntry(s, mapAddr, news[..n], id);
        mapInfo := mapInfo[n := info];
        mapAddr := mapAddr[info.Net() := n];
        vRandom := vRandom + [n];
        assert news[..n + 1] == news[..n] + [id];
        n := n + 1;
      }
      assert news[..n] == news;
      nIdCount := nNew;
    }

    static lemma ReadNew(s: State, input: seq<Item>, n: nat)
      requires Loads.StreamOf(s, input) && n < s.nNew && Distinct(Loads.LoadOrder(s.mapInfo))
      ensures var news := NewOrder(s.mapInfo);
              && n < |news| && news[n] in s.mapInfo && !s.mapInfo[news[n]].fInTried && news[n] !in news[..n]
              && 5 + n < |input| && input[5 + n] == Entry(StoredOf(s.mapInfo[news[n]]))
    {
      hide NewOrder, TriedOrder;
      var news := NewOrder(s.mapInfo);
      var all := Loads.LoadOrder(s.mapInfo);
      forall i | 0 <= i < n ensures news[i] != news[n] {
        assert all[i] != all[n];
      }
    }

    // src/addrman.h:342-361
    method LoadTried(input: seq<Item>, ghost s: State) returns (nLost: int)
      requires Inv(env, s) && Loads.StreamOf(s, input) && nNew == s.nNew && nTried == s.nTried
      requires vvTried == EmptyTried()
      requires Loads.Loading(s.mapInfo, mapInfo, NewOrder(s.mapInfo), s.vvNew, 0, {})
      requires RenamedIndex(s.mapInfo, mapAddr, NewOrder(s.mapInfo))
      requires Loads.Numbered(vRandom, |NewOrder(s.mapInfo)|) && nIdCount == |NewOrder(s.mapInfo)|
      modifies this`mapInfo, this`mapAddr, this`vRandom, this`nIdCount, this`vvTried
      ensures nLost == 0
      ensures var all := Loads.LoadOrder(s.mapInfo);
              && Loads.Loading(s.mapInfo, mapInfo, all, s.vvNew, 0, {})
              && RenamedIndex(s.mapInfo, mapAddr, all)
              && Loads.Numbered(vRandom, |all|) && nIdCount == |all|
              && RenamedTried(s.vvTried, vvTried, all)
    {
      hide InvPending, Loads.StreamOf, Loads.Loading, RenamedIndex, RenamedTried, Loads.Numbered, NewOrder, TriedOrder,
        Loads.LoadOrder, TriedSoFar, Restored, EmptyTried;
      TriedStart(env, s, input, mapInfo, mapAddr, vRandom);
      nLost := 0;
      var n := 0;
      while n < nTried
        invariant n <= nTried && nLost == 0 && nIdCount == nNew + n
        invariant TriedSoFar(s, n, mapInfo, mapAddr, vvTried, vRandom)
      {
        OneTried(env, s, input, n, mapInfo, mapAddr, vvTried, vRandom);
        var placed := PlaceTried(input[5 + nNew + n].rec);
        if !placed { nLost := nLost + 1; }
        n := n + 1;
      }
      TriedEnd(s, input, mapInfo, mapAddr, vvTried, vRandom);
    }

    /** The new entries and the first `n` tried ones have been read. */
    static ghost predicate TriedSoFar(s: State, n: nat, m: map<nat, Info>, a: map<NetAddr, nat>, vv: seq<seq<nat>>, v: seq<nat>) {
      && n <= |TriedOrder(s.mapInfo)|
      && var done := NewOrder(s.mapInfo) + TriedOrder(s.mapInfo)[..n];
         && Loads.Loading(s.mapInfo, m, done, s.vvNew, 0, {}) && RenamedIndex(s.mapInfo, a, done)
         && Loads.Numbered(v, |done|) && RenamedTried(s.vvTried, vv, done)
    }

    static lemma TriedStart(e: Env, s: State, input: seq<Item>, m: map<nat, Info>, a: map<NetAddr, nat>, v: seq<nat>)
      requires Inv(e, s) && Loads.StreamOf(s, input)
      requires Loads.Loading(s.mapInfo, m, NewOrder(s.mapInfo), s.vvNew, 0, {}) && RenamedIndex(s.mapInfo, a, NewOrder(s.mapInfo))
      requires Loads.Numbered(v, |NewOrder(s.mapInfo)|)
      ensures TriedSoFar(s, 0, m, a, EmptyTried(), v)
      ensures |NewOrder(s.mapInfo)| == s.nNew && |TriedOrder(s.mapInfo)| == s.nTried
    {
      hide InvPending, NewOrder, TriedOrder, Loads.StreamOf, Loads.Loading, RenamedIndex, RenamedTried, Loads.Numbered, EmptyTried;
      NoTriedYet(e, s, input);
      Loads.StreamSizes(s, input);
      var news, trieds := NewOrder(s.mapInfo), TriedOrder(s.mapInfo);
      assert news + trieds[..0] == news;
    }

    static lemma TriedEnd(s: State, input: seq<Item>, m: map<nat, Info>, a: map<NetAddr, nat>, vv: seq<seq<nat>>, v: seq<nat>)
      requires Loads.StreamOf(s, input) && 0 <= s.nTried && TriedSoFar(s, s.nTried, m, a, vv, v)
      ensures var all := Loads.LoadOrder(s.mapInfo);
              && Loads.Loading(s.mapInfo, m, all, s.vvNew, 0, {}) && RenamedIndex(s.mapInfo, a, all)
              && Loads.Numbered(v, |all|) && RenamedTried(s.vvTried, vv, all) && |all| == s.nNew + s.nTried
    {
      Loads.StreamSizes(s, input);
      hide NewOrder, TriedOrder, Loads.StreamOf, Loads.Loading, RenamedIndex, RenamedTried;
      assert TriedOrder(s.mapInfo)[..s.nTried] == TriedOrder(s.mapInfo);
    }

    /** What one more record does: its bucket has room, and the next id is its new one. */
    static ghost predicate TriedAfter(e: Env, s: State, input: seq<Item>, n: nat,
                                      m: map<nat, Info>, a: map<NetAddr, nat>, vv: seq<seq<nat>>, v: seq<nat>) {
      && 0 <= s.nNew && 5 + s.nNew + n < |input| && input[5 + s.nNew + n].Entry? && |v| == s.nNew + n
      && var rec := input[5 + s.nNew + n].rec;
         var k := e.TriedBucket(rec.addr.svc);
         && k < |vv| && |vv[k]| < TRIED_BUCKET_SIZE
         && TriedSoFar(s, n + 1, m[|v| := Restored(rec, true, |v|)], a[rec.addr.svc.net := |v|],
                       vv[k := vv[k] + [|v|]], v + [|v|])
    }

    static lemma OneTried(e: Env, s: State, input: seq<Item>, n: nat,
                          m: map<nat, Info>, a: map<NetAddr, nat>, vv: seq<seq<nat>>, v: seq<nat>)
      requires Inv(e, s) && Loads.StreamOf(s, input) && n < s.nTried
      requires TriedSoFar(s, n, m, a, vv, v)
      ensures TriedAfter(e, s, input, n, m, a, vv, v)
    {
      hide InvPending, NewOrder, TriedOrder, Loads.StreamOf, Loads.Loading, RenamedIndex, RenamedTried, Loads.Numbered,
        Distinct, Indexed, TriedTable, NewTable, InfosOk, Loads.LoadOrder, Restored;
      Loads.InvNewTable(e, s);
      Loads.StreamSizes(s, input);
      ReadTried(e, s, input, n);
      var news, trieds := NewOrder(s.mapInfo), TriedOrder(s.mapInfo);
      var done, id := news + trieds[..n], trieds[n];
      assert news + trieds[..n + 1] == done + [id];
      NextTried(e, s, done, id, m, a, vv, v);
    }

    static lemma NextTried(e: Env, s: State, done: seq<nat>, id: nat,
                           m: map<nat, Info>, a: map<NetAddr, nat>, vv: seq<seq<nat>>, v: seq<nat>)
      requires Indexed(s.mapInfo, s.mapAddr) && TriedTable(e, s.mapInfo, s.vvTried)
      requires id in s.mapInfo && s.mapInfo[id].fInTried && id !in done && Distinct(done + [id])
      requires Loads.Loading(s.mapInfo, m, done, s.vvNew, 0, {}) && RenamedIndex(s.mapInfo, a, done)
      requires Loads.Numbered(v, |done|) && RenamedTried(s.vvTried, vv, done)
      ensures var info := s.mapInfo[id];
              var k := e.TriedBucket(info.addr.svc);
              && k < |vv| && |vv[k]| < TRIED_BUCKET_SIZE && |v| == |done|
              && Loads.Loading(s.mapInfo, m[|done| := Restored(StoredOf(info), true, |done|)], done + [id], s.vvNew, 0, {})
              && RenamedIndex(s.mapInfo, a[info.Net() := |done|], done + [id])
              && RenamedTried(s.vvTried, vv[k := vv[k] + [|done|]], done + [id])
              && Loads.Numbered(v + [|done|], |done| + 1)
    {
      hide Loads.Loading, RenamedIndex, Indexed, Distinct, TriedTable, RenamedTried;
      var info := s.mapInfo[id];
      var k := e.TriedBucket(info.addr.svc);
      Loads.TriedRoom(e, s.mapInfo, s.vvTried, vv, done, id, k);
      Loads.LoadingEntry(s.mapInfo, m, done, s.vvNew, id, Restored(StoredOf(info), true, |done|));
      Loads.IndexEntry(s, a, done, id);
      Loads.TriedNext(e, s.mapInfo, s.vvTried, vv, done, id, k);
    }

    /** A tried entry that was read gets the next id and goes to the bucket its key names, if
        that has room (src/addrman.h:345-360). */
    method PlaceTried(rec: Stored) returns (placed: bool)
      requires env.TriedBucket(rec.addr.svc) < |vvTried|
      modifies this`mapInfo, this`mapAddr, this`vRandom, this`nIdCount, this`vvTried
      ensures var k, info := env.TriedBucket(rec.addr.svc), Restored(rec, true, |old(vRandom)|);
              && placed == (|old(vvTried)[k]| < TRIED_BUCKET_SIZE)
              && Abs() == if placed then old(Abs()).(
                             nIdCount := old(nIdCount) + 1,
                             mapInfo := old(mapInfo)[old(nIdCount) := info],
                             mapAddr := old(mapAddr)[rec.addr.svc.net := old(nIdCount)],
                             vRandom := old(vRandom) + [old(nIdCount)],
                             vvTried := old(vvTried)[k := old(vvTried)[k] + [old(nIdCount)]])
                          else old(Abs())
    {
      var info := Restored(rec, false, -1);
      var k := env.TriedBucket(info.addr.svc);
      placed := |vvTried[k]| < TRIED_BUCKET_SIZE;
      if placed {
        info := info.(nRandomPos := |vRandom|, fInTried := true);
        vRandom := vRandom + [nIdCount];
        mapInfo := mapInfo[nIdCount := info];
        mapAddr := mapAddr[info.Net() := nIdCount];
        vvTried := vvTried[k := vvTried[k] + [nIdCount]];
        nIdCount := nIdCount + 1;
      }
    }

    static lemma NoTriedYet(e: Env, s: State, input: seq<Item>)
      requires Inv(e, s) && Loads.StreamOf(s, input)
      ensures RenamedTried(s.vvTried, EmptyTried(), NewOrder(s.mapInfo))
    {
      hide InvPending, NewOrder, TriedOrder;
      Loads.InvNewTable(e, s);
      Loads.TriedNone(e, s.mapInfo, s.vvTried, NewOrder(s.mapInfo));
      Spec.InvSizes(e, s, None);
    }

    static lemma ReadTried(e: Env, s: State, input: seq<Item>, n: nat)
      requires Inv(e, s) && Loads.StreamOf(s, input) && n < s.nTried
      ensures var news, trieds := NewOrder(s.mapInfo), TriedOrder(s.mapInfo);
              && n < |trieds| && trieds[n] in s.mapInfo && s.mapInfo[trieds[n]].fInTried
              && trieds[n] !in news + trieds[..n] && Distinct(news + trieds[..n] + [trieds[n]])
              && 5 + |news| + n < |input| && input[5 + |news| + n] == Entry(StoredOf(s.mapInfo[trieds[n]]))
    {
      hide InvPending, NewOrder, TriedOrder, AllIn, Buckets;
      Loads.LoadOrderListsAll(e, s);
      var news, trieds := NewOrder(s.mapInfo), TriedOrder(s.mapInfo);
      var all := Loads.LoadOrder(s.mapInfo);
      var done := news + trieds[..n];
      assert done + [trieds[n]] == all[..|done| + 1];
      forall i, j | 0 <= i < j < |done| + 1 ensures (done + [trieds[n]])[i] != (done + [trieds[n]])[j] {
        assert all[i] != all[j];
      }
      Loads.DistinctAppend(done, trieds[n]);
    }

    // src/addrman.h:362-378
    method LoadBuckets(input: seq<Item>, ghost s: State)
      requires Inv(env, s) && Loads.StreamOf(s, input) && vvNew == EmptyNew() && nNew == s.nNew && nTried == s.nTried
      requires Loads.Loading(s.mapInfo, mapInfo, Loads.LoadOrder(s.mapInfo), s.vvNew, 0, {})
      modifies this`mapInfo, this`vvNew
      ensures Loads.Loading(s.mapInfo, mapInfo, Loads.LoadOrder(s.mapInfo), s.vvNew, |s.vvNew|, {})
      ensures RenamedNew(s.vvNew, vvNew, Loads.LoadOrder(s.mapInfo))
    {
      hide InvPending, Loads.Loading, NewOrder, Loads.LoadOrder, Loads.StreamOf, Distinct, TriedTable, NewTable, Buckets,
        RenamedSet, AllIn;
      ghost var all := Loads.LoadOrder(s.mapInfo);
      Loads.InvNewTable(env, s);
      BucketsStart(env, s, input);
      var nUBuckets := input[4].n;
      var p: nat, b: nat := 5 + nNew + nTried, 0;
      while b < nUBuckets
        invariant b <= nUBuckets == |vvNew| == |s.vvNew|
        invariant Loads.Loading(s.mapInfo, mapInfo, all, s.vvNew, b, {})
        invariant forall j | 0 <= j < b :: RenamedSet(s.vvNew[j], vvNew[j], all)
        invariant forall j | b <= j < |vvNew| :: vvNew[j] == {}
        invariant Loads.ReadUpTo(s, input, p, b)
      {
        p := LoadBucket(input, p, b, s);
        b := b + 1;
      }
    }

    // src/addrman.h:364-377
    method LoadBucket(input: seq<Item>, start: nat, b: nat, ghost s: State) returns (p: nat)
      requires Inv(env, s) && Loads.StreamOf(s, input) && b < |s.vvNew| == |vvNew| && vvNew[b] == {}
      requires Loads.ReadUpTo(s, input, start, b)
      requires Loads.Loading(s.mapInfo, mapInfo, Loads.LoadOrder(s.mapInfo), s.vvNew, b, {})
      modifies this`mapInfo, this`vvNew
      ensures Loads.Loading(s.mapInfo, mapInfo, Loads.LoadOrder(s.mapInfo), s.vvNew, b + 1, {})
      ensures |vvNew| == |old(vvNew)| && vvNew == old(vvNew)[b := vvNew[b]]
      ensures RenamedSet(s.vvNew[b], vvNew[b], Loads.LoadOrder(s.mapInfo))
      ensures Loads.ReadUpTo(s, input, p, b + 1)
    {
      hide *;
      ghost var order, all, ids := NewOrder(s.mapInfo), Loads.LoadOrder(s.mapInfo), Ascending(s.vvNew[b]);
      Loads.InvNewTable(env, s);
      Loads.LoadOrderListsAll(env, s);
      Loads.NewFirst(s.mapInfo);
      Loads.BucketHead(s, input, start, b);
      var nSize := input[start].n;
      p := start + 1;
      var n := 0;
      NothingRead(ids, all);
      while n < nSize
        invariant 0 <= n <= nSize == |ids| && p == start + 1 + n
        invariant Loads.Loading(s.mapInfo, mapInfo, all, s.vvNew, b, Elements(ids[..n]))
        invariant |vvNew| == |old(vvNew)| && vvNew == old(vvNew)[b := vvNew[b]]
        invariant RenamedSet(Elements(ids[..n]), vvNew[b], all)
      {
        Loads.BucketEntry(s, input, start, b, n);
        Loads.OneReference(s.mapInfo, mapInfo, order, all, s.vvNew, b, ids, n, vvNew[b]);
        var nIndex := input[p].n;
        p := p + 1;
        if mapInfo[nIndex].nRefCount < NEW_BUCKETS_PER_ADDRESS {
          mapInfo := mapInfo[nIndex := mapInfo[nIndex].(nRefCount := mapInfo[nIndex].nRefCount + 1)];
          vvNew := vvNew[b := vvNew[b] + {nIndex}];
        }
        n := n + 1;
      }
      AllRead(s.vvNew[b], ids);
      Loads.LoadingBucket(s.mapInfo, mapInfo, all, s.vvNew, b);
      Loads.BucketEnd(s, input, start, b);
    }

    static lemma NothingRead(ids: seq<nat>, all: seq<nat>)
      ensures Elements(ids[..0]) == {} && RenamedSet({}, {}, all)
    {
    }

    static lemma AllRead(bucket: set<nat>, ids: seq<nat>)
      requires forall id :: id in ids <==> id in bucket
      ensures Elements(ids[..|ids|]) == bucket
    {
    }

    static lemma BucketsStart(e: Env, s: State, input: seq<Item>)
      requires Inv(e, s) && Loads.StreamOf(s, input)
      ensures |input| > 4 && input[4] == Int(NEW_BUCKET_COUNT)
      ensures 0 <= s.nNew && 0 <= s.nTried && Loads.ReadUpTo(s, input, 5 + s.nNew + s.nTried, 0)
    {
      hide InvPending, NewOrder, TriedOrder;
      Spec.InvSizes(e, s, None);
      assert s.vvNew[..0] == [];
    }
  }
}

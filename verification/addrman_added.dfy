/**
 What the operations leave in the entries of the manager (src/addrman.cpp:264-387), said without
 the functions that compute it.
 */
module AddrManAdded {
  import opened Common
  import opened AddrManState
  import opened AddrManSteps
  import opened AddrManSpec

  const DAY := 24 * 60 * 60
  const HOUR := 60 * 60

  /** One of the services in `mask` is among these. */
  predicate Advertises(services: bv64, mask: bv64) { services & mask != 0 }

  /** The time the address is given is news: the entry has none, or one that is older by more than
      the interval and the penalty. */
  predicate IsNews(had: nat, addr: Address, penalty: int, nNow: int) {
    && addr.nTime != 0
    && (had == 0 || had < addr.nTime - penalty - (if nNow - addr.nTime < DAY then HOUR else DAY))
  }

  /** A time less its penalty, at least 0, as the field of 32 bits holds it. */
  predicate Penalized(nTime: nat, was: nat, penalty: int) {
    if was <= penalty then nTime == 0
    else nTime < 0x1_0000_0000 && (was - penalty - nTime) % 0x1_0000_0000 == 0
  }

  /** The same but for where it is referenced and its place in the random order. */
  predicate SameEntry(a: Info, b: Info) {
    && b.addr == a.addr && b.source == a.source && b.fInTried == a.fInTried
    && b.nLastSuccess == a.nLastSuccess && b.nLastTry == a.nLastTry && b.nAttempts == a.nAttempts
  }

  lemma MergedAdvertises(a: bv64, b: bv64, mask: bv64)
    ensures Advertises(Merged(a, b), mask) <==> Advertises(a, mask) || Advertises(b, mask)
  {
    MergedIs(a, b);
    hide Merged;
    EitherAdvertises(a, b, mask);
  }

  lemma MergedIs(a: bv64, b: bv64)
    ensures Merged(a, b) == a | b
  {
  }

  lemma EitherAdvertises(a: bv64, b: bv64, mask: bv64)
    ensures Advertises(a | b, mask) <==> Advertises(a, mask) || Advertises(b, mask)
  {
    MaskOr(a, b, mask);
  }

  lemma MaskOr(a: bv64, b: bv64, mask: bv64)
    ensures (a | b) & mask == 0 <==> a & mask == 0 && b & mask == 0
  {
    MaskDistributes(a, b, mask);
    NoneSet(a & mask, b & mask);
  }

  lemma MaskDistributes(a: bv64, b: bv64, mask: bv64)
    ensures (a | b) & mask == (a & mask) | (b & mask)
  {
  }

  lemma NoneSet(a: bv64, b: bv64)
    ensures a | b == 0 <==> a == 0 && b == 0
  {
  }

  lemma PenaltyHolds(was: nat, penalty: int)
    ensures Penalized(ToUint32(Max(0, was - penalty)), was, penalty)
  {
    if was > penalty {
      var n := was - penalty;
      assert n - ToUint32(n) == n / 0x1_0000_0000 * 0x1_0000_0000;
    }
  }

  /** What `Add_` leaves in the entry of an address that is known. */
  ghost predicate KnownAfter(a: Info, b: Info, addr: Address, penalty: int, nNow: int) {
    && b.addr.svc == a.addr.svc && b.source == a.source && b.fInTried == a.fInTried
    && b.nLastSuccess == a.nLastSuccess && b.nLastTry == a.nLastTry && b.nAttempts == a.nAttempts
    && (forall mask :: Advertises(b.addr.services, mask) <==> Advertises(a.addr.services, mask) || Advertises(addr.services, mask))
    && (if IsNews(a.addr.nTime, addr, penalty, nNow) then Penalized(b.addr.nTime, addr.nTime, penalty) else b.addr.nTime == a.addr.nTime)
  }

  lemma ReseenAfter(a: Info, addr: Address, penalty: int, nNow: int)
    ensures KnownAfter(a, Reseen(a, addr, penalty, nNow), addr, penalty, nNow)
  {
    hide Merged, Advertises, Penalized, ToUint32, Max;
    forall mask ensures Advertises(Merged(a.addr.services, addr.services), mask)
                        <==> Advertises(a.addr.services, mask) || Advertises(addr.services, mask) {
      MergedAdvertises(a.addr.services, addr.services, mask);
    }
    PenaltyHolds(addr.nTime, penalty);
  }

  /** Nothing is entered but `id`, and the others differ only in references and order. */
  ghost predicate OthersKept(s: State, s': State) {
    forall x | x in s'.mapInfo :: x in s.mapInfo && SameEntry(s.mapInfo[x], s'.mapInfo[x])
  }

  lemma EvictedKept(s: State, b: nat, victim: nat)
    requires Placed(s.mapInfo, s.vRandom) && victim in s.mapInfo && b < |s.vvNew|
    ensures OthersKept(s, Evicted(s, b, victim))
    ensures forall x | x in s.mapInfo && x != victim :: x in Evicted(s, b, victim).mapInfo
  {
  }

  lemma AddRefKept(s: State, id: nat)
    requires id in s.mapInfo
    ensures OthersKept(s, AddRef(s, id)) && AddRef(s, id).mapInfo.Keys == s.mapInfo.Keys
  {
  }

  lemma KeptChain(s: State, t: State, u: State)
    requires OthersKept(s, t) && OthersKept(t, u)
    ensures OthersKept(s, u)
  {
    hide SameEntry;
    forall x | x in u.mapInfo ensures SameEntry(s.mapInfo[x], u.mapInfo[x]) {
      SameChain(s.mapInfo[x], t.mapInfo[x], u.mapInfo[x]);
    }
  }

  lemma SameChain(a: Info, b: Info, c: Info)
    requires SameEntry(a, b) && SameEntry(b, c)
    ensures SameEntry(a, c)
  {
  }

  lemma BucketedKept(s: State, id: nat, b: nat, nNow: int, s': State)
    requires id in s.mapInfo && b < |s.vvNew| && Bucketed(s, id, b, nNow, s')
    ensures OthersKept(s, s') && id in s'.mapInfo && id in s'.vvNew[b]
  {
    hide OthersKept, ShrinkChoice, Placed, Evicted;
    if id in s.vvNew[b] {
      NothingKept(s);
    } else {
      var t := AddRef(s, id);
      AddRefKept(s, id);
      if |s.vvNew[b]| == NEW_BUCKET_SIZE {
        var victim: nat, ret: int :| ShrunkThenPut(t, id, b, nNow, victim, ret, s');
        ChoiceMember(t, b, nNow, victim, ret);
        EvictedKept(t, b, victim);
        EvictedOthers(t, b, victim, id);
        PutKept(Evicted(t, b, victim), b, id);
        KeptChain(s, t, Evicted(t, b, victim));
        KeptChain(s, Evicted(t, b, victim), s');
      } else {
        PutKept(t, b, id);
        KeptChain(s, t, s');
      }
    }
  }

  lemma NothingKept(s: State)
    ensures OthersKept(s, s)
  {
  }

  lemma PutKept(s: State, b: nat, id: nat)
    requires b < |s.vvNew|
    ensures OthersKept(s, Put(s, b, id)) && Put(s, b, id).mapInfo == s.mapInfo && id in Put(s, b, id).vvNew[b]
  {
  }

  /** A known address: its entry advertises what it did and what is new, its time changes only when
      there is news, and nothing else does; every other entry left is as it was. */
  lemma AddsToKnown(e: Env, s: State, addr: Address, source: NetAddr, penalty: int, nNow: int, fNew: bool, s': State)
    requires Inv(e, s) && AddStep(e, s, addr, source, penalty, nNow, fNew, s')
    requires e.isRoutable(addr.svc.net) && addr.svc.net in s.mapAddr
    ensures var id := s.mapAddr[addr.svc.net];
            && id in s.mapInfo && id in s'.mapInfo && KnownAfter(s.mapInfo[id], s'.mapInfo[id], addr, penalty, nNow)
            && (forall x | x in s'.mapInfo && x != id :: x in s.mapInfo && SameEntry(s.mapInfo[x], s'.mapInfo[x]))
  {
    AddedEntry(e, s, addr.svc.net);
    hide InvPending, Bucketed, KnownAfter, Reseen, SameEntry;
    var id := s.mapAddr[addr.svc.net];
    var info := Reseen(s.mapInfo[id], addr, penalty, nNow);
    var t := SetInfo(s, id, info);
    ReseenAfter(s.mapInfo[id], addr, penalty, nNow);
    var b := e.NewBucket(addr.svc.net, source);
    if s' == t { NothingKept(t); } else { BucketedKept(t, id, b, nNow, s'); }
    hide AddStep;
    AfterSame(s.mapInfo[id], info, s'.mapInfo[id], addr, penalty, nNow);
  }

  lemma AfterSame(a: Info, b: Info, c: Info, addr: Address, penalty: int, nNow: int)
    requires KnownAfter(a, b, addr, penalty, nNow) && SameEntry(b, c)
    ensures KnownAfter(a, c, addr, penalty, nNow)
  {
    hide Advertises, Penalized, IsNews;
  }

  /** A new address: its entry holds what was given, less the penalty, and has no history; it is in
      the new bucket that its address and its source name. */
  lemma AddsNew(e: Env, s: State, addr: Address, source: NetAddr, penalty: int, nNow: int, fNew: bool, s': State)
    requires Inv(e, s) && AddStep(e, s, addr, source, penalty, nNow, fNew, s')
    requires e.isRoutable(addr.svc.net) && addr.svc.net !in s.mapAddr
    ensures var id := s.nIdCount;
            && id !in s.mapInfo && id in s'.mapInfo && s'.nIdCount == id + 1
            && var b := s'.mapInfo[id];
               && b.addr.svc == addr.svc && b.addr.services == addr.services && b.source == source && !b.fInTried
               && Penalized(b.addr.nTime, addr.nTime, penalty)
               && b.nLastSuccess == 0 && b.nLastTry == 0 && b.nAttempts == 0
               && (forall x | x in s'.mapInfo && x != id :: x in s.mapInfo && SameEntry(s.mapInfo[x], s'.mapInfo[x]))
    ensures var b := e.NewBucket(addr.svc.net, source); b < |s'.vvNew| && s.nIdCount in s'.vvNew[b]
  {
    AddedEntry(e, s, addr.svc.net);
    FreshId(e, s);
    hide InvPending, Bucketed, Penalized, ToUint32, Max;
    var t, b := Created(s, addr, source, penalty), e.NewBucket(addr.svc.net, source);
    PenaltyHolds(addr.nTime, penalty);
    BucketedKept(t, s.nIdCount, b, nNow, s');
    BucketedCount(t, s.nIdCount, b, nNow, s');
  }

  lemma FreshId(e: Env, s: State)
    requires Inv(e, s)
    ensures s.nIdCount !in s.mapInfo
  {
  }

  lemma BucketedCount(s: State, id: nat, b: nat, nNow: int, s': State)
    requires id in s.mapInfo && b < |s.vvNew| && Bucketed(s, id, b, nNow, s')
    ensures s'.nIdCount == s.nIdCount && |s'.vvNew| == |s.vvNew|
  {
    hide ShrinkChoice, Placed;
  }

  // ---------------------------------------------------------------- successes and attempts

  /** The manager after connection attempts at these times. */
  function TriedAt(s: State, svc: Service, times: seq<int>): State {
    if times == [] then s else Attempted(TriedAt(s, svc, times[..|times| - 1]), svc, times[|times| - 1])
  }

  lemma AttemptedEntry(s: State, svc: Service, nTime: int)
    requires Known(s, svc).Some?
    ensures var id, t := Known(s, svc).value, Attempted(s, svc, nTime);
            && Known(t, svc) == Some(id)
            && t.mapInfo[id] == s.mapInfo[id].(nLastTry := nTime, nAttempts := s.mapInfo[id].nAttempts + 1)
            && (forall x | x in s.mapInfo && x != id :: x in t.mapInfo && t.mapInfo[x] == s.mapInfo[x])
            && t.mapInfo.Keys == s.mapInfo.Keys
  {
  }

  /** After a success the entry is tried, has its time and no failed attempt; `n` attempts later it
      has `n`, and the time of the last. */
  lemma {:induction false} AttemptsCount(e: Env, s: State, svc: Service, nTime: int, s': State, times: seq<int>)
    requires Inv(e, s) && GoodStep(e, s, svc, nTime, s') && Known(s, svc).Some?
    ensures var id, t := Known(s, svc).value, TriedAt(s', svc, times);
            && Known(t, svc) == Some(id)
            && t.mapInfo[id].nAttempts == |times| && t.mapInfo[id].nLastSuccess == nTime && t.mapInfo[id].fInTried
            && t.mapInfo[id].nLastTry == (if times == [] then nTime else times[|times| - 1])
  {
    hide InvPending, GoodStep, Known, Attempted;
    GoodEntry(e, s, svc, nTime, s');
    if times != [] {
      var front := times[..|times| - 1];
      AttemptsCount(e, s, svc, nTime, s', front);
      AttemptedEntry(TriedAt(s', svc, front), svc, times[|times| - 1]);
    }
  }

  lemma GoodEntry(e: Env, s: State, svc: Service, nTime: int, s': State)
    requires Inv(e, s) && GoodStep(e, s, svc, nTime, s') && Known(s, svc).Some?
    ensures var id := Known(s, svc).value;
            && Known(s', svc) == Some(id)
            && s'.mapInfo[id].nAttempts == 0 && s'.mapInfo[id].nLastSuccess == nTime && s'.mapInfo[id].nLastTry == nTime
            && s'.mapInfo[id].fInTried && s'.mapInfo[id].addr.nTime == ToUint32(nTime)
            && s'.mapInfo[id].addr.services == s.mapInfo[id].addr.services && s'.mapInfo[id].source == s.mapInfo[id].source
  {
    hide InvPending, PromotedFrom, ToUint32;
    var id := Known(s, svc).value;
    var t := Refreshed(s, id, nTime);
    if !s.mapInfo[id].fInTried {
      var origin: nat :| origin < NEW_BUCKET_COUNT && origin < |s.vvNew| && id in s.vvNew[origin]
                         && PromotedFrom(e, t, id, origin, s');
      PromotedInfo(e, t, id, origin, s');
    }
  }

  /** A sighting renews the time of an entry only when that is older by more than 20 minutes. */
  lemma ConnectedEntry(s: State, svc: Service, nTime: int)
    requires Known(s, svc).Some? && 0 <= nTime < 0x1_0000_0000
    ensures var id, t := Known(s, svc).value, Connected(s, svc, nTime);
            && Known(t, svc) == Some(id)
            && t.mapInfo[id].addr.nTime == (if nTime > s.mapInfo[id].addr.nTime + 1200 then nTime else s.mapInfo[id].addr.nTime)
            && t == s.(mapInfo := s.mapInfo[id := s.mapInfo[id].(addr := s.mapInfo[id].addr.(nTime := t.mapInfo[id].addr.nTime))])
  {
    var id, t := Known(s, svc).value, Connected(s, svc, nTime);
    var info := s.mapInfo[id].(addr := s.mapInfo[id].addr.(nTime := t.mapInfo[id].addr.nTime));
    if nTime - s.mapInfo[id].addr.nTime <= 1200 {
      assert info == s.mapInfo[id];
      assert s.mapInfo[id := info] == s.mapInfo;
    }
  }

  // ---------------------------------------------------------------- terrible entries

  /** Why an entry may be given up: it is from the future, was never seen, was last seen a month
      ago, failed three times without a success, or ten times in the week after its last one. */
  predicate GivesCause(info: Info, nNow: int) {
    || info.addr.nTime - nNow > 600
    || info.addr.nTime == 0
    || nNow - info.addr.nTime > 2592000
    || (info.nLastSuccess == 0 && info.nAttempts >= 3)
    || (nNow - info.nLastSuccess > 604800 && info.nAttempts >= 10)
  }

  /** An entry tried within the last minute is never terrible; any other is exactly with a cause. */
  lemma TerribleIff(info: Info, nNow: int)
    ensures info.nLastTry != 0 && nNow - info.nLastTry <= 60 ==> !info.IsTerrible(nNow)
    ensures info.nLastTry == 0 || nNow - info.nLastTry > 60 ==> (info.IsTerrible(nNow) <==> GivesCause(info, nNow))
  {
  }
}

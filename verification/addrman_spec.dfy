/**
 What one operation of the address manager may do, as a relation between the state before
 and the state after it; the draws of the random generator are the witnesses of the
 existential quantifiers. Every run of the operations keeps the invariant.
 */
module AddrManSpec {
  import opened Common
  import opened AddrManState
  import opened AddrManSteps
  import opened AddrManPromote
  import opened AddrManInspect
  import Store = AddrManStore

  // src/addrman.cpp:83-94
  function Find(s: State, net: NetAddr): Option<nat> {
    if net in s.mapAddr && s.mapAddr[net] in s.mapInfo then Some(s.mapAddr[net]) else None
  }

  /** The id of exactly this service, port included. */
  function Known(s: State, svc: Service): Option<nat> {
    match Find(s, svc.net)
    case Some(id) => if s.mapInfo[id].addr.svc == svc then Some(id) else None
    case None => None
  }

  // ---------------------------------------------------------------- Attempt_, Connected_

  // src/addrman.cpp:370-387
  function Attempted(s: State, svc: Service, nTime: int): State {
    match Known(s, svc)
    case None => s
    case Some(id) =>
      SetInfo(s, id, s.mapInfo[id].(nLastTry := nTime, nAttempts := s.mapInfo[id].nAttempts + 1))
  }

  // src/addrman.cpp:518-536
  function Connected(s: State, svc: Service, nTime: int): State {
    match Known(s, svc)
    case None => s
    case Some(id) =>
      var info := s.mapInfo[id];
      if nTime - info.addr.nTime > 20 * 60
      then SetInfo(s, id, info.(addr := info.addr.(nTime := ToUint32(nTime))))
      else s
  }

  lemma KnownEntry(e: Env, s: State, svc: Service)
    requires Inv(e, s)
    ensures Known(s, svc).Some? ==> InfoOk(s.mapInfo[Known(s, svc).value])
  {
  }

  /** An attempt keeps the manager consistent exactly when its time is not negative. */
  lemma AttemptKeeps(e: Env, s: State, svc: Service, nTime: int)
    requires Inv(e, s)
    ensures Inv(e, Attempted(s, svc, nTime)) <==> Known(s, svc).None? || nTime >= 0
  {
    hide InvPending;
    KnownEntry(e, s, svc);
    match Known(s, svc)
    case None =>
    case Some(id) =>
      var info := s.mapInfo[id].(nLastTry := nTime, nAttempts := s.mapInfo[id].nAttempts + 1);
      if nTime >= 0 {
        TouchKeeps(e, s, id, info, None);
      } else {
        BadInfo(e, Attempted(s, svc, nTime), id);
      }
  }

  lemma BadInfo(e: Env, s: State, id: nat)
    requires id in s.mapInfo && !InfoOk(s.mapInfo[id])
    ensures !Inv(e, s)
  {
  }

  lemma ConnectedKeeps(e: Env, s: State, svc: Service, nTime: int)
    requires Inv(e, s)
    ensures Inv(e, Connected(s, svc, nTime))
  {
    KnownEntry(e, s, svc);
    hide InvPending;
    match Known(s, svc)
    case None =>
    case Some(id) =>
      var info := s.mapInfo[id];
      TouchKeeps(e, s, id, info.(addr := info.addr.(nTime := ToUint32(nTime))), None);
  }

  // ---------------------------------------------------------------- Good_

  // src/addrman.cpp:280-283
  function Refreshed(s: State, id: nat, nTime: int): State
    requires id in s.mapInfo
  {
    var info := s.mapInfo[id];
    SetInfo(s, id, info.(nLastSuccess := nTime, nLastTry := nTime, nAttempts := 0,
                         addr := info.addr.(nTime := ToUint32(nTime))))
  }

  function RoomIn(vv: seq<set<nat>>, b: nat): bool
    requires b < |vv|
  {
    |vv[b]| < NEW_BUCKET_SIZE
  }

  /** What `MakeTried` may make of `s` (src/addrman.cpp:206-262). */
  ghost predicate PromotedFrom(e: Env, s: State, id: nat, origin: nat, s': State)
    requires id in s.mapInfo && origin < NEW_BUCKET_COUNT
  {
    var t := Stripped(s, id);
    var k := e.TriedBucket(s.mapInfo[id].addr.svc);
    if k < |t.vvTried| && |t.vvTried[k]| < TRIED_BUCKET_SIZE then s' == Appended(t, k, id)
    else SomeReplacement(e, t, id, origin, k, s')
  }

  ghost predicate SomeReplacement(e: Env, t: State, id: nat, origin: nat, k: nat, s': State) {
    exists draws: seq<nat> :: ReplacedAt(e, t, id, origin, k, draws, s')
  }

  /** The draws decide which entry of tried bucket `k` makes room. */
  ghost predicate ReplacedAt(e: Env, t: State, id: nat, origin: nat, k: nat, draws: seq<nat>, s': State) {
    && k < |t.vvTried| && |draws| == TRIED_ENTRIES_INSPECT_ON_EVICT
    && Draws(draws, |t.vvTried[k]|) && Present(t.mapInfo, t.vvTried[k])
    && id in t.mapInfo
    && |t.vvNew| == NEW_BUCKET_COUNT && origin < NEW_BUCKET_COUNT
    && var l := Inspect(t.mapInfo, t.vvTried[k], draws);
       ReplacedBy(e, t, id, origin, k, l.bucket, l.pos, s')
  }

  ghost predicate ReplacedBy(e: Env, t: State, id: nat, origin: nat, k: nat, bucket: seq<nat>, pos: nat, s': State)
    requires k < |t.vvTried| && id in t.mapInfo && |t.vvNew| == NEW_BUCKET_COUNT && origin < NEW_BUCKET_COUNT
  {
    && multiset(bucket) == multiset(t.vvTried[k])
    && pos < |bucket| && bucket[pos] in t.mapInfo
    && var evictee := t.mapInfo[bucket[pos]];
       var b := e.NewBucket(evictee.Net(), evictee.source);
       s' == Replaced(Reordered(t, k, bucket), k, pos, id, if RoomIn(t.vvNew, b) then b else origin)
  }

  ghost predicate GoodStep(e: Env, s: State, svc: Service, nTime: int, s': State) {
    match Known(s, svc)
    case None => s' == s
    case Some(id) =>
      var t := Refreshed(s, id, nTime);
      if s.mapInfo[id].fInTried then s' == t
      else MovedToTried(e, t, id, s')
  }

  ghost predicate MovedToTried(e: Env, s: State, id: nat, s': State)
    requires id in s.mapInfo
  {
    exists origin: nat | origin < NEW_BUCKET_COUNT && origin < |s.vvNew| && id in s.vvNew[origin] ::
      PromotedFrom(e, s, id, origin, s')
  }

  /** Consistent but for the two times of one entry. */
  ghost predicate ValidBut(e: Env, s: State, id: nat)
    requires id in s.mapInfo
  {
    Inv(e, SetInfo(s, id, s.mapInfo[id].(nLastSuccess := 1, nLastTry := 1)))
  }

  lemma RefreshedValidBut(e: Env, s: State, id: nat, nTime: int)
    requires Inv(e, s) && id in s.mapInfo
    ensures ValidBut(e, Refreshed(s, id, nTime), id)
  {
    EntryOk(e, s, id);
    hide InvPending, ToUint32;
    var t := Refreshed(s, id, nTime);
    var info := t.mapInfo[id].(nLastSuccess := 1, nLastTry := 1);
    SetTwice(s, id, t.mapInfo[id], info);
    TouchKeeps(e, s, id, info, None);
  }

  lemma SetTwice(s: State, id: nat, a: Info, b: Info)
    ensures SetInfo(SetInfo(s, id, a), id, b) == SetInfo(s, id, b)
  {
    assert s.mapInfo[id := a][id := b] == s.mapInfo[id := b];
  }

  lemma EntryOk(e: Env, s: State, id: nat)
    requires Inv(e, s) && id in s.mapInfo
    ensures InfoOk(s.mapInfo[id])
  {
  }

  /** What the times have nothing to do with. */
  lemma ValidButTimes(e: Env, s: State, id: nat)
    requires id in s.mapInfo && ValidBut(e, s, id)
    ensures s.mapInfo[id].nRefCount == Count(s.vvNew, id)
    ensures |s.vvTried| == TRIED_BUCKET_COUNT && |s.vvNew| == NEW_BUCKET_COUNT
    ensures forall k | 0 <= k < |s.vvTried| :: Present(s.mapInfo, s.vvTried[k])
  {
    hide Indexes, Counters, Count;
    var t := SetInfo(s, id, s.mapInfo[id].(nLastSuccess := 1, nLastTry := 1));
    assert t.mapInfo.Keys == s.mapInfo.Keys;
  }

  /** An entry outside the tried table is in some new bucket: `Good_` always finds one. */
  lemma InSomeBucket(e: Env, s: State, id: nat)
    requires id in s.mapInfo && ValidBut(e, s, id) && !s.mapInfo[id].fInTried
    ensures exists b: nat | b < |s.vvNew| :: id in s.vvNew[b]
  {
    ValidButTimes(e, s, id);
    EntryOk(e, SetInfo(s, id, s.mapInfo[id].(nLastSuccess := 1, nLastTry := 1)), id);
    CountPositive(s.vvNew, id);
  }

  lemma StrippedRoom(vv: seq<set<nat>>, id: nat, origin: nat)
    requires NewSizes(vv) && origin < |vv| && id in vv[origin]
    ensures RoomIn(Without(vv, id), origin) && |Without(vv, id)| == |vv|
  {
  }

  lemma ReplacedKeeps(e: Env, t: State, id: nat, origin: nat, k: nat, draws: seq<nat>, s': State)
    requires Limbo(e, t, id) && k == e.TriedBucket(t.mapInfo[id].addr.svc)
    requires ReplacedAt(e, t, id, origin, k, draws, s') && RoomIn(t.vvNew, origin)
    ensures Inv(e, s')
  {
    hide InvPending, Limbo, NewSizes, Replaced, Inspect, Draws, Present, Sound;
    var l := Inspect(t.mapInfo, t.vvTried[k], draws);
    var bucket, pos := l.bucket, l.pos;
    ReorderKeeps(e, t, k, bucket, id);
    var evictee := t.mapInfo[bucket[pos]];
    var b := e.NewBucket(evictee.Net(), evictee.source);
    ReplaceKeeps(e, Reordered(t, k, bucket), k, pos, id, if RoomIn(t.vvNew, b) then b else origin);
  }

  lemma PromoteKeeps(e: Env, s: State, id: nat, origin: nat, s': State)
    requires Inv(e, s) && id in s.mapInfo && !s.mapInfo[id].fInTried && s.mapInfo[id].nLastSuccess > 0
    requires origin < |s.vvNew| && origin < NEW_BUCKET_COUNT && id in s.vvNew[origin]
    requires PromotedFrom(e, s, id, origin, s')
    ensures Inv(e, s')
  {
    InvSizes(e, s, None);
    hide InvPending, Limbo, NewSizes, ReplacedAt, Appended;
    var t := Stripped(s, id);
    StripKeeps(e, s, id);
    StrippedRoom(s.vvNew, id, origin);
    var k := e.TriedBucket(s.mapInfo[id].addr.svc);
    if k < |t.vvTried| && |t.vvTried[k]| < TRIED_BUCKET_SIZE {
      AppendKeeps(e, t, k, id);
    } else {
      var draws: seq<nat> :| ReplacedAt(e, t, id, origin, k, draws, s');
      ReplacedKeeps(e, t, id, origin, k, draws, s');
    }
  }

  lemma InvSizes(e: Env, s: State, pending: Option<nat>)
    requires InvPending(e, s, pending)
    ensures NewSizes(s.vvNew) && |s.vvTried| == TRIED_BUCKET_COUNT && |s.vvNew| == NEW_BUCKET_COUNT
  {
  }

  lemma ReplacedInfo(e: Env, t: State, id: nat, origin: nat, k: nat, draws: seq<nat>, s': State)
    requires ReplacedAt(e, t, id, origin, k, draws, s')
    ensures id in s'.mapInfo && s'.mapInfo[id].fInTried
    ensures s'.mapInfo[id] == t.mapInfo[id].(fInTried := true, nRefCount := s'.mapInfo[id].nRefCount)
    ensures s'.mapInfo.Keys == t.mapInfo.Keys && s'.mapAddr == t.mapAddr && s'.vRandom == t.vRandom
  {
    hide Inspect, Draws, Present, Sound;
    var l := Inspect(t.mapInfo, t.vvTried[k], draws);
    assert s'.mapInfo.Keys == t.mapInfo.Keys;
  }

  /** Whatever happens to the tables, `Good_` leaves its time in the entry it was called for. */
  lemma PromotedInfo(e: Env, s: State, id: nat, origin: nat, s': State)
    requires id in s.mapInfo && origin < NEW_BUCKET_COUNT && PromotedFrom(e, s, id, origin, s')
    ensures id in s'.mapInfo && s'.mapInfo[id].fInTried
    ensures s'.mapInfo[id] == s.mapInfo[id].(fInTried := true, nRefCount := s'.mapInfo[id].nRefCount)
    ensures s'.mapInfo.Keys == s.mapInfo.Keys && s'.mapAddr == s.mapAddr && s'.vRandom == s.vRandom
  {
    hide ReplacedAt;
    var t := Stripped(s, id);
    var k := e.TriedBucket(s.mapInfo[id].addr.svc);
    if k < |t.vvTried| && |t.vvTried[k]| < TRIED_BUCKET_SIZE {
    } else {
      var draws: seq<nat> :| ReplacedAt(e, t, id, origin, k, draws, s');
      ReplacedInfo(e, t, id, origin, k, draws, s');
    }
  }

  /** `Good_` keeps the manager consistent exactly when its time is positive or it does not
      know the address. */
  lemma GoodKeeps(e: Env, s: State, svc: Service, nTime: int, s': State)
    requires Inv(e, s) && GoodStep(e, s, svc, nTime, s')
    ensures Inv(e, s') <==> Known(s, svc).None? || nTime > 0
  {
    hide InvPending, PromotedFrom;
    KnownEntry(e, s, svc);
    match Known(s, svc)
    case None =>
    case Some(id) =>
      var t := Refreshed(s, id, nTime);
      if nTime > 0 {
        TouchKeeps(e, s, id, t.mapInfo[id], None);
      }
      if s.mapInfo[id].fInTried {
        if nTime <= 0 { BadInfo(e, s', id); }
      } else {
        var origin: nat :| origin < NEW_BUCKET_COUNT && origin < |s.vvNew| && id in s.vvNew[origin]
                           && PromotedFrom(e, t, id, origin, s');
        if nTime > 0 {
          PromoteKeeps(e, t, id, origin, s');
        } else {
          PromotedInfo(e, t, id, origin, s');
          BadInfo(e, s', id);
        }
      }
  }

  // ---------------------------------------------------------------- Add_

  /** The seconds between two updates of the time of a known address (src/addrman.cpp:325-326). */
  function UpdateInterval(addr: Address, nNow: int): int {
    if nNow - addr.nTime < 24 * 60 * 60 then 60 * 60 else 24 * 60 * 60
  }

  function Merged(a: bv64, b: bv64): bv64 { a | b }

  // src/addrman.cpp:324-331
  function Reseen(info: Info, addr: Address, penalty: int, nNow: int): Info {
    var late := addr.nTime != 0
                && (info.addr.nTime == 0 || info.addr.nTime < addr.nTime - UpdateInterval(addr, nNow) - penalty);
    var nTime := if late then ToUint32(Max(0, addr.nTime - penalty)) else info.addr.nTime;
    info.(addr := info.addr.(nTime := nTime, services := Merged(info.addr.services, addr.services)))
  }

  /** Whether a known entry gets no further bucket, whatever is drawn (src/addrman.cpp:333-343). */
  predicate NoFurtherBucket(info: Info, addr: Address) {
    || addr.nTime == 0
    || (info.addr.nTime != 0 && addr.nTime <= info.addr.nTime)
    || info.fInTried
    || info.nRefCount == NEW_BUCKETS_PER_ADDRESS
  }

  /** Which entry of new bucket `b` `ShrinkNew` may take out (src/addrman.cpp:152-204): the
      first terrible one, or the oldest of at most four when none is terrible. */
  ghost predicate ShrinkChoice(s: State, b: nat, nNow: int, victim: nat, ret: int) {
    && b < |s.vvNew| && victim in s.vvNew[b]
    && (forall id | id in s.vvNew[b] :: id in s.mapInfo)
    && if exists id :: id in s.vvNew[b] && s.mapInfo[id].IsTerrible(nNow)
       then ret == 0 && FirstTerrible(s, b, nNow, victim)
       else ret == 1 && exists drawn: set<nat> :: OldestOf(s, b, drawn, victim)
  }

  ghost predicate FirstTerrible(s: State, b: nat, nNow: int, victim: nat)
    requires b < |s.vvNew| && forall id | id in s.vvNew[b] :: id in s.mapInfo
  {
    && victim in s.vvNew[b] && s.mapInfo[victim].IsTerrible(nNow)
    && forall id | id in s.vvNew[b] && id < victim :: !s.mapInfo[id].IsTerrible(nNow)
  }

  ghost predicate OldestOf(s: State, b: nat, drawn: set<nat>, victim: nat)
    requires b < |s.vvNew| && forall id | id in s.vvNew[b] :: id in s.mapInfo
  {
    && drawn <= s.vvNew[b] && 1 <= |drawn| <= 4 && victim in drawn
    && forall id | id in drawn ::
         || s.mapInfo[victim].addr.nTime < s.mapInfo[id].addr.nTime
         || (s.mapInfo[victim].addr.nTime == s.mapInfo[id].addr.nTime && victim <= id)
  }

  /** Giving the entry `id` the new bucket `b` (src/addrman.cpp:358-366). */
  ghost predicate Bucketed(s: State, id: nat, b: nat, nNow: int, s': State)
    requires id in s.mapInfo && b < |s.vvNew|
  {
    if id in s.vvNew[b] then s' == s
    else
      var t := AddRef(s, id);
      if |s.vvNew[b]| == NEW_BUCKET_SIZE then
        SomeShrink(t, id, b, nNow, s')
      else s' == Put(t, b, id)
  }

  ghost predicate SomeShrink(t: State, id: nat, b: nat, nNow: int, s': State) {
    exists victim: nat, ret: int :: ShrunkThenPut(t, id, b, nNow, victim, ret, s')
  }

  ghost predicate ShrunkThenPut(t: State, id: nat, b: nat, nNow: int, victim: nat, ret: int, s': State) {
    && ShrinkChoice(t, b, nNow, victim, ret)
    && victim in t.mapInfo && Placed(t.mapInfo, t.vRandom)
    && s' == Put(Evicted(t, b, victim), b, id)
  }

  // src/addrman.cpp:313-368
  ghost predicate AddStep(e: Env, s: State, addr: Address, source: NetAddr, penalty: int, nNow: int, fNew: bool, s': State) {
    if !e.isRoutable(addr.svc.net) then s' == s && !fNew
    else
      match Find(s, addr.svc.net)
      case Some(id) =>
        var t := SetInfo(s, id, Reseen(s.mapInfo[id], addr, penalty, nNow));
        var b := e.NewBucket(addr.svc.net, source);
        && !fNew
        && if NoFurtherBucket(t.mapInfo[id], addr) then s' == t
           else (t.mapInfo[id].nRefCount > 0 && s' == t) || (b < |t.vvNew| && Bucketed(t, id, b, nNow, s'))
      case None =>
        var t := Created(s, addr, source, penalty);
        var b := e.NewBucket(addr.svc.net, source);
        fNew && b < |t.vvNew| && Bucketed(t, s.nIdCount, b, nNow, s')
  }

  lemma BucketedKeeps(e: Env, s: State, id: nat, b: nat, nNow: int, s': State)
    requires id in s.mapInfo && InvPending(e, AddRef(s, id), Some(id))
    requires b < |s.vvNew| && id !in s.vvNew[b] && Bucketed(s, id, b, nNow, s')
    ensures Inv(e, s')
  {
    var t := AddRef(s, id);
    InvSizes(e, t, Some(id));
    hide InvPending, ShrinkChoice, Placed;
    if |s.vvNew[b]| == NEW_BUCKET_SIZE {
      var victim: nat, ret: int :| ShrunkThenPut(t, id, b, nNow, victim, ret, s');
      ChoiceMember(t, b, nNow, victim, ret);
      EvictKeeps(e, t, b, victim, Some(id));
      var u := Evicted(t, b, victim);
      EvictedOthers(t, b, victim, id);
      PutKeeps(e, u, b, id);
    } else {
      PutKeeps(e, t, b, id);
    }
  }

  lemma ChoiceMember(s: State, b: nat, nNow: int, victim: nat, ret: int)
    requires ShrinkChoice(s, b, nNow, victim, ret)
    ensures b < |s.vvNew| && victim in s.vvNew[b]
  {
  }

  lemma EvictedOthers(s: State, b: nat, victim: nat, id: nat)
    requires b < |s.vvNew| && victim in s.vvNew[b] && id in s.mapInfo && id != victim
    requires victim in s.mapInfo && Placed(s.mapInfo, s.vRandom)
    ensures var u := Evicted(s, b, victim);
            && id in u.mapInfo && u.vvNew == s.vvNew[b := s.vvNew[b] - {victim}]
            && |u.vvNew[b]| == |s.vvNew[b]| - 1
            && u.vvTried == s.vvTried && u.nTried == s.nTried
            && (forall x | x in s.mapInfo && x != victim :: x in u.mapInfo && u.mapInfo[x].fInTried == s.mapInfo[x].fInTried)
  {
  }

  lemma AddKeeps(e: Env, s: State, addr: Address, source: NetAddr, penalty: int, nNow: int, fNew: bool, s': State)
    requires Inv(e, s) && AddStep(e, s, addr, source, penalty, nNow, fNew, s')
    ensures Inv(e, s')
    ensures fNew <==> e.isRoutable(addr.svc.net) && addr.svc.net !in s.mapAddr
  {
    hide InvPending, Bucketed, ToUint32, Max, Merged;
    AddedEntry(e, s, addr.svc.net);
    if e.isRoutable(addr.svc.net) {
      var b := e.NewBucket(addr.svc.net, source);
      match Find(s, addr.svc.net) {
        case Some(id) =>
          var info := Reseen(s.mapInfo[id], addr, penalty, nNow);
          var t := SetInfo(s, id, info);
          TouchKeeps(e, s, id, info, None);
          if s' != t {
            BucketedOrSame(t, id, b, nNow, s');
            AddRefKeeps(e, t, id);
            BucketedKeeps(e, t, id, b, nNow, s');
          }
        case None =>
          var t := Created(s, addr, source, penalty);
          CreateKeeps(e, s, addr, source, penalty);
          BucketedKeeps(e, t, s.nIdCount, b, nNow, s');
      }
    }
  }

  lemma AddedEntry(e: Env, s: State, net: NetAddr)
    requires Inv(e, s)
    ensures Find(s, net).Some? ==> InfoOk(s.mapInfo[Find(s, net).value]) && s.mapInfo[Find(s, net).value].Net() == net
    ensures Find(s, net).None? <==> net !in s.mapAddr
  {
  }

  lemma BucketedOrSame(s: State, id: nat, b: nat, nNow: int, s': State)
    requires id in s.mapInfo && b < |s.vvNew| && Bucketed(s, id, b, nNow, s') && s' != s
    ensures id !in s.vvNew[b]
  {
  }

  /** The address `net` belongs to a new entry whose single reference is full bucket `b`. */
  ghost predicate Displaceable(s: State, b: nat, net: NetAddr) {
    && net in s.mapAddr && s.mapAddr[net] in s.mapInfo
    && !s.mapInfo[s.mapAddr[net]].fInTried && s.mapInfo[s.mapAddr[net]].nRefCount == 1
    && b < |s.vvNew| && s.mapAddr[net] in s.vvNew[b] && |s.vvNew[b]| == NEW_BUCKET_SIZE
  }

  /** `Add_` never touches the tried table. The only address it can forget is one that its
      full bucket held as its single reference. */
  lemma AddForgets(e: Env, s: State, addr: Address, source: NetAddr, penalty: int, nNow: int, fNew: bool, s': State)
    requires Inv(e, s) && AddStep(e, s, addr, source, penalty, nNow, fNew, s')
    ensures s'.vvTried == s.vvTried && s'.nTried == s.nTried
    ensures forall net | net in s.mapAddr && net !in s'.mapAddr ::
              net != addr.svc.net && Displaceable(s, e.NewBucket(addr.svc.net, source), net)
  {
    hide Bucketed, InvPending, Displaceable;
    AddedEntry(e, s, addr.svc.net);
    if e.isRoutable(addr.svc.net) {
      var b := e.NewBucket(addr.svc.net, source);
      match Find(s, addr.svc.net) {
        case Some(id) => AddForgetsKnown(e, s, id, addr, b, penalty, nNow, s');
        case None =>
          var t := Created(s, addr, source, penalty);
          CreateKeeps(e, s, addr, source, penalty);
          BucketedForgets(e, t, s.nIdCount, b, nNow, s');
          forall net | net in s.mapAddr && net !in s'.mapAddr
            ensures net != addr.svc.net && Displaceable(s, b, net)
          {
            CreatedDisplaceable(s, addr, source, penalty, b, net);
          }
      }
    }
  }

  lemma AddForgetsKnown(e: Env, s: State, id: nat, addr: Address, b: nat, penalty: int, nNow: int, s': State)
    requires Inv(e, s) && id in s.mapInfo && InfoOk(s.mapInfo[id]) && s.mapInfo[id].Net() == addr.svc.net
    requires var t := SetInfo(s, id, Reseen(s.mapInfo[id], addr, penalty, nNow));
             s' == t || (!NoFurtherBucket(t.mapInfo[id], addr) && b < |t.vvNew| && Bucketed(t, id, b, nNow, s'))
    ensures s'.vvTried == s.vvTried && s'.nTried == s.nTried
    ensures forall net | net in s.mapAddr && net !in s'.mapAddr :: net != addr.svc.net && Displaceable(s, b, net)
  {
    hide Bucketed, InvPending, Displaceable;
    var info := Reseen(s.mapInfo[id], addr, penalty, nNow);
    var t := SetInfo(s, id, info);
    TouchKeeps(e, s, id, info, None);
    if s' != t {
      BucketedOrSame(t, id, b, nNow, s');
      AddRefKeeps(e, t, id);
      BucketedForgets(e, t, id, b, nNow, s');
      forall net | net in s.mapAddr && net !in s'.mapAddr
        ensures net != addr.svc.net && Displaceable(s, b, net)
      {
        AddedEntry(e, t, net);
        TouchedDisplaceable(e, s, id, info, b, net);
      }
    }
  }

  lemma CreatedDisplaceable(s: State, addr: Address, source: NetAddr, penalty: int, b: nat, net: NetAddr)
    requires Displaceable(Created(s, addr, source, penalty), b, net) && addr.svc.net !in s.mapAddr && net in s.mapAddr
    requires Created(s, addr, source, penalty).mapAddr[net] != s.nIdCount
    ensures net != addr.svc.net && Displaceable(s, b, net)
  {
  }

  lemma TouchedDisplaceable(e: Env, s: State, id: nat, info: Info, b: nat, net: NetAddr)
    requires Inv(e, s) && id in s.mapInfo && SameTable(s.mapInfo[id], info)
    requires Displaceable(SetInfo(s, id, info), b, net) && s.mapAddr[net] != id
    ensures net != s.mapInfo[id].Net() && Displaceable(s, b, net)
  {
  }

  lemma BucketedForgets(e: Env, s: State, id: nat, b: nat, nNow: int, s': State)
    requires id in s.mapInfo && InvPending(e, AddRef(s, id), Some(id))
    requires b < |s.vvNew| && id !in s.vvNew[b] && Bucketed(s, id, b, nNow, s')
    ensures s'.vvTried == s.vvTried && s'.nTried == s.nTried
    ensures forall net | net in s.mapAddr && net !in s'.mapAddr :: s.mapAddr[net] != id && Displaceable(s, b, net)
  {
    hide InvPending, ShrinkChoice, Placed, Evicted, Displaceable, AddRef;
    var t := AddRef(s, id);
    AddRefOthers(s, id, id);
    if |s.vvNew[b]| == NEW_BUCKET_SIZE {
      var victim: nat, ret: int :| ShrunkThenPut(t, id, b, nNow, victim, ret, s');
      ChoiceMember(t, b, nNow, victim, ret);
      BucketMember(e, t, b, victim, Some(id));
      EvictForgets(e, t, b, victim, Some(id));
      AddRefOthers(s, id, victim);
      forall net | net in s.mapAddr && net !in s'.mapAddr
        ensures s.mapAddr[net] != id && Displaceable(s, b, net)
      {
        assert net == t.mapInfo[victim].Net();
        VictimDisplaceable(s, id, b, victim, net);
      }
    }
  }

  lemma AddRefOthers(s: State, id: nat, other: nat)
    requires id in s.mapInfo
    ensures var t := AddRef(s, id);
            && t.mapAddr == s.mapAddr && t.vvNew == s.vvNew && t.vvTried == s.vvTried && t.nTried == s.nTried
            && t.mapInfo.Keys == s.mapInfo.Keys
            && (other in s.mapInfo && other != id ==> t.mapInfo[other] == s.mapInfo[other])
  {
  }

  lemma VictimDisplaceable(s: State, id: nat, b: nat, victim: nat, net: NetAddr)
    requires id in s.mapInfo && victim in s.mapInfo && victim != id && net in s.mapAddr && s.mapAddr[net] == victim
    requires b < |s.vvNew| && victim in s.vvNew[b] && |s.vvNew[b]| == NEW_BUCKET_SIZE
    requires !s.mapInfo[victim].fInTried && s.mapInfo[victim].nRefCount == 1
    ensures Displaceable(s, b, net)
  {
  }

  lemma EvictForgets(e: Env, s: State, b: nat, id: nat, pending: Option<nat>)
    requires InvPending(e, s, pending) && b < |s.vvNew| && id in s.vvNew[b]
    requires id in s.mapInfo && Placed(s.mapInfo, s.vRandom)
    ensures var t := Evicted(s, b, id);
            && t.vvTried == s.vvTried && t.nTried == s.nTried
            && t.mapAddr == (if s.mapInfo[id].nRefCount == 1 then s.mapAddr - {s.mapInfo[id].Net()} else s.mapAddr)
    ensures s.mapInfo[id].Net() in s.mapAddr && s.mapAddr[s.mapInfo[id].Net()] == id
  {
    hide NewTable, TriedTable, IdsBelow, InfosOk, TriedIds, NewIds;
  }

  // ---------------------------------------------------------------- GetAddr_

  function RoutableIds(e: Env, m: map<nat, Info>): set<nat> {
    set id | id in m && e.isRoutable(m[id].Net())
  }

  // src/addrman.cpp:495-497
  function ReplySize(n: nat): (r: nat)
    ensures 100 * r <= 23 * n && r <= 2500 && (r == 2500 || 100 * (r + 1) > 23 * n)
  {
    if GETADDR_MAX_PCT * n / 100 > GETADDR_MAX then GETADDR_MAX else GETADDR_MAX_PCT * n / 100
  }

  /** The reply holds the right number of different routable addresses, all of them known;
      the manager itself is only shuffled. */
  ghost predicate GetAddrStep(e: Env, s: State, reply: seq<Address>, s': State) {
    && s' == s.(mapInfo := s'.mapInfo, vRandom := s'.vRandom)
    && SameButSlots(s.mapInfo, s'.mapInfo)
    && Placed(s'.mapInfo, s'.vRandom)
    && multiset(s'.vRandom) == multiset(s.vRandom)
    && |reply| == (if ReplySize(|s.vRandom|) < |RoutableIds(e, s.mapInfo)|
                   then ReplySize(|s.vRandom|) else |RoutableIds(e, s.mapInfo)|)
    && (forall i | 0 <= i < |reply| :: Serves(e, s, reply[i]))
    && (forall i, j | 0 <= i < j < |reply| :: reply[i].svc.net != reply[j].svc.net)
  }

  predicate Serves(e: Env, s: State, addr: Address) {
    && e.isRoutable(addr.svc.net)
    && addr.svc.net in s.mapAddr
    && s.mapAddr[addr.svc.net] in s.mapInfo
    && s.mapInfo[s.mapAddr[addr.svc.net]].addr == addr
  }

  lemma GetAddrKeeps(e: Env, s: State, reply: seq<Address>, s': State)
    requires Inv(e, s) && GetAddrStep(e, s, reply, s')
    ensures Inv(e, s')
  {
    hide Indexed, NewTable, TriedTable, InfosOk, IdsBelow, SameButSlots, Serves, Placed;
    SlotsIndexed(s.mapInfo, s'.mapInfo, s.mapAddr);
    SlotsTables(s.mapInfo, s'.mapInfo);
    KeysBelow(s.mapInfo, s'.mapInfo, s.nIdCount);
    SameNew(s.mapInfo, s'.mapInfo, s.vvNew, None);
    SameTried(e, s.mapInfo, s'.mapInfo, s.vvTried);
    SameIds(s.mapInfo, s'.mapInfo);
  }

  // ---------------------------------------------------------------- every run

  datatype Op =
    | Add(addr: Address, source: NetAddr, penalty: int, nNow: int)
    | Good(svc: Service, nTime: int)
    | Attempt(svc: Service, nTime: int)
    | Connect(svc: Service, nTime: int)
    | GetAddr(reply: seq<Address>)
    | Reload(all: seq<nat>)

  /** The time an operation is given is one a running clock shows. */
  predicate Timely(op: Op) {
    match op
    case Good(_, nTime) => nTime > 0
    case Attempt(_, nTime) => nTime >= 0
    case _ => true
  }

  ghost predicate Next(e: Env, s: State, op: Op, s': State) {
    match op
    case Add(addr, source, penalty, nNow) =>
      AddStep(e, s, addr, source, penalty, nNow, false, s') || AddStep(e, s, addr, source, penalty, nNow, true, s')
    case Good(svc, nTime) => GoodStep(e, s, svc, nTime, s')
    case Attempt(svc, nTime) => s' == Attempted(s, svc, nTime)
    case Connect(svc, nTime) => s' == Connected(s, svc, nTime)
    case GetAddr(reply) => GetAddrStep(e, s, reply, s')
    case Reload(all) => Store.Renamed(s, s', all)
  }

  ghost predicate Run(e: Env, ops: seq<Op>, states: seq<State>) {
    && |states| == |ops| + 1
    && states[0] == EmptyState()
    && forall i | 0 <= i < |ops| :: Next(e, states[i], ops[i], states[i + 1])
  }

  lemma NextKeeps(e: Env, s: State, op: Op, s': State)
    requires Inv(e, s) && Timely(op) && Next(e, s, op, s')
    ensures Inv(e, s')
  {
    hide InvPending, AddStep, GoodStep, GetAddrStep, Store.Renamed;
    match op
    case Add(addr, source, penalty, nNow) =>
      var fNew := AddStep(e, s, addr, source, penalty, nNow, true, s');
      AddKeeps(e, s, addr, source, penalty, nNow, fNew, s');
    case Good(svc, nTime) => GoodKeeps(e, s, svc, nTime, s');
    case Attempt(svc, nTime) => AttemptKeeps(e, s, svc, nTime);
    case Connect(svc, nTime) => ConnectedKeeps(e, s, svc, nTime);
    case GetAddr(reply) => GetAddrKeeps(e, s, reply, s');
    case Reload(all) => Store.RenamedKeeps(e, s, s', all);
  }

  /** Every run from the empty manager, saving and loading included, keeps it consistent throughout. */
  lemma {:induction false} RunKeeps(e: Env, ops: seq<Op>, states: seq<State>, n: nat)
    requires Run(e, ops, states) && n < |states|
    requires forall op | op in ops :: Timely(op)
    ensures Inv(e, states[n])
  {
    hide InvPending, Next;
    if n == 0 {
      EmptyInv(e);
    } else {
      RunKeeps(e, ops, states, n - 1);
      NextKeeps(e, states[n - 1], ops[n - 1], states[n]);
    }
  }

  // ---------------------------------------------------------------- times that break it

  /** The manager after its first address. */
  function FirstEntry(e: Env, addr: Address, source: NetAddr): State {
    Put(AddRef(Created(EmptyState(), addr, source, 0), 0), e.NewBucket(addr.svc.net, source), 0)
  }

  lemma FirstEntryIs(e: Env, addr: Address, source: NetAddr, nNow: int)
    requires e.isRoutable(addr.svc.net)
    ensures var s := FirstEntry(e, addr, source);
            && AddStep(e, EmptyState(), addr, source, 0, nNow, true, s) && Inv(e, s)
            && Known(s, addr.svc) == Some(0) && !s.mapInfo[0].fInTried
            && 0 in s.vvNew[e.NewBucket(addr.svc.net, source)]
  {
    hide InvPending;
    EmptyInv(e);
    AddKeeps(e, EmptyState(), addr, source, 0, nNow, true, FirstEntry(e, addr, source));
  }

  /** Add an address, then report it good at time 0, or tried at time -1: the check fails. */
  lemma BadTimes(e: Env, addr: Address, source: NetAddr, nNow: int)
    requires e.isRoutable(addr.svc.net)
    ensures var s := FirstEntry(e, addr, source);
            && Run(e, [Add(addr, source, 0, nNow)], [EmptyState(), s])
            && !Inv(e, Attempted(s, addr.svc, -1))
            && (exists s' :: GoodStep(e, s, addr.svc, 0, s'))
            && (forall s' | GoodStep(e, s, addr.svc, 0, s') :: !Inv(e, s'))
  {
    hide InvPending, AddStep, Known, FirstEntry, GoodStep, Attempted;
    var s := FirstEntry(e, addr, source);
    FirstEntryIs(e, addr, source, nNow);
    PromotesFirst(e, addr, source);
    AttemptKeeps(e, s, addr.svc, -1);
    forall s' | GoodStep(e, s, addr.svc, 0, s') ensures !Inv(e, s') {
      GoodKeeps(e, s, addr.svc, 0, s');
    }
  }

  lemma PromotesFirst(e: Env, addr: Address, source: NetAddr)
    requires e.isRoutable(addr.svc.net)
    ensures exists s' :: GoodStep(e, FirstEntry(e, addr, source), addr.svc, 0, s')
  {
    hide InvPending, AddStep, Without;
    var s, b := FirstEntry(e, addr, source), e.NewBucket(addr.svc.net, source);
    FirstEntryIs(e, addr, source, 0);
    var t := Refreshed(s, 0, 0);
    var s' := Appended(Stripped(t, 0), e.TriedBucket(addr.svc), 0);
    assert PromotedFrom(e, t, 0, b, s');
    assert MovedToTried(e, t, 0, s');
    assert GoodStep(e, s, addr.svc, 0, s');
  }
}

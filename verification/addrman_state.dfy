/**
 The value side of the address manager (src/addrman.h, src/addrman.cpp): what an entry
 and a whole manager hold, the consistency invariant, and the state changes the methods
 of the manager make. The class `AddrMan.Manager` performs them in place; this module
 says what they are and proves what they keep.
 */
module AddrManState {
  import opened Common
  import opened FiniteSets

  // src/addrman.h:123-163
  const TRIED_BUCKET_COUNT := 64
  const TRIED_BUCKET_SIZE := 64
  const NEW_BUCKET_COUNT := 256
  const NEW_BUCKET_SIZE := 64
  const TRIED_BUCKETS_PER_GROUP := 4
  const NEW_BUCKETS_PER_SOURCE_GROUP := 32
  const NEW_BUCKETS_PER_ADDRESS := 4
  const TRIED_ENTRIES_INSPECT_ON_EVICT := 4
  const HORIZON_DAYS := 30
  const RETRIES := 3
  const MAX_FAILURES := 10
  const MIN_FAIL_DAYS := 7
  const GETADDR_MAX_PCT := 23
  const GETADDR_MAX := 2500

  type Bytes = seq<bv8>

  /** A network address without a port: the key of `mapAddr`. */
  datatype NetAddr = NetAddr(ip: Bytes)

  /** An address with a port. */
  datatype Service = Service(net: NetAddr, port: nat)

  /** A service with the bits a peer advertises and the time it was last seen. */
  datatype Address = Address(svc: Service, services: bv64, nTime: nat)

  datatype Info = Info(
    addr: Address,
    source: NetAddr,
    nLastSuccess: int,
    nLastTry: int,
    nAttempts: int,
    nRefCount: int,
    fInTried: bool,
    nRandomPos: int)
  {
    function Net(): NetAddr { addr.svc.net }

    // src/addrman.cpp:40-58
    predicate IsTerrible(nNow: int) {
      if nLastTry != 0 && nLastTry >= nNow - 60 then false
      else
        || addr.nTime > nNow + 10 * 60
        || addr.nTime == 0
        || nNow - addr.nTime > HORIZON_DAYS * 86400
        || (nLastSuccess == 0 && nAttempts >= RETRIES)
        || (nNow - nLastSuccess > MIN_FAIL_DAYS * 86400 && nAttempts >= MAX_FAILURES)
    }
  }

  /** One field of a stream that is fed to the hash function. */
  datatype Part = Raw(bytes: Bytes) | Num(n: nat)

  /** What the manager depends on and does not define: its secret key, the low 64 bits of
      the double hash of a stream, the two keys of an address, and routability. */
  datatype Env = Env(
    nKey: Bytes,
    low64: seq<Part> -> nat,
    getKey: Service -> Bytes,
    getGroup: NetAddr -> Bytes,
    isRoutable: NetAddr -> bool)
  {
    // src/addrman.cpp:12-24
    function TriedBucket(svc: Service): nat {
      var hash1 := low64([Raw(nKey), Raw(getKey(svc))]);
      low64([Raw(nKey), Raw(getGroup(svc.net)), Num(hash1 % TRIED_BUCKETS_PER_GROUP)]) % TRIED_BUCKET_COUNT
    }

    // src/addrman.cpp:26-38
    function NewBucket(net: NetAddr, src: NetAddr): nat {
      var hash1 := low64([Raw(nKey), Raw(getGroup(net)), Raw(getGroup(src))]);
      low64([Raw(nKey), Raw(getGroup(src)), Num(hash1 % NEW_BUCKETS_PER_SOURCE_GROUP)]) % NEW_BUCKET_COUNT
    }
  }

  datatype State = State(
    nIdCount: nat,
    mapInfo: map<nat, Info>,
    mapAddr: map<NetAddr, nat>,
    vRandom: seq<nat>,
    nTried: int,
    vvTried: seq<seq<nat>>,
    nNew: int,
    vvNew: seq<set<nat>>)

  function EmptyTried(): seq<seq<nat>> { seq(TRIED_BUCKET_COUNT, _ => []) }

  function EmptyNew(): seq<set<nat>> { seq(NEW_BUCKET_COUNT, _ => {}) }

  function EmptyState(): State {
    State(0, map[], map[], [], 0, EmptyTried(), 0, EmptyNew())
  }

  /** Assignment to the 32-bit unsigned `nTime` of an address. */
  function ToUint32(n: int): nat { n % 0x1_0000_0000 }

  function Max(a: int, b: int): int { if a < b then b else a }

  // ---------------------------------------------------------------- the invariant

  /** In how many new buckets an id is. */
  function Count(vv: seq<set<nat>>, id: nat): nat {
    if vv == [] then 0
    else Count(vv[..|vv| - 1], id) + if id in vv[|vv| - 1] then 1 else 0
  }

  function TriedIds(m: map<nat, Info>): set<nat> { set id | id in m && m[id].fInTried }

  function NewIds(m: map<nat, Info>): set<nat> { set id | id in m && !m[id].fInTried }

  ghost predicate IdsBelow(m: map<nat, Info>, n: nat) {
    forall id | id in m :: id < n
  }

  /** `mapAddr` is exactly the inverse of "the address of an id". */
  ghost predicate Indexed(m: map<nat, Info>, a: map<NetAddr, nat>) {
    && (forall id | id in m :: m[id].Net() in a && a[m[id].Net()] == id)
    && (forall net | net in a :: a[net] in m && m[a[net]].Net() == net)
  }

  /** `vRandom` lists every id once, and every entry knows its slot. */
  ghost predicate Placed(m: map<nat, Info>, v: seq<nat>) {
    && (forall id | id in m :: 0 <= m[id].nRandomPos < |v| && v[m[id].nRandomPos] == id)
    && (forall i | 0 <= i < |v| :: v[i] in m && m[v[i]].nRandomPos == i)
  }

  /** What `Check_` asks of one entry. */
  predicate InfoOk(info: Info) {
    && info.nLastTry >= 0
    && info.nLastSuccess >= 0
    && if info.fInTried then info.nLastSuccess != 0 && info.nRefCount == 0
       else 1 <= info.nRefCount <= NEW_BUCKETS_PER_ADDRESS
  }

  ghost predicate InfosOk(m: map<nat, Info>) {
    forall id | id in m :: InfoOk(m[id])
  }

  ghost predicate NewSizes(vv: seq<set<nat>>) {
    |vv| == NEW_BUCKET_COUNT && forall b | 0 <= b < |vv| :: |vv[b]| <= NEW_BUCKET_SIZE
  }

  ghost predicate NewMembers(m: map<nat, Info>, vv: seq<set<nat>>) {
    forall b, id | 0 <= b < |vv| && id in vv[b] :: id in m
  }

  /** Every reference count is the number of new buckets holding the id; the id `pending`,
      if any, has one reference more than that. */
  ghost predicate RefCounts(m: map<nat, Info>, vv: seq<set<nat>>, pending: Option<nat>) {
    forall id | id in m :: m[id].nRefCount == Count(vv, id) + if pending == Some(id) then 1 else 0
  }

  ghost predicate TriedSizes(vv: seq<seq<nat>>) {
    |vv| == TRIED_BUCKET_COUNT && forall k | 0 <= k < |vv| :: |vv[k]| <= TRIED_BUCKET_SIZE
  }

  /** A tried bucket holds tried entries only, each in the bucket its hash names. */
  ghost predicate TriedMembers(e: Env, m: map<nat, Info>, vv: seq<seq<nat>>) {
    forall k, i | 0 <= k < |vv| && 0 <= i < |vv[k]| ::
      vv[k][i] in m && m[vv[k][i]].fInTried && e.TriedBucket(m[vv[k][i]].addr.svc) == k
  }

  ghost predicate TriedDistinct(vv: seq<seq<nat>>) {
    forall k | 0 <= k < |vv| :: Distinct(vv[k])
  }

  /** Every tried entry is in the bucket its hash names. */
  ghost predicate TriedPresent(e: Env, m: map<nat, Info>, vv: seq<seq<nat>>)
    requires |vv| == TRIED_BUCKET_COUNT
  {
    forall id | id in m && m[id].fInTried :: id in vv[e.TriedBucket(m[id].addr.svc)]
  }

  ghost predicate TriedTable(e: Env, m: map<nat, Info>, vv: seq<seq<nat>>) {
    TriedSizes(vv) && TriedMembers(e, m, vv) && TriedDistinct(vv) && TriedPresent(e, m, vv)
  }

  ghost predicate NewTable(m: map<nat, Info>, vv: seq<set<nat>>, pending: Option<nat>) {
    NewSizes(vv) && NewMembers(m, vv) && RefCounts(m, vv, pending)
  }

  ghost predicate Indexes(s: State) {
    IdsBelow(s.mapInfo, s.nIdCount) && Indexed(s.mapInfo, s.mapAddr) && Placed(s.mapInfo, s.vRandom)
  }

  ghost predicate Counters(s: State) {
    s.nTried == |TriedIds(s.mapInfo)| && s.nNew == |NewIds(s.mapInfo)|
  }

  /** The invariant while the entry `pending` has been given a reference whose bucket does
      not hold it yet. */
  ghost predicate InvPending(e: Env, s: State, pending: Option<nat>) {
    && Indexes(s)
    && InfosOk(s.mapInfo)
    && NewTable(s.mapInfo, s.vvNew, pending)
    && TriedTable(e, s.mapInfo, s.vvTried)
    && Counters(s)
  }

  /** The consistency of a manager between two operations. */
  ghost predicate Inv(e: Env, s: State) {
    InvPending(e, s, None)
  }

}

/**
 The consistency check the authors run before and after each operation in a DEBUG_ADDRMAN
 build (src/addrman.cpp:434-490): what a zero result means, and why a manager that keeps
 the invariant never gets another one.
 */
module AddrManCheck {
  import opened Common
  import opened AddrManState
  import opened FiniteSets
  import Steps = AddrManSteps

  /** All tried buckets, one after the other. */
  function Flat(vv: seq<seq<nat>>): seq<nat> {
    if vv == [] then [] else Flat(vv[..|vv| - 1]) + vv[|vv| - 1]
  }

  /** `mapAddr[net]`, which for an absent key is the zero that the lookup inserts. */
  function Lookup(a: map<NetAddr, nat>, net: NetAddr): nat {
    if net in a then a[net] else 0
  }

  /** `a` with zeros inserted for some absent addresses. */
  ghost predicate Grown(a: map<NetAddr, nat>, a': map<NetAddr, nat>) {
    && (forall net | net in a :: net in a' && a'[net] == a[net])
    && (forall net | net in a' && net !in a :: a'[net] == 0)
  }

  lemma GrownAgrees(a: map<NetAddr, nat>, a': map<NetAddr, nat>, a'': map<NetAddr, nat>, vRandom: seq<nat>, id: nat, info: Info)
    requires Grown(a, a') && Grown(a', a'')
    ensures Grown(a, a'') && (EntryAgrees(a, vRandom, id, info) <==> EntryAgrees(a', vRandom, id, info))
  {
  }

  lemma InvKnows(e: Env, s: State)
    requires Inv(e, s)
    ensures forall id | id in s.mapInfo :: s.mapInfo[id].Net() in s.mapAddr
  {
  }

  predicate EntryAgrees(a: map<NetAddr, nat>, vRandom: seq<nat>, id: nat, info: Info) {
    && InfoOk(info)
    && Lookup(a, info.Net()) == id
    && 0 <= info.nRandomPos < |vRandom| && vRandom[info.nRandomPos] == id
  }

  /** The tried buckets together list every tried id once, and nothing else. */
  ghost predicate ListsOnce(vv: seq<seq<nat>>, tried: set<nat>) {
    Distinct(Flat(vv)) && forall id :: id in Flat(vv) <==> id in tried
  }

  /** The new buckets hold new ids only, each as often as its reference count says. */
  ghost predicate CountsAgree(vv: seq<set<nat>>, refs: map<nat, int>) {
    && (forall b, id | 0 <= b < |vv| && id in vv[b] :: id in refs)
    && (forall id | id in refs :: Count(vv, id) == refs[id])
  }

  function NewRefs(m: map<nat, Info>): map<nat, int> {
    map id | id in m && !m[id].fInTried :: m[id].nRefCount
  }

  /** Everything `Check_` looks at. */
  ghost predicate Agrees(s: State) {
    && |s.vRandom| == s.nTried + s.nNew
    && (forall id | id in s.mapInfo :: EntryAgrees(s.mapAddr, s.vRandom, id, s.mapInfo[id]))
    && Counters(s)
    && ListsOnce(s.vvTried, TriedIds(s.mapInfo))
    && CountsAgree(s.vvNew, NewRefs(s.mapInfo))
  }

  // ---------------------------------------------------------------- the loops of Check_

  /** The code `Check_` returns for one entry, 0 if it finds nothing (src/addrman.cpp:445-459). */
  method CheckEntry(a: map<NetAddr, nat>, vRandom: seq<nat>, id: nat, info: Info)
    returns (err: int, a': map<NetAddr, nat>)
    ensures err == 0 <==> EntryAgrees(a, vRandom, id, info)
    ensures Grown(a, a') && (info.Net() in a ==> a' == a)
  {
    a' := a;
    if info.fInTried {
      if info.nLastSuccess == 0 { return -1, a'; }
      if info.nRefCount != 0 { return -2, a'; }
    } else {
      if info.nRefCount < 0 || info.nRefCount > NEW_BUCKETS_PER_ADDRESS { return -3, a'; }
      if info.nRefCount == 0 { return -4, a'; }
    }
    if info.Net() !in a' { a' := a'[info.Net() := 0]; }
    if a'[info.Net()] != id { return -5, a'; }
    if info.nRandomPos < 0 || info.nRandomPos >= |vRandom| || vRandom[info.nRandomPos] != id { return -14, a'; }
    if info.nLastTry < 0 { return -6, a'; }
    if info.nLastSuccess < 0 { return -8, a'; }
    return 0, a';
  }

  predicate AllKnown(m: map<nat, Info>, a: map<NetAddr, nat>) {
    forall id | id in m :: m[id].Net() in a
  }

  lemma GrownRefl(a: map<NetAddr, nat>)
    ensures Grown(a, a)
  {
  }

  lemma GrownStep(m: map<nat, Info>, a: map<NetAddr, nat>, a0: map<NetAddr, nat>, a1: map<NetAddr, nat>, id: nat)
    requires Grown(a, a0) && Grown(a0, a1) && id in m && (m[id].Net() in a0 ==> a1 == a0)
    ensures Grown(a, a1) && (AllKnown(m, a) && a0 == a ==> a1 == a)
  {
  }

  // src/addrman.cpp:441-460
  method CheckEntries(m: map<nat, Info>, a: map<NetAddr, nat>, vRandom: seq<nat>)
    returns (err: int, setTried: set<nat>, mapNew: map<nat, int>, a': map<NetAddr, nat>)
    ensures Grown(a, a') && (AllKnown(m, a) ==> a' == a)
    ensures err == 0 <==> forall id | id in m :: EntryAgrees(a, vRandom, id, m[id])
    ensures err == 0 ==> setTried == TriedIds(m) && mapNew == NewRefs(m)
  {
    hide EntryAgrees, Sorted, Grown, AllKnown, TriedIds, NewRefs, Ascending, Ascends;
    var ids := Ascending(m.Keys);
    setTried, mapNew, a' := {}, map[], a;
    var i := 0;
    SortedNone(m, ids);
    GrownRefl(a);
    while i < |ids|
      invariant i <= |ids|
      invariant forall j | 0 <= j < i :: EntryAgrees(a, vRandom, ids[j], m[ids[j]])
      invariant Sorted(m, ids[..i], setTried, mapNew)
      invariant Grown(a, a') && (AllKnown(m, a) ==> a' == a)
    {
      var n := ids[i];
      var info := m[n];
      ghost var a0 := a';
      err, a' := CheckEntry(a', vRandom, n, info);
      GrownAgrees(a, a0, a', vRandom, n, info);
      GrownStep(m, a, a0, a', n);
      if err != 0 {
        return;
      }
      SortedNext(m, ids, i, setTried, mapNew);
      if info.fInTried {
        setTried := setTried + {n};
      } else {
        mapNew := mapNew[n := info.nRefCount];
      }
      i := i + 1;
    }
    SortedAll(m, ids, setTried, mapNew);
    forall id | id in m ensures EntryAgrees(a, vRandom, id, m[id]) {
      assert id in ids;
    }
    err := 0;
  }

  /** The entries `ids`, the tried ones in one set and the others with their counts. */
  ghost predicate Sorted(m: map<nat, Info>, ids: seq<nat>, tried: set<nat>, refs: map<nat, int>) {
    && (forall id | id in ids :: id in m)
    && (forall id :: id in tried <==> id in ids && id in m && m[id].fInTried)
    && (forall id :: id in refs <==> id in ids && id in m && !m[id].fInTried)
    && (forall id | id in refs && id in m :: refs[id] == m[id].nRefCount)
  }

  lemma SortedNone(m: map<nat, Info>, ids: seq<nat>)
    ensures Sorted(m, ids[..0], {}, map[])
  {
  }

  lemma SortedNext(m: map<nat, Info>, ids: seq<nat>, i: nat, tried: set<nat>, refs: map<nat, int>)
    requires i < |ids| && Sorted(m, ids[..i], tried, refs) && ids[i] in m
    ensures m[ids[i]].fInTried ==> Sorted(m, ids[..i + 1], tried + {ids[i]}, refs)
    ensures !m[ids[i]].fInTried ==> Sorted(m, ids[..i + 1], tried, refs[ids[i] := m[ids[i]].nRefCount])
  {
    assert ids[..i + 1] == ids[..i] + [ids[i]];
  }

  lemma SortedAll(m: map<nat, Info>, ids: seq<nat>, tried: set<nat>, refs: map<nat, int>)
    requires Sorted(m, ids[..|ids|], tried, refs) && forall id :: id in ids <==> id in m
    ensures tried == TriedIds(m) && refs == NewRefs(m)
  {
    assert ids[..|ids|] == ids;
  }

  lemma {:induction false} FlatPrefix(vv: seq<seq<nat>>, k: nat, i: nat)
    requires k < |vv| && i <= |vv[k]|
    ensures Flat(vv[..k]) + vv[k][..i] <= Flat(vv)
    decreases |vv| - k
  {
    assert vv[..k + 1][..k] == vv[..k];
    assert Flat(vv[..k + 1]) == Flat(vv[..k]) + vv[k];
    if k + 1 == |vv| {
      assert vv[..k + 1] == vv;
    } else {
      FlatPrefix(vv, k + 1, 0);
      assert Flat(vv[..k + 1]) <= Flat(vv);
    }
  }

  /** An element that repeats an earlier one, or that is not listed, spoils every extension. */
  lemma Spoiled(whole: seq<nat>, done: seq<nat>, x: nat, tried: set<nat>)
    requires done + [x] <= whole && (x in done || x !in tried)
    ensures !(Distinct(whole) && forall id :: id in whole <==> id in tried)
  {
    assert whole[|done|] == x;
    if x in done {
      var i :| 0 <= i < |done| && done[i] == x;
      assert whole[i] == x;
    }
  }

  // src/addrman.cpp:465-473 and 486
  method CheckTried(vvTried: seq<seq<nat>>, tried: set<nat>) returns (err: int)
    ensures err == 0 <==> ListsOnce(vvTried, tried)
  {
    var setTried := tried;
    var n := 0;
    while n < |vvTried|
      invariant n <= |vvTried|
      invariant Distinct(Flat(vvTried[..n]))
      invariant forall id :: id in setTried <==> id in tried && id !in Flat(vvTried[..n])
      invariant forall id | id in Flat(vvTried[..n]) :: id in tried
    {
      var vTried := vvTried[n];
      ghost var start := Flat(vvTried[..n]);
      var i := 0;
      while i < |vTried|
        invariant i <= |vTried|
        invariant Distinct(start + vTried[..i])
        invariant forall id :: id in setTried <==> id in tried && id !in start + vTried[..i]
        invariant forall id | id in start + vTried[..i] :: id in tried
      {
        assert start + vTried[..i + 1] == start + vTried[..i] + [vTried[i]];
        if vTried[i] !in setTried {
          FlatPrefix(vvTried, n, i + 1);
          Spoiled(Flat(vvTried), start + vTried[..i], vTried[i], tried);
          return -11;
        }
        setTried := setTried - {vTried[i]};
        i := i + 1;
      }
      assert vTried[..i] == vTried;
      assert vvTried[..n + 1][..n] == vvTried[..n];
      n := n + 1;
    }
    assert vvTried[..n] == vvTried;
    if setTried != {} {
      ghost var id :| id in setTried;
      return -13;
    }
    return 0;
  }

  /** Occurrences in the buckets below `b` and among the first `i` of bucket `b`. */
  ghost function CountTo(vv: seq<set<nat>>, b: nat, done: set<nat>, id: nat): nat
    requires b <= |vv|
  {
    Count(vv[..b], id) + if id in done then 1 else 0
  }

  lemma {:induction false} CountMonotone(vv: seq<set<nat>>, b: nat, id: nat)
    requires b <= |vv|
    ensures Count(vv[..b], id) <= Count(vv, id)
    decreases |vv| - b
  {
    if b == |vv| {
      assert vv[..b] == vv;
    } else {
      assert vv[..b + 1][..b] == vv[..b];
      CountMonotone(vv, b + 1, id);
    }
  }

  lemma CountNext(vv: seq<set<nat>>, b: nat, id: nat)
    requires b < |vv|
    ensures Count(vv[..b + 1], id) == Count(vv[..b], id) + if id in vv[b] then 1 else 0
  {
    assert vv[..b + 1][..b] == vv[..b];
  }

  /** What is left of the counts after some occurrences: the ids with references to spare. */
  ghost predicate Remaining(refs: map<nat, int>, mapNew: map<nat, int>, vv: seq<set<nat>>, b: nat, done: set<nat>)
    requires b <= |vv|
  {
    && (forall id :: id in mapNew <==> id in refs && CountTo(vv, b, done, id) < refs[id])
    && (forall id | id in mapNew :: mapNew[id] == refs[id] - CountTo(vv, b, done, id))
    && (forall id | id in refs :: CountTo(vv, b, done, id) <= refs[id])
  }

  lemma RemainingNext(refs: map<nat, int>, mapNew: map<nat, int>, vv: seq<set<nat>>, b: nat)
    requires b < |vv| && Remaining(refs, mapNew, vv, b, vv[b])
    ensures Remaining(refs, mapNew, vv, b + 1, {})
  {
    forall id ensures CountTo(vv, b + 1, {}, id) == CountTo(vv, b, vv[b], id) {
      CountNext(vv, b, id);
    }
  }

  /** Taking one occurrence from the counts (src/addrman.cpp:481-482). */
  lemma RemainingTake(refs: map<nat, int>, mapNew: map<nat, int>, vv: seq<set<nat>>, b: nat, done: set<nat>, x: nat)
    requires b < |vv| && Remaining(refs, mapNew, vv, b, done) && x in mapNew && x !in done
    ensures Remaining(refs,
              if mapNew[x] - 1 == 0 then mapNew - {x} else mapNew[x := mapNew[x] - 1],
              vv, b, done + {x})
  {
    forall id ensures CountTo(vv, b, done + {x}, id) == CountTo(vv, b, done, id) + if id == x then 1 else 0 {
    }
    hide CountTo;
  }

  /** An occurrence without a reference left means the counts disagree. */
  lemma NoneLeft(refs: map<nat, int>, mapNew: map<nat, int>, vv: seq<set<nat>>, b: nat, done: set<nat>, x: nat)
    requires b < |vv| && Remaining(refs, mapNew, vv, b, done) && x !in mapNew && x in vv[b] && x !in done
    ensures !CountsAgree(vv, refs)
  {
    if x in refs {
      CountNext(vv, b, x);
      CountMonotone(vv, b + 1, x);
    }
  }

  // src/addrman.cpp:475-484 and 487
  method CheckNew(vvNew: seq<set<nat>>, refs: map<nat, int>) returns (err: int)
    requires forall id | id in refs :: refs[id] > 0
    ensures err == 0 <==> CountsAgree(vvNew, refs)
  {
    hide Remaining, CountsAgree, Count, CountTo;
    var mapNew := refs;
    RemainingAll(refs, vvNew);
    var n := 0;
    while n < |vvNew|
      invariant n <= |vvNew|
      invariant Remaining(refs, mapNew, vvNew, n, {})
      invariant forall b, id | 0 <= b < n && id in vvNew[b] :: id in refs
    {
      var vNew := Ascending(vvNew[n]);
      var i := 0;
      assert Elements(vNew[..0]) == {};
      while i < |vNew|
        invariant i <= |vNew|
        invariant Remaining(refs, mapNew, vvNew, n, Elements(vNew[..i]))
        invariant forall id | id in vNew[..i] :: id in refs
      {
        ElementsNext(vNew, i);
        if vNew[i] !in mapNew {
          NoneLeft(refs, mapNew, vvNew, n, Elements(vNew[..i]), vNew[i]);
          return -12;
        }
        RemainingTake(refs, mapNew, vvNew, n, Elements(vNew[..i]), vNew[i]);
        RemainingKeys(refs, mapNew, vvNew, n, Elements(vNew[..i]), vNew[i]);
        mapNew := mapNew[vNew[i] := mapNew[vNew[i]] - 1];
        if mapNew[vNew[i]] == 0 {
          mapNew := mapNew - {vNew[i]};
        }
        i := i + 1;
      }
      assert Elements(vNew[..i]) == vvNew[n];
      RemainingNext(refs, mapNew, vvNew, n);
      n := n + 1;
    }
    RemainingNone(refs, mapNew, vvNew);
    if mapNew != map[] { return -15; }
    return 0;
  }

  lemma ElementsNext(s: seq<nat>, i: nat)
    requires i < |s| && Ascends(s)
    ensures Elements(s[..i + 1]) == Elements(s[..i]) + {s[i]} && s[i] !in Elements(s[..i])
    ensures s[..i + 1] == s[..i] + [s[i]]
  {
  }

  lemma RemainingAll(refs: map<nat, int>, vv: seq<set<nat>>)
    requires forall id | id in refs :: refs[id] > 0
    ensures Remaining(refs, refs, vv, 0, {})
  {
  }

  lemma RemainingKeys(refs: map<nat, int>, mapNew: map<nat, int>, vv: seq<set<nat>>, b: nat, done: set<nat>, x: nat)
    requires b < |vv| && Remaining(refs, mapNew, vv, b, done) && x in mapNew
    ensures x in refs
    ensures mapNew[x := mapNew[x] - 1] - {x} == mapNew - {x}
  {
  }

  lemma RemainingNone(refs: map<nat, int>, mapNew: map<nat, int>, vv: seq<set<nat>>)
    requires Remaining(refs, mapNew, vv, |vv|, {})
    requires forall b, id | 0 <= b < |vv| && id in vv[b] :: id in refs
    ensures mapNew == map[] <==> CountsAgree(vv, refs)
  {
    assert vv[..|vv|] == vv;
    if mapNew != map[] {
      var id :| id in mapNew;
      assert Count(vv, id) < refs[id];
    }
    if mapNew == map[] {
      forall id | id in refs ensures Count(vv, id) == refs[id] {
        assert id !in mapNew;
      }
    }
  }

  // ---------------------------------------------------------------- what the invariant gives

  lemma {:induction false} FlatDistinct(e: Env, m: map<nat, Info>, vv: seq<seq<nat>>)
    requires TriedMembers(e, m, vv) && TriedDistinct(vv)
    ensures Distinct(Flat(vv))
    ensures forall id | id in Flat(vv) :: id in m && m[id].fInTried && e.TriedBucket(m[id].addr.svc) < |vv|
  {
    if vv != [] {
      var n := |vv| - 1;
      assert TriedMembers(e, m, vv[..n]);
      FlatDistinct(e, m, vv[..n]);
      assert Distinct(vv[n]);
    }
  }

  lemma {:induction false} FlatHas(vv: seq<seq<nat>>, k: nat, id: nat)
    requires k < |vv| && id in vv[k]
    ensures id in Flat(vv)
  {
    if k < |vv| - 1 {
      FlatHas(vv[..|vv| - 1], k, id);
    }
  }

  lemma InvListsOnce(e: Env, m: map<nat, Info>, vv: seq<seq<nat>>)
    requires TriedTable(e, m, vv)
    ensures ListsOnce(vv, TriedIds(m))
  {
    FlatDistinct(e, m, vv);
    forall id | id in m && m[id].fInTried ensures id in Flat(vv) {
      FlatHas(vv, e.TriedBucket(m[id].addr.svc), id);
    }
  }

  lemma InvCountsAgree(m: map<nat, Info>, vv: seq<set<nat>>)
    requires NewTable(m, vv, None) && InfosOk(m)
    ensures CountsAgree(vv, NewRefs(m))
  {
    forall b, id | 0 <= b < |vv| && id in vv[b] ensures id in NewRefs(m) {
      assert id in m;
      Steps.CountPositive(vv, id);
      assert InfoOk(m[id]);
    }
  }

  lemma InvEntries(s: State)
    requires Indexed(s.mapInfo, s.mapAddr) && Placed(s.mapInfo, s.vRandom) && InfosOk(s.mapInfo)
    ensures forall id | id in s.mapInfo :: EntryAgrees(s.mapAddr, s.vRandom, id, s.mapInfo[id])
  {
  }

  lemma PlacedLength(m: map<nat, Info>, v: seq<nat>)
    requires Placed(m, v)
    ensures |v| == |m.Keys| && Distinct(v)
  {
    forall id ensures id in v <==> id in m.Keys {
      if id in m { assert v[m[id].nRandomPos] == id; }
    }
    assert Distinct(v);
    DistinctLength(v, m.Keys);
  }

  lemma SplitIds(m: map<nat, Info>)
    ensures |m.Keys| == |TriedIds(m)| + |NewIds(m)|
  {
    assert m.Keys == TriedIds(m) + NewIds(m);
    assert TriedIds(m) !! NewIds(m);
  }

  /** A consistent manager passes the check. */
  lemma InvAgrees(e: Env, s: State)
    requires Inv(e, s)
    ensures Agrees(s)
  {
    hide Indexed, Placed, NewTable, TriedTable, InfosOk, ListsOnce, CountsAgree, TriedIds, NewIds, NewRefs, EntryAgrees;
    PlacedLength(s.mapInfo, s.vRandom);
    SplitIds(s.mapInfo);
    InvEntries(s);
    InvListsOnce(e, s.mapInfo, s.vvTried);
    InvCountsAgree(s.mapInfo, s.vvNew);
  }
}

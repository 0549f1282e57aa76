/** What a getaddr reply holds (src/addrman.cpp:493-516). */
module AddrManReply {
  import opened FiniteSets
  import opened AddrManState
  import Steps = AddrManSteps
  import Spec = AddrManSpec

  /** The addresses of the routable ones among `ids`, in order. */
  function Routable(e: Env, m: map<nat, Info>, ids: seq<nat>): seq<Address>
    requires forall id | id in ids :: id in m
  {
    if ids == [] then []
    else
      var n := |ids| - 1;
      Routable(e, m, ids[..n]) + if e.isRoutable(m[ids[n]].Net()) then [m[ids[n]].addr] else []
  }

  function RoutableOf(e: Env, m: map<nat, Info>, ids: seq<nat>): set<nat>
    requires forall id | id in ids :: id in m
  {
    set id | id in ids && e.isRoutable(m[id].Net())
  }

  lemma {:induction false} RoutableCount(e: Env, m: map<nat, Info>, ids: seq<nat>)
    requires Distinct(ids) && forall id | id in ids :: id in m
    ensures |Routable(e, m, ids)| == |RoutableOf(e, m, ids)|
  {
    if ids != [] {
      var n := |ids| - 1;
      var front := ids[..n];
      assert ids == front + [ids[n]];
      RoutableCount(e, m, front);
      assert ids[n] !in front;
      if e.isRoutable(m[ids[n]].Net()) {
        assert RoutableOf(e, m, ids) == RoutableOf(e, m, front) + {ids[n]};
      } else {
        assert RoutableOf(e, m, ids) == RoutableOf(e, m, front);
      }
    }
  }

  lemma ServesEntry(e: Env, s: State, id: nat)
    requires Indexed(s.mapInfo, s.mapAddr) && id in s.mapInfo && e.isRoutable(s.mapInfo[id].Net())
    ensures Spec.Serves(e, s, s.mapInfo[id].addr) && s.mapAddr[s.mapInfo[id].Net()] == id
  {
  }

  /** Every served address belongs to one of the ids, and different ones to different ids. */
  ghost predicate AllServed(e: Env, s: State, ids: seq<nat>, reply: seq<Address>) {
    && (forall i | 0 <= i < |reply| :: Spec.Serves(e, s, reply[i]) && s.mapAddr[reply[i].svc.net] in ids)
    && (forall i, j | 0 <= i < j < |reply| :: reply[i].svc.net != reply[j].svc.net)
  }

  lemma {:induction false} RoutableServed(e: Env, s: State, ids: seq<nat>)
    requires Indexed(s.mapInfo, s.mapAddr) && Distinct(ids) && forall id | id in ids :: id in s.mapInfo
    ensures AllServed(e, s, ids, Routable(e, s.mapInfo, ids))
  {
    if ids != [] {
      var n := |ids| - 1;
      var front, id := ids[..n], ids[n];
      assert ids == front + [id];
      RoutableServed(e, s, front);
      assert id !in front;
      if e.isRoutable(s.mapInfo[id].Net()) {
        ServesEntry(e, s, id);
      }
      hide Indexed;
    }
  }

  lemma RoutableBound(e: Env, m: map<nat, Info>, v: seq<nat>, n: nat)
    requires Placed(m, v) && n <= |v|
    ensures forall id | id in v[..n] :: id in m
    ensures Distinct(v[..n])
    ensures |RoutableOf(e, m, v[..n])| <= |Spec.RoutableIds(e, m)|
    ensures n == |v| ==> RoutableOf(e, m, v[..n]) == Spec.RoutableIds(e, m)
  {
    SubsetSize(RoutableOf(e, m, v[..n]), Spec.RoutableIds(e, m));
    if n == |v| {
      assert v[..n] == v;
      forall id | id in m ensures id in v {
        assert v[m[id].nRandomPos] == id;
      }
    }
  }

  /** The reply is complete when it has the wanted size or the whole pool was looked at. */
  lemma ReplyIsRight(e: Env, s: State, s': State, n: nat)
    requires Inv(e, s) && s' == s.(mapInfo := s'.mapInfo, vRandom := s'.vRandom)
    requires Steps.SameButSlots(s.mapInfo, s'.mapInfo) && Placed(s'.mapInfo, s'.vRandom)
    requires multiset(s'.vRandom) == multiset(s.vRandom) && n <= |s'.vRandom| == |s.vRandom|
    requires forall id | id in s'.vRandom[..n] :: id in s'.mapInfo
    requires var reply := Routable(e, s'.mapInfo, s'.vRandom[..n]);
             && |reply| <= Spec.ReplySize(|s.vRandom|)
             && (n == |s.vRandom| || |reply| == Spec.ReplySize(|s.vRandom|))
    ensures Spec.GetAddrStep(e, s, Routable(e, s'.mapInfo, s'.vRandom[..n]), s')
  {
    InvIndexed(e, s);
    hide InvPending, Placed, Indexed, Routable, RoutableOf, Spec.RoutableIds, Spec.Serves, Steps.SameButSlots;
    var ids := s'.vRandom[..n];
    var reply := Routable(e, s'.mapInfo, ids);
    Steps.SlotsIndexed(s.mapInfo, s'.mapInfo, s.mapAddr);
    RoutableBound(e, s'.mapInfo, s'.vRandom, n);
    ReplyServes(e, s, s', ids);
    ReplyFull(e, s, s', n);
    hide Distinct, Spec.ReplySize;
  }

  lemma ReplyServes(e: Env, s: State, s': State, ids: seq<nat>)
    requires Indexed(s'.mapInfo, s'.mapAddr) && s'.mapAddr == s.mapAddr && Steps.SameButSlots(s.mapInfo, s'.mapInfo)
    requires Distinct(ids) && forall id | id in ids :: id in s'.mapInfo
    ensures var reply := Routable(e, s'.mapInfo, ids);
            && (forall i | 0 <= i < |reply| :: Spec.Serves(e, s, reply[i]))
            && (forall i, j | 0 <= i < j < |reply| :: reply[i].svc.net != reply[j].svc.net)
  {
    hide Indexed, Routable, RoutableOf, Spec.Serves, Steps.SameButSlots;
    var reply := Routable(e, s'.mapInfo, ids);
    RoutableServed(e, s', ids);
    forall i | 0 <= i < |reply| ensures Spec.Serves(e, s, reply[i]) {
      SameServes(e, s, s', reply[i]);
    }
  }

  lemma ReplyFull(e: Env, s: State, s': State, n: nat)
    requires Steps.SameButSlots(s.mapInfo, s'.mapInfo) && Placed(s'.mapInfo, s'.vRandom) && n <= |s'.vRandom|
    requires forall id | id in s'.vRandom[..n] :: id in s'.mapInfo
    ensures var k, all := |Routable(e, s'.mapInfo, s'.vRandom[..n])|, |Spec.RoutableIds(e, s.mapInfo)|;
            k <= all && (n == |s'.vRandom| ==> k == all)
  {
    hide Placed, Routable, RoutableOf, Spec.RoutableIds, Steps.SameButSlots;
    RoutableBound(e, s'.mapInfo, s'.vRandom, n);
    RoutableCount(e, s'.mapInfo, s'.vRandom[..n]);
    SameRoutable(e, s, s');
  }

  lemma InvIndexed(e: Env, s: State)
    requires Inv(e, s)
    ensures Indexed(s.mapInfo, s.mapAddr)
  {
  }

  lemma SameRoutable(e: Env, s: State, s': State)
    requires Steps.SameButSlots(s.mapInfo, s'.mapInfo)
    ensures Spec.RoutableIds(e, s'.mapInfo) == Spec.RoutableIds(e, s.mapInfo)
  {
  }

  lemma SameServes(e: Env, s: State, s': State, addr: Address)
    requires Steps.SameButSlots(s.mapInfo, s'.mapInfo) && s'.mapAddr == s.mapAddr && Spec.Serves(e, s', addr)
    ensures Spec.Serves(e, s, addr)
  {
  }

  lemma RoutableNext(e: Env, m: map<nat, Info>, v: seq<nat>, n: nat)
    requires n < |v| && forall id | id in v :: id in m
    ensures Routable(e, m, v[..n + 1]) ==
            Routable(e, m, v[..n]) + if e.isRoutable(m[v[n]].Net()) then [m[v[n]].addr] else []
  {
    assert v[..n + 1][..n] == v[..n];
  }

  lemma {:induction false} RoutableSame(e: Env, m: map<nat, Info>, m': map<nat, Info>, ids: seq<nat>)
    requires forall id | id in ids :: id in m && id in m' && m[id].addr == m'[id].addr
    ensures Routable(e, m, ids) == Routable(e, m', ids)
  {
    if ids != [] { RoutableSame(e, m, m', ids[..|ids| - 1]); }
  }
}

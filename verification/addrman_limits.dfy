/** How far the addresses of one group can spread (src/addrman.h:102-119). */
module AddrManLimits {
  import opened FiniteSets
  import opened AddrManState

  lemma {:induction false} ImageSize<T>(n: nat, f: nat -> T, s: set<T>)
    requires forall x | x in s :: exists i: nat :: i < n && f(i) == x
    ensures |s| <= n
  {
    if n == 0 {
      assert s == {};
    } else {
      var rest := s - {f(n - 1)};
      forall x | x in rest ensures exists i: nat :: i < n - 1 && f(i) == x {
        var i: nat :| i < n && f(i) == x;
        assert i < n - 1 && f(i) == x;
      }
      ImageSize(n - 1, f, rest);
      assert s <= rest + {f(n - 1)};
    }
  }

  /** The tried bucket that the first hash of a service of group `g` picks. */
  function GroupBucket(e: Env, g: Bytes, i: nat): nat {
    e.low64([Raw(e.nKey), Raw(g), Num(i)]) % TRIED_BUCKET_COUNT
  }

  /** Services of one group use at most four tried buckets. */
  lemma GroupTriedBuckets(e: Env, g: Bytes, svcs: set<Service>)
    requires forall svc | svc in svcs :: e.getGroup(svc.net) == g
    ensures |set svc | svc in svcs :: e.TriedBucket(svc)| <= TRIED_BUCKETS_PER_GROUP
  {
    var buckets := set svc | svc in svcs :: e.TriedBucket(svc);
    var f := (i: nat) => GroupBucket(e, g, i);
    forall k | k in buckets ensures exists i: nat :: i < 4 && f(i) == k {
      var svc :| svc in svcs && e.TriedBucket(svc) == k;
      var i := e.low64([Raw(e.nKey), Raw(e.getKey(svc))]) % TRIED_BUCKETS_PER_GROUP;
      assert f(i) == k;
    }
    ImageSize(4, f, buckets);
  }

  /** Whatever the addresses, the sources of one group lead to at most 32 new buckets. */
  lemma SourceNewBuckets(e: Env, g: Bytes, pairs: set<(NetAddr, NetAddr)>)
    requires forall p | p in pairs :: e.getGroup(p.1) == g
    ensures |set p | p in pairs :: e.NewBucket(p.0, p.1)| <= NEW_BUCKETS_PER_SOURCE_GROUP
  {
    var f := (i: nat) => e.low64([Raw(e.nKey), Raw(g), Num(i)]) % NEW_BUCKET_COUNT;
    var buckets := set p | p in pairs :: e.NewBucket(p.0, p.1);
    forall k | k in buckets ensures exists i: nat :: i < 32 && f(i) == k {
      var p :| p in pairs && e.NewBucket(p.0, p.1) == k;
      var i := e.low64([Raw(e.nKey), Raw(e.getGroup(p.0)), Raw(e.getGroup(p.1))]) % NEW_BUCKETS_PER_SOURCE_GROUP;
      assert f(i) == k;
    }
    ImageSize(32, f, buckets);
  }

  ghost function TriedOfGroup(e: Env, m: map<nat, Info>, g: Bytes): set<nat> {
    set id | id in m && m[id].fInTried && e.getGroup(m[id].Net()) == g
  }

  lemma {:induction false} ElementsSize(s: seq<nat>)
    ensures |Elements(s)| <= |s|
  {
    if s != [] {
      ElementsSize(s[..|s| - 1]);
      assert Elements(s) == Elements(s[..|s| - 1]) + {s[|s| - 1]};
    }
  }

  /** No group holds more than a sixteenth of the tried table: four of its 64 buckets. */
  lemma GroupTriedEntries(e: Env, s: State, g: Bytes)
    requires Inv(e, s)
    ensures |TriedOfGroup(e, s.mapInfo, g)| <= TRIED_BUCKETS_PER_GROUP * TRIED_BUCKET_SIZE
  {
    GroupInBuckets(e, s.mapInfo, s.vvTried, g);
    FourBuckets(s.vvTried, GroupBucket(e, g, 0), GroupBucket(e, g, 1), GroupBucket(e, g, 2), GroupBucket(e, g, 3));
    SubsetSize(TriedOfGroup(e, s.mapInfo, g),
      Elements(s.vvTried[GroupBucket(e, g, 0)]) + Elements(s.vvTried[GroupBucket(e, g, 1)]) +
      Elements(s.vvTried[GroupBucket(e, g, 2)]) + Elements(s.vvTried[GroupBucket(e, g, 3)]));
  }

  lemma FourBuckets(vv: seq<seq<nat>>, a: nat, b: nat, c: nat, d: nat)
    requires TriedSizes(vv) && a < |vv| && b < |vv| && c < |vv| && d < |vv|
    ensures |Elements(vv[a]) + Elements(vv[b]) + Elements(vv[c]) + Elements(vv[d])| <= 4 * TRIED_BUCKET_SIZE
  {
    ElementsSize(vv[a]);
    ElementsSize(vv[b]);
    ElementsSize(vv[c]);
    ElementsSize(vv[d]);
  }

  lemma GroupInBuckets(e: Env, m: map<nat, Info>, vv: seq<seq<nat>>, g: Bytes)
    requires TriedTable(e, m, vv)
    ensures TriedOfGroup(e, m, g) <=
            Elements(vv[GroupBucket(e, g, 0)]) + Elements(vv[GroupBucket(e, g, 1)]) +
            Elements(vv[GroupBucket(e, g, 2)]) + Elements(vv[GroupBucket(e, g, 3)])
  {
    forall id | id in TriedOfGroup(e, m, g)
      ensures exists i: nat :: i < 4 && id in Elements(vv[GroupBucket(e, g, i)])
    {
      var svc := m[id].addr.svc;
      var i := e.low64([Raw(e.nKey), Raw(e.getKey(svc))]) % TRIED_BUCKETS_PER_GROUP;
      assert e.TriedBucket(svc) == GroupBucket(e, g, i);
      assert id in Elements(vv[GroupBucket(e, g, i)]);
    }
  }

  // ---------------------------------------------------------------- what the buckets depend on

  /** The two streams that are hashed for a tried bucket: the secret key with the key of the address,
      and the secret key with its group and a number below 4. */
  predicate TriedStream(e: Env, svc: Service, parts: seq<Part>) {
    || parts == [Raw(e.nKey), Raw(e.getKey(svc))]
    || (|parts| == 3 && parts[..2] == [Raw(e.nKey), Raw(e.getGroup(svc.net))] && parts[2].Num? && parts[2].n < 4)
  }

  /** The same for a new bucket: the secret key with both groups, and the secret key with the group
      of the source and a number below 32. */
  predicate NewStream(e: Env, net: NetAddr, src: NetAddr, parts: seq<Part>) {
    || parts == [Raw(e.nKey), Raw(e.getGroup(net)), Raw(e.getGroup(src))]
    || (|parts| == 3 && parts[..2] == [Raw(e.nKey), Raw(e.getGroup(src))] && parts[2].Num? && parts[2].n < 32)
  }

  /** Nothing else decides about the tried bucket of an address. */
  lemma TriedBucketAsks(e: Env, svc: Service, low64: seq<Part> -> nat)
    requires forall parts | TriedStream(e, svc, parts) :: low64(parts) == e.low64(parts)
    ensures e.(low64 := low64).TriedBucket(svc) == e.TriedBucket(svc)
  {
    var first: seq<Part> := [Raw(e.nKey), Raw(e.getKey(svc))];
    assert TriedStream(e, svc, first);
    var second: seq<Part> := [Raw(e.nKey), Raw(e.getGroup(svc.net)), Num(e.low64(first) % 4)];
    assert second[..2] == [Raw(e.nKey), Raw(e.getGroup(svc.net))];
    assert TriedStream(e, svc, second);
  }

  /** Nothing else decides about the new bucket of an address and a source. */
  lemma NewBucketAsks(e: Env, net: NetAddr, src: NetAddr, low64: seq<Part> -> nat)
    requires forall parts | NewStream(e, net, src, parts) :: low64(parts) == e.low64(parts)
    ensures e.(low64 := low64).NewBucket(net, src) == e.NewBucket(net, src)
  {
    var first: seq<Part> := [Raw(e.nKey), Raw(e.getGroup(net)), Raw(e.getGroup(src))];
    assert NewStream(e, net, src, first);
    var second: seq<Part> := [Raw(e.nKey), Raw(e.getGroup(src)), Num(e.low64(first) % 32)];
    assert second[..2] == [Raw(e.nKey), Raw(e.getGroup(src))];
    assert NewStream(e, net, src, second);
  }

  /** The number of the second stream is what the first hashes to, and the bucket what the second
      does: with a hash that gives the number back, the buckets follow it. */
  lemma BucketsFollow(e: Env, svc: Service, src: NetAddr, n: nat)
    ensures var echo := e.(low64 := (parts: seq<Part>) => if |parts| == 3 && parts[2].Num? then parts[2].n else n);
            echo.TriedBucket(svc) == n % 4 && echo.NewBucket(svc.net, src) == n % 32
  {
  }
}

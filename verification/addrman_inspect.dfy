/**
 Which entry a full tried bucket gives up (src/addrman.cpp:128-150): the draws shuffle some
 entries to the front and look for the oldest of them, but the position kept is the one an
 entry was drawn from.
 */
module AddrManInspect {
  import opened Common
  import opened FiniteSets
  import opened AddrManState
  import opened AddrManPromote

  /** After some draws: the bucket, the entry found oldest and its slot, the position kept. */
  datatype Look = Look(bucket: seq<nat>, oldest: Option<nat>, slot: nat, pos: nat)

  /** Draw `i` is a position from `i` on. */
  predicate Draws(draws: seq<nat>, size: nat) {
    |draws| <= size && forall i | 0 <= i < |draws| :: i <= draws[i] < size
  }

  ghost predicate Present(m: map<nat, Info>, v: seq<nat>) {
    forall x | x in v :: x in m
  }

  function Swapped(v: seq<nat>, i: nat, nPos: nat): (w: seq<nat>)
    requires i < |v| && nPos < |v|
    ensures |w| == |v| && w[i] == v[nPos] && w[nPos] == v[i]
    ensures forall j | 0 <= j < |v| && j != i && j != nPos :: w[j] == v[j]
  {
    var w: seq<nat> := v[nPos := v[i]];
    w[i := v[nPos]]
  }

  function Start(v: seq<nat>): Look { Look(v, None, 0, 0) }

  /** One draw: the swap, then the comparison. */
  function Step(m: map<nat, Info>, l: Look, i: nat, nPos: nat): Look
    requires i < |l.bucket| && nPos < |l.bucket| && l.bucket[nPos] in m && (l.oldest.Some? ==> l.oldest.value in m)
  {
    var x := l.bucket[nPos];
    if l.oldest.None? || m[x].nLastSuccess < m[l.oldest.value].nLastSuccess
    then Look(Swapped(l.bucket, i, nPos), Some(x), i, nPos)
    else l.(bucket := Swapped(l.bucket, i, nPos))
  }

  ghost predicate Sound(m: map<nat, Info>, v: seq<nat>, n: nat, l: Look) {
    && |l.bucket| == |v| && multiset(l.bucket) == multiset(v) && Present(m, l.bucket)
    && n <= |v| && (l.oldest.Some? <==> n > 0)
    && (n > 0 ==> l.slot < n && l.slot <= l.pos < |v| && l.bucket[l.slot] == l.oldest.value)
  }

  lemma SwapMultiset(v: seq<nat>, i: nat, j: nat)
    requires i < |v| && j < |v|
    ensures multiset(Swapped(v, i, j)) == multiset(v)
  {
    var w: seq<nat> := v[j := v[i]];
    assert multiset(w) == multiset(v) - multiset{v[j]} + multiset{v[i]};
    assert multiset(w[i := v[j]]) == multiset(w) - multiset{w[i]} + multiset{v[j]};
  }

  lemma SamePresent(m: map<nat, Info>, v: seq<nat>, w: seq<nat>)
    requires multiset(v) == multiset(w) && Present(m, v)
    ensures Present(m, w)
  {
    forall x | x in w ensures x in m {
      assert x in multiset(v);
    }
  }

  lemma StepSound(m: map<nat, Info>, v: seq<nat>, n: nat, l: Look, nPos: nat)
    requires Sound(m, v, n, l) && n <= nPos < |v|
    ensures |l.bucket| == |v| && l.bucket[nPos] in m && (l.oldest.Some? ==> l.oldest.value in m)
    ensures Sound(m, v, n + 1, Step(m, l, n, nPos))
  {
    SwapMultiset(l.bucket, n, nPos);
    SamePresent(m, l.bucket, Swapped(l.bucket, n, nPos));
  }

  function Inspect(m: map<nat, Info>, v: seq<nat>, draws: seq<nat>): (l: Look)
    requires Draws(draws, |v|) && Present(m, v)
    ensures Sound(m, v, |draws|, l)
  {
    if draws == [] then Start(v)
    else
      var n := |draws| - 1;
      var l := Inspect(m, v, draws[..n]);
      StepSound(m, v, n, l, draws[n]);
      Step(m, l, n, draws[n])
  }

  lemma NoDraws(m: map<nat, Info>, v: seq<nat>)
    requires Present(m, v)
    ensures Inspect(m, v, []) == Start(v)
  {
  }

  lemma LookBounds(m: map<nat, Info>, v: seq<nat>, draws: seq<nat>)
    requires Draws(draws, |v|) && Present(m, v)
    ensures var l := Inspect(m, v, draws);
            && |l.bucket| == |v| && multiset(l.bucket) == multiset(v)
            && (draws != [] ==> l.pos < |v| && l.bucket[l.pos] in m && l.oldest.Some?)
            && (draws != [] ==> l.slot < |draws| && l.slot <= l.pos && l.bucket[l.slot] == l.oldest.value)
  {
  }

  /** The assignments of one turn of the loop (src/addrman.cpp:138-146). */
  lemma StepIs(m: map<nat, Info>, l: Look, i: nat, nPos: nat)
    requires i < |l.bucket| && nPos < |l.bucket| && l.bucket[nPos] in m && (l.oldest.Some? ==> l.oldest.value in m)
    ensures var w: seq<nat> := l.bucket[nPos := l.bucket[i]];
            var x := l.bucket[nPos];
            Step(m, l, i, nPos)
            == (if l.oldest.None? || m[x].nLastSuccess < m[l.oldest.value].nLastSuccess
                then Look(w[i := x], Some(x), i, nPos) else l.(bucket := w[i := x]))
  {
  }

  /** Of the first `n` entries the one found oldest is the first of least success time. */
  ghost predicate FoundOldest(m: map<nat, Info>, n: nat, l: Look)
    requires Present(m, l.bucket) && n <= |l.bucket| && (n > 0 ==> l.oldest.Some? && l.oldest.value in m)
  {
    && (forall j | 0 <= j < n :: m[l.oldest.value].nLastSuccess <= m[l.bucket[j]].nLastSuccess)
    && (forall j | 0 <= j < n && j < l.slot :: m[l.oldest.value].nLastSuccess < m[l.bucket[j]].nLastSuccess)
  }

  lemma SoundOldest(m: map<nat, Info>, v: seq<nat>, n: nat, l: Look)
    requires Sound(m, v, n, l) && n > 0
    ensures l.oldest.value in m
  {
    assert l.bucket[l.slot] in l.bucket;
  }

  lemma StepFinds(m: map<nat, Info>, v: seq<nat>, n: nat, l: Look, nPos: nat)
    requires Sound(m, v, n, l) && n <= nPos < |v|
    requires (n > 0 ==> l.oldest.value in m) && FoundOldest(m, n, l)
    ensures l.bucket[nPos] in m
    ensures var r := Step(m, l, n, nPos);
            && Sound(m, v, n + 1, r) && r.oldest.value in m && FoundOldest(m, n + 1, r)
            && r.pos == (if r.slot == n then nPos else l.pos) && (r.slot == n || (n > 0 && r.slot == l.slot))
  {
    StepSound(m, v, n, l, nPos);
    var r := Step(m, l, n, nPos);
    SoundOldest(m, v, n + 1, r);
    forall j | 0 <= j < n ensures r.bucket[j] == l.bucket[j] && r.bucket[j] in m {
      assert r.bucket[j] in r.bucket;
    }
  }

  /** After the draws the front of the bucket holds the inspected entries; the one found oldest
      is the first among them of least success time, and the position kept is its draw. */
  lemma {:induction false} OldestOfInspected(m: map<nat, Info>, v: seq<nat>, draws: seq<nat>)
    requires Draws(draws, |v|) && Present(m, v)
    ensures var l := Inspect(m, v, draws);
            && (draws != [] ==> l.oldest.value in m && l.pos == draws[l.slot])
            && FoundOldest(m, |draws|, l)
  {
    if draws != [] {
      var n := |draws| - 1;
      OldestOfInspected(m, v, draws[..n]);
      StepFinds(m, v, n, Inspect(m, v, draws[..n]), draws[n]);
    }
  }

  /** The entry given up is the oldest of those inspected exactly when the draw that found it
      left it in its slot. */
  lemma EvictsOldestIff(m: map<nat, Info>, v: seq<nat>, draws: seq<nat>)
    requires Draws(draws, |v|) && Present(m, v) && draws != [] && Distinct(v)
    ensures var l := Inspect(m, v, draws);
            l.bucket[l.pos] == l.oldest.value <==> draws[l.slot] == l.slot
  {
    var l := Inspect(m, v, draws);
    OldestOfInspected(m, v, draws);
    PermutedBucket(v, l.bucket);
  }

  lemma Stays(m: map<nat, Info>, l: Look, i: nat)
    requires i < |l.bucket| && l.bucket[i] in m && l.oldest.Some? && l.oldest.value in m
    requires m[l.oldest.value].nLastSuccess < m[l.bucket[i]].nLastSuccess
    ensures Step(m, l, i, i) == l
  {
    assert Swapped(l.bucket, i, i) == l.bucket;
  }

  lemma InspectLast(m: map<nat, Info>, v: seq<nat>, draws: seq<nat>, before: seq<nat>)
    requires Draws(draws, |v|) && Present(m, v) && draws != [] && before == draws[..|draws| - 1]
    ensures Draws(before, |v|)
    ensures var l, n := Inspect(m, v, before), |before|;
            && draws[n] < |l.bucket| && n < |l.bucket| && l.bucket[draws[n]] in m
            && (l.oldest.Some? ==> l.oldest.value in m)
            && Inspect(m, v, draws) == Step(m, l, n, draws[n])
  {
    hide Sound, Present;
    assert forall i | 0 <= i < |before| :: before[i] == draws[i];
    StepSound(m, v, |before|, Inspect(m, v, before), draws[|before|]);
  }

  /** In any full bucket whose second entry is older than its first, third and fourth, the draws
      1, 1, 2, 3 find the second entry oldest and give up the first. */
  lemma FirstGivenUp(m: map<nat, Info>, v: seq<nat>, draws: seq<nat>)
    requires |v| == TRIED_BUCKET_SIZE && Present(m, v) && draws == [1, 1, 2, 3]
    requires m[v[1]].nLastSuccess < m[v[0]].nLastSuccess
    requires m[v[1]].nLastSuccess < m[v[2]].nLastSuccess && m[v[1]].nLastSuccess < m[v[3]].nLastSuccess
    ensures Draws(draws, |v|)
    ensures var l := Inspect(m, v, draws);
            l.oldest == Some(v[1]) && l.pos == 1 && l.bucket[l.pos] == v[0]
  {
    assert Inspect(m, v, []) == Start(v);
    InspectLast(m, v, [1], []);
    InspectLast(m, v, [1, 1], [1]);
    InspectLast(m, v, [1, 1, 2], [1, 1]);
    InspectLast(m, v, draws, [1, 1, 2]);
    hide Inspect, Step, Draws, Present, Sound;
    FirstSteps(m, v);
  }

  lemma FirstSteps(m: map<nat, Info>, v: seq<nat>)
    requires |v| > 3 && v[0] in m && v[1] in m && v[2] in m && v[3] in m
    requires m[v[1]].nLastSuccess < m[v[0]].nLastSuccess
    requires m[v[1]].nLastSuccess < m[v[2]].nLastSuccess && m[v[1]].nLastSuccess < m[v[3]].nLastSuccess
    ensures var l := Look(Swapped(v, 0, 1), Some(v[1]), 0, 1);
            && Step(m, Start(v), 0, 1) == l && Step(m, l, 1, 1) == l && Step(m, l, 2, 2) == l && Step(m, l, 3, 3) == l
  {
    var l := Look(Swapped(v, 0, 1), Some(v[1]), 0, 1);
    Stays(m, l, 1);
    Stays(m, l, 2);
    Stays(m, l, 3);
  }

  function Ids(): (r: seq<nat>)
    ensures |r| == TRIED_BUCKET_SIZE && (forall i | 0 <= i < |r| :: r[i] == i)
    ensures forall id: nat :: id in r <==> id < TRIED_BUCKET_SIZE
  {
    var r: seq<nat> := seq(TRIED_BUCKET_SIZE, i => i);
    assert forall id: nat {:trigger id in r} | id < TRIED_BUCKET_SIZE :: r[id] in r;
    r
  }

  /** 64 entries of which the second is the oldest and the first the most recent of all. */
  function Times(base: Info): (m: map<nat, Info>)
    ensures forall id: nat :: id in m <==> id < TRIED_BUCKET_SIZE
  {
    map id | id in Ids() ::
      base.(nLastSuccess := if id == 0 then 3 else if id == 1 then 1 else 2)
  }

  /** A full bucket that gives up its most recent entry although a draw found its oldest one. */
  lemma RecentEvicted(base: Info)
    ensures var m, v, draws := Times(base), Ids(), [1, 1, 2, 3];
            && Present(m, v) && Draws(draws, |v|)
            && (forall id | id in m && id != 1 :: m[1].nLastSuccess < m[id].nLastSuccess)
            && (forall id | id in m && id != 0 :: m[id].nLastSuccess < m[0].nLastSuccess)
            && var l := Inspect(m, v, draws);
               l.oldest == Some(1) && l.bucket[l.pos] == 0
  {
    hide Inspect, Sound;
    FirstGivenUp(Times(base), Ids(), [1, 1, 2, 3]);
  }
}

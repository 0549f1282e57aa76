/** The table of rolling checkpoints and what a log of them replays to (src/checkpoints.cpp:318-355,
    401-406). */
module RollingLog {
  import opened FiniteSets
  import opened BlockTree

  const ROLLING_KEEP: nat := 10000

  type Table = map<nat, Hash>

  datatype Record = Record(nHeight: nat, hash: Hash)

  /** Drop the lowest heights until `keep` are left. */
  function Top(m: Table, keep: nat): (r: Table)
    decreases |m|
  {
    if |m| <= keep then m
    else
      assert |m.Keys| == |m|;
      var low := Least(m.Keys);
      WithoutOne(m, low);
      Top(m - {low}, keep)
  }

  lemma WithoutOne(m: Table, h: nat)
    requires h in m
    ensures |m - {h}| == |m| - 1 && (m - {h}).Keys == m.Keys - {h}
  {
    assert (m - {h}).Keys == m.Keys - {h};
    assert |m.Keys| == |m| && |(m - {h}).Keys| == |m - {h}|;
  }

  /** `r` holds the highest heights of `m`, as many as `keep` allows. */
  predicate IsTop(r: Table, m: Table, keep: nat) {
    && (forall h :: h in r ==> h in m && r[h] == m[h])
    && |r| == (if |m| <= keep then |m| else keep)
    && (forall a, b :: a in m && a !in r && b in r ==> a < b)
  }

  lemma {:induction false} TopIsTop(m: Table, keep: nat)
    ensures IsTop(Top(m, keep), m, keep)
    decreases |m|
  {
    if |m| > keep {
      assert |m.Keys| == |m|;
      var low := Least(m.Keys);
      WithoutOne(m, low);
      TopIsTop(m - {low}, keep);
      var r := Top(m - {low}, keep);
      forall a, b | a in m && a !in r && b in r
        ensures a < b
      {
        if a == low { assert b in m - {low}; } else { assert a in m - {low}; }
      }
    }
  }

  lemma SizeBySubset(r: Table, s: Table)
    requires r.Keys <= s.Keys && |r| == |s|
    ensures r.Keys == s.Keys
  {
    assert |r.Keys| == |r| && |s.Keys| == |s|;
    if r.Keys != s.Keys {
      var x :| x in s.Keys && x !in r.Keys;
      SubsetSize(r.Keys, s.Keys - {x});
      assert false;
    }
  }

  lemma Crossing(r: Table, s: Table, m: Table, keep: nat, a: nat, b: nat)
    requires IsTop(r, m, keep) && IsTop(s, m, keep)
    ensures !(a in r && a !in s && b in s && b !in r)
  {
  }

  /** There is only one such table. */
  lemma TopUnique(r: Table, s: Table, m: Table, keep: nat)
    requires IsTop(r, m, keep) && IsTop(s, m, keep)
    ensures r == s
  {
    if r.Keys <= s.Keys {
      SizeBySubset(r, s);
    } else {
      var a :| a in r.Keys && a !in s.Keys;
      forall b | b in s
        ensures b in r
      {
        Crossing(r, s, m, keep, a, b);
      }
      SizeBySubset(s, r);
    }
    assert forall h :: h in r ==> r[h] == s[h];
  }

  // --- Replaying ------------------------------------------------------------------------------

  /** The first record of a height wins; heights up to the static top are skipped. */
  function Inserted(m: Table, log: seq<Record>, nMaxStatic: nat): Table
    decreases |log|
  {
    if log == [] then m
    else
      var before := Inserted(m, log[..|log| - 1], nMaxStatic);
      var r := log[|log| - 1];
      if r.nHeight <= nMaxStatic || r.nHeight in before then before else before[r.nHeight := r.hash]
  }

  function Replayed(log: seq<Record>, nMaxStatic: nat): Table {
    Top(Inserted(map[], log, nMaxStatic), ROLLING_KEEP)
  }

  lemma InsertedSnoc(m: Table, log: seq<Record>, r: Record, nMaxStatic: nat)
    ensures Inserted(m, log + [r], nMaxStatic) ==
            var before := Inserted(m, log, nMaxStatic);
            if r.nHeight <= nMaxStatic || r.nHeight in before then before else before[r.nHeight := r.hash]
  {
    assert (log + [r])[..|log|] == log;
  }

  /** Rolling forward: putting a height that the table does not hold into it and dropping what is
      too much is the same as writing the record and replaying. */
  lemma RollIsReplay(log: seq<Record>, r: Record, nMaxStatic: nat)
    requires r.nHeight > nMaxStatic && r.nHeight !in Replayed(log, nMaxStatic)
    ensures Replayed(log + [r], nMaxStatic) == Top(Replayed(log, nMaxStatic)[r.nHeight := r.hash], ROLLING_KEEP)
  {
    hide Top;
    InsertedSnoc(map[], log, r, nMaxStatic);
    var f := Inserted(map[], log, nMaxStatic);
    var t := Replayed(log, nMaxStatic);
    var grown := t[r.nHeight := r.hash];
    TopIsTop(f, ROLLING_KEEP);
    TopIsTop(grown, ROLLING_KEEP);
    var g := Top(grown, ROLLING_KEEP);
    if r.nHeight in f {
      TopOfEvicted(f, t, r.nHeight, r.hash, g);
    } else {
      TopOfNew(f, t, r.nHeight, r.hash, g);
      TopIsTop(f[r.nHeight := r.hash], ROLLING_KEEP);
      TopUnique(g, Top(f[r.nHeight := r.hash], ROLLING_KEEP), f[r.nHeight := r.hash], ROLLING_KEEP);
    }
  }

  lemma GrownSize(t: Table, h: nat, hash: Hash)
    requires h !in t
    ensures |t[h := hash]| == |t| + 1
  {
    assert t[h := hash].Keys == t.Keys + {h};
    assert |t.Keys| == |t| && |t[h := hash].Keys| == |t[h := hash]|;
  }

  /** A height dropped earlier is dropped again at once. */
  lemma TopOfEvicted(f: Table, t: Table, h: nat, hash: Hash, g: Table)
    requires IsTop(t, f, ROLLING_KEEP) && h in f && h !in t && IsTop(g, t[h := hash], ROLLING_KEEP)
    ensures g == t
  {
    GrownSize(t, h, hash);
    if |f| <= ROLLING_KEEP {
      SizeBySubset(t, f);
      assert false;
    }
    assert IsTop(t, t[h := hash], ROLLING_KEEP);
    TopUnique(g, t, t[h := hash], ROLLING_KEEP);
  }

  lemma TopOfNew(f: Table, t: Table, h: nat, hash: Hash, g: Table)
    requires IsTop(t, f, ROLLING_KEEP) && h !in f && h !in t && IsTop(g, t[h := hash], ROLLING_KEEP)
    ensures IsTop(g, f[h := hash], ROLLING_KEEP)
  {
    GrownSize(t, h, hash);
    GrownSize(f, h, hash);
    var big := f[h := hash];
    if |f| <= ROLLING_KEEP {
      SizeBySubset(t, f);
      assert t == f;
    } else {
      forall a, b | a in big && a !in g && b in g
        ensures a < b
      {
        if a in t[h := hash] {
        } else {
          NotLowest(t, h, hash, g, a, b, f);
        }
      }
    }
  }

  /** A height dropped before the new one came stays below everything that is kept. */
  lemma NotLowest(t: Table, h: nat, hash: Hash, g: Table, a: nat, b: nat, f: Table)
    requires IsTop(t, f, ROLLING_KEEP) && |t| == ROLLING_KEEP && h !in t && IsTop(g, t[h := hash], ROLLING_KEEP)
    requires |t[h := hash]| == ROLLING_KEEP + 1
    requires a in f && a !in t && a != h && b in g
    ensures a < b
  {
    if b == h {
      SomeDropped(t, h, g);
      var x :| x in t && x !in g;
      assert x in t[h := hash] && x < h;
      assert a < x;
    }
  }

  lemma SomeDropped(t: Table, h: nat, g: Table)
    requires h !in t && h in g && |g| == |t|
    ensures exists x :: x in t && x !in g
  {
    assert |t.Keys| == |t| && |g.Keys| == |g|;
    assert |t.Keys + {h}| == |t.Keys| + 1;
    if forall x :: x in t ==> x in g { SubsetSize(t.Keys + {h}, g.Keys); }
  }

  // --- Loading --------------------------------------------------------------------------------

  /** What was there stays, and the log adds what was not. */
  lemma {:induction false} InsertedUnion(m: Table, log: seq<Record>, nMaxStatic: nat)
    ensures Inserted(m, log, nMaxStatic) == Inserted(map[], log, nMaxStatic) + m
    decreases |log|
  {
    if log == [] {
      assert map[] + m == m;
    } else {
      InsertedUnion(m, log[..|log| - 1], nMaxStatic);
    }
  }

  /** Loading the log into the table it replays to changes nothing. */
  lemma LoadTwice(log: seq<Record>, nMaxStatic: nat)
    ensures Top(Inserted(Replayed(log, nMaxStatic), log, nMaxStatic), ROLLING_KEEP) == Replayed(log, nMaxStatic)
  {
    var f := Inserted(map[], log, nMaxStatic);
    var t := Replayed(log, nMaxStatic);
    TopIsTop(f, ROLLING_KEEP);
    InsertedUnion(t, log, nMaxStatic);
    assert f + t == f;
  }

  /** `log` has one record for each height of the table, in ascending order. */
  predicate Lists(log: seq<Record>, m: Table) {
    && (forall i, j :: 0 <= i < j < |log| ==> log[i].nHeight < log[j].nHeight)
    && (forall i :: 0 <= i < |log| ==> log[i].nHeight in m && m[log[i].nHeight] == log[i].hash)
    && |log| == |m|
  }

  lemma {:induction false} PrefixInserted(log: seq<Record>, m: Table, n: nat, nMaxStatic: nat)
    requires n <= |log| && Lists(log, m) && forall h :: h in m ==> h > nMaxStatic
    ensures var r := Inserted(map[], log[..n], nMaxStatic);
            && (forall i :: 0 <= i < n ==> log[i].nHeight in r)
            && (forall h :: h in r ==> h in m && r[h] == m[h] && exists i :: 0 <= i < n && log[i].nHeight == h)
    decreases n
  {
    if n > 0 {
      PrefixInserted(log, m, n - 1, nMaxStatic);
      assert log[..n] == log[..n - 1] + [log[n - 1]];
      InsertedSnoc(map[], log[..n - 1], log[n - 1], nMaxStatic);
    }
  }

  /** A log that lists a table replays to it. */
  lemma OwnLog(log: seq<Record>, m: Table, nMaxStatic: nat)
    requires Lists(log, m) && |m| <= ROLLING_KEEP && forall h :: h in m ==> h > nMaxStatic
    ensures Replayed(log, nMaxStatic) == m
  {
    PrefixInserted(log, m, |log|, nMaxStatic);
    assert log[..|log|] == log;
    var r := Inserted(map[], log, nMaxStatic);
    forall h | h in m
      ensures h in r
    {
      assert h in m.Keys;
      ListsAll(log, m, h);
    }
    assert r == m;
  }

  lemma ListsAll(log: seq<Record>, m: Table, h: nat)
    requires Lists(log, m) && h in m
    ensures exists i :: 0 <= i < |log| && log[i].nHeight == h
  {
    var hs := Heights(log);
    assert Distinct(hs);
    var known := set x | x in hs;
    DistinctLength(hs, known);
    assert |m.Keys| == |m|;
    assert known <= m.Keys;
    if h !in known { SubsetSize(known, m.Keys - {h}); }
  }

  function Heights(log: seq<Record>): (r: seq<nat>)
    ensures |r| == |log| && forall i :: 0 <= i < |log| ==> r[i] == log[i].nHeight
  {
    seq(|log|, i requires 0 <= i < |log| => log[i].nHeight)
  }
}

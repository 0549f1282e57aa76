/** Finite sets, listings without repetitions, and iteration in ascending order as over a C++
    `std::set` or `std::map`. */
module FiniteSets {

  predicate Distinct<T(==)>(s: seq<T>) {
    forall i, j | 0 <= i < j < |s| :: s[i] != s[j]
  }

  function Elements<T>(s: seq<T>): set<T> { set x | x in s }

  lemma {:induction false} SubsetSize<T>(a: set<T>, b: set<T>)
    requires a <= b
    ensures |a| <= |b|
  {
    if a != {} {
      var x :| x in a;
      SubsetSize(a - {x}, b - {x});
    }
  }

  /** A listing without repetitions is as long as its set is large. */
  lemma {:induction false} DistinctLength<T>(v: seq<T>, ids: set<T>)
    requires Distinct(v) && forall id :: id in v <==> id in ids
    ensures |v| == |ids|
  {
    if v == [] {
      assert ids == {};
    } else {
      var n := |v| - 1;
      assert v == v[..n] + [v[n]];
      DistinctLength(v[..n], ids - {v[n]});
    }
  }

  predicate Ascends(s: seq<nat>) {
    forall i, j | 0 <= i < j < |s| :: s[i] < s[j]
  }

  lemma {:induction false} LeastElement(s: set<nat>) returns (m: nat)
    requires s != {}
    ensures m in s && forall y | y in s :: m <= y
  {
    var x :| x in s;
    var rest := s - {x};
    m := x;
    if rest != {} {
      var r := LeastElement(rest);
      if r < x { m := r; }
    }
    forall y | y in s ensures m <= y {
      if y != x { assert y in rest; }
    }
  }

  lemma LeastExists(s: set<nat>)
    requires s != {}
    ensures exists x :: x in s && forall y | y in s :: x <= y
  {
    var m := LeastElement(s);
  }

  function Least(s: set<nat>): (x: nat)
    requires s != {}
    ensures x in s && forall y | y in s :: x <= y
  {
    LeastExists(s);
    var x :| x in s && forall y | y in s :: x <= y;
    x
  }

  function Ascending(s: set<nat>): (r: seq<nat>)
    ensures Ascends(r) && |r| == |s| && forall x :: x in r <==> x in s
  {
    if s == {} then []
    else
      var x := Least(s);
      var rest := Ascending(s - {x});
      assert forall i | 0 <= i < |rest| :: rest[i] in s - {x};
      [x] + rest
  }
}

/** Numbers written in a base, most significant digit first. */
module Radix {
  import opened Arithmetic

  function Pow(b: nat, e: nat): (r: nat)
    ensures b > 0 ==> r > 0
  {
    if e == 0 then 1 else b * Pow(b, e - 1)
  }

  predicate Below(d: seq<nat>, base: nat) { forall i :: 0 <= i < |d| ==> d[i] < base }

  function Num(d: seq<nat>, base: nat): nat {
    if d == [] then 0 else Num(d[..|d| - 1], base) * base + d[|d| - 1]
  }

  /** The digits of a number, without leading zeros. */
  function Digits(n: nat, base: nat): (d: seq<nat>)
    requires base > 1
    ensures Below(d, base) && (d != [] ==> d[0] != 0)
    ensures n == 0 <==> d == []
    decreases n
  {
    if n == 0 then [] else (Shrinks(n, base); Digits(n / base, base) + [n % base])
  }

  lemma Shrinks(n: nat, base: nat)
    requires n > 0 && base > 1
    ensures 0 <= n / base < n
  {
    Division(n, base);
    Twice(n / base, base);
  }

  lemma Twice(q: int, base: nat)
    requires base > 1
    ensures q >= 0 ==> q * base >= 2 * q
    ensures q < 0 ==> q * base <= 2 * q
  {
  }

  /** The digits mean the number. */
  lemma {:induction false} NumOfDigits(n: nat, base: nat)
    requires base > 1
    ensures Num(Digits(n, base), base) == n
    decreases n
  {
    if n > 0 {
      Shrinks(n, base);
      NumOfDigits(n / base, base);
      var d := Digits(n, base);
      assert d[..|d| - 1] == Digits(n / base, base);
      Division(n, base);
    }
  }

  function LeadingZeros(d: seq<nat>): (k: nat)
    ensures k <= |d| && (forall i :: 0 <= i < k ==> d[i] == 0) && (k < |d| ==> d[k] != 0)
  {
    if d != [] && d[0] == 0 then 1 + LeadingZeros(d[1..]) else 0
  }

  function Significant(d: seq<nat>): seq<nat> { d[LeadingZeros(d)..] }

  /** A number has only one form without leading zeros. */
  lemma {:induction false} DigitsOfNum(d: seq<nat>, base: nat)
    requires base > 1 && Below(d, base) && (d != [] ==> d[0] != 0)
    ensures Digits(Num(d, base), base) == d
    decreases |d|
  {
    if d != [] {
      var h, x := d[..|d| - 1], d[|d| - 1];
      DigitsOfNum(h, base);
      DivideBack(Num(h, base), base, x);
      if h == [] { assert d == [x]; } else { assert Num(h, base) != 0; }
      assert d == h + [x];
    }
  }

  lemma DivideBack(q: nat, base: nat, x: nat)
    requires base > 1 && x < base
    ensures (q * base + x) / base == q && (q * base + x) % base == x
    ensures q > 0 || x > 0 ==> q * base + x > 0
  {
    var n := q * base + x;
    Division(n, base);
    SameQuotient(q, x, n / base, n % base, base);
    Twice(q, base);
  }

  lemma {:induction false} LeadingZerosMeanNothing(d: seq<nat>, base: nat)
    requires base > 1 && Below(d, base)
    ensures Num(Significant(d), base) == Num(d, base)
    decreases |d|
  {
    if d != [] {
      var h := d[..|d| - 1];
      LeadingZerosMeanNothing(h, base);
      PrefixZeros(d, h);
      if LeadingZeros(d) == |d| {
        assert d[|d| - 1] == 0 && Significant(h) == [];
      } else {
        assert Significant(d)[..|Significant(d)| - 1] == Significant(h);
      }
    }
  }

  lemma {:induction false} PrefixZeros(d: seq<nat>, h: seq<nat>)
    requires d != [] && h == d[..|d| - 1]
    ensures LeadingZeros(h) == if LeadingZeros(d) == |d| then |h| else LeadingZeros(d)
    decreases |d|
  {
    if h != [] && d[0] == 0 {
      assert h[1..] == d[1..][..|d[1..]| - 1];
      PrefixZeros(d[1..], h[1..]);
    }
  }

  /** Digits with leading zeros dropped are the digits of the number. */
  lemma SignificantIsDigits(d: seq<nat>, base: nat)
    requires base > 1 && Below(d, base)
    ensures Significant(d) == Digits(Num(d, base), base)
  {
    LeadingZerosMeanNothing(d, base);
    DigitsOfNum(Significant(d), base);
  }

  // --- Sizes ----------------------------------------------------------------------------------

  lemma {:induction false} NumBound(d: seq<nat>, base: nat)
    requires base > 1 && Below(d, base)
    ensures Num(d, base) < Pow(base, |d|)
    decreases |d|
  {
    if d != [] {
      var h := d[..|d| - 1];
      NumBound(h, base);
      BoundStep(Num(h, base), Pow(base, |h|), d[|d| - 1], base);
    }
  }

  lemma BoundStep(n: nat, p: nat, x: nat, base: nat)
    requires n < p && x < base
    ensures n * base + x < base * p
  {
    assert (n + 1) * base <= p * base;
    assert (n + 1) * base == n * base + base;
  }

  lemma Reassociate(a: nat, b: nat, c: nat)
    ensures a * (b * c) == (a * b) * c
  {
  }

  lemma {:induction false} PowAdd(b: nat, m: nat, n: nat)
    ensures Pow(b, m + n) == Pow(b, m) * Pow(b, n)
    decreases m
  {
    if m > 0 {
      PowAdd(b, m - 1, n);
      Reassociate(b, Pow(b, m - 1), Pow(b, n));
    }
  }

  lemma {:induction false} PowMul(b: nat, m: nat, n: nat)
    ensures Pow(b, m * n) == Pow(Pow(b, m), n)
    decreases n
  {
    if n > 0 {
      PowMul(b, m, n - 1);
      assert m * n == m + m * (n - 1);
      PowAdd(b, m, m * (n - 1));
    }
  }

  lemma Product(a: nat, b: nat, c: nat, d: nat)
    requires a <= b && c <= d
    ensures a * c <= b * d
  {
    assert a * c <= b * c <= b * d;
  }

  lemma {:induction false} PowMonotone(a: nat, b: nat, n: nat)
    requires a <= b
    ensures Pow(a, n) <= Pow(b, n)
    decreases n
  {
    if n > 0 {
      PowMonotone(a, b, n - 1);
      Product(a, b, Pow(a, n - 1), Pow(b, n - 1));
    }
  }

  lemma {:induction false} PowGrows(b: nat, m: nat, n: nat)
    requires b > 1 && m < n
    ensures Pow(b, m) < Pow(b, n)
    decreases n
  {
    assert Pow(b, n) == b * Pow(b, n - 1) >= 2 * Pow(b, n - 1) by { Product(2, b, Pow(b, n - 1), Pow(b, n - 1)); }
    if m < n - 1 { PowGrows(b, m, n - 1); }
  }

  /** If `a^q` is at most `b^p`, then n digits of base `a` never need more than n * p / q + 1 digits
      of base `b`. */
  lemma BufferSuffices(a: nat, b: nat, p: nat, q: nat, n: nat)
    requires b > 1 && q > 0 && Pow(a, q) <= Pow(b, p)
    ensures Pow(a, n) <= Pow(b, n * p / q + 1)
  {
    hide Pow;
    var k := n * p / q + 1;
    if Pow(a, n) > Pow(b, k) {
      PowMonotone(Pow(b, k), Pow(a, n), q);
      PowMul(b, k, q);
      PowMul(a, n, q);
      PowMul(a, q, n);
      PowMul(b, p, n);
      PowMonotone(Pow(a, q), Pow(b, p), n);
      assert n * q == q * n && p * n == n * p;
      assert n * p < k * q by { Quotient(n * p, q); }
      PowGrows(b, p * n, k * q);
      assert false;
    }
  }

  lemma Quotient(x: nat, q: nat)
    requires q > 0
    ensures x < (x / q + 1) * q
  {
    assert x / q * q + x % q == x;
    assert (x / q + 1) * q == x / q * q + q;
  }

  // --- Carrying -------------------------------------------------------------------------------

  lemma {:induction false} NumCons(x: nat, d: seq<nat>, base: nat)
    ensures Num([x] + d, base) == x * Pow(base, |d|) + Num(d, base)
    decreases |d|
  {
    if d == [] {
      assert ([x] + d)[..0] == [];
      assert [x] + d == [x];
    } else {
      var h, y := d[..|d| - 1], d[|d| - 1];
      NumCons(x, h, base);
      assert ([x] + d)[..|d|] == [x] + h;
      Spread(x, Pow(base, |h|), Num(h, base), base);
    }
  }

  lemma Spread(x: nat, p: nat, n: nat, base: nat)
    ensures (x * p + n) * base == x * (base * p) + n * base
  {
    assert (x * p + n) * base == x * p * base + n * base;
    assert x * p * base == x * (base * p);
  }

  /** One position of the schoolbook multiplication: the new digit and the new carry. */
  lemma CarryStep(n: nat, n0: nat, carry: nat, x: nat, p: nat, factor: nat, ch: nat, base: nat)
    requires base > 1 && n + carry * p == n0 * factor + ch
    ensures var v := carry + factor * x; (v % base) * p + n + (v / base) * (base * p) == (x * p + n0) * factor + ch
  {
    var v := carry + factor * x;
    Division(v, base);
    var q, r := v / base, v % base;
    assert r * p + q * (base * p) == v * p by {
      assert q * (base * p) == (q * base) * p;
      assert (r + q * base) * p == r * p + (q * base) * p;
    }
    assert v * p == carry * p + (factor * x) * p;
    assert (factor * x) * p == (x * p) * factor;
    assert (x * p + n0) * factor == (x * p) * factor + n0 * factor;
  }

  lemma CarryOne(d: seq<nat>, d0: seq<nat>, carry: nat, x: nat, factor: nat, ch: nat, base: nat)
    requires base > 1 && |d| == |d0| && Num(d, base) + carry * Pow(base, |d|) == Num(d0, base) * factor + ch
    ensures var v := carry + factor * x;
            v / base >= 0 && Num([v % base] + d, base) + (v / base) * Pow(base, |d| + 1) == Num([x] + d0, base) * factor + ch
  {
    hide Num, Pow;
    var v := carry + factor * x;
    Division(v, base);
    CarryStep(Num(d, base), Num(d0, base), carry, x, Pow(base, |d|), factor, ch, base);
    NumCons(v % base, d, base);
    NumCons(x, d0, base);
    NextPow(base, |d| + 1);
  }

  lemma BelowUpdate(d: seq<nat>, i: nat, x: nat, base: nat)
    requires Below(d, base) && i < |d| && x < base
    ensures Below(d[i := x], base)
  {
  }

  /** A value that fits leaves no carry. */
  lemma NoCarry(n: nat, carry: nat, p: nat)
    requires n + carry * p < p
    ensures carry == 0
  {
    if carry > 0 { Product(1, carry, p, p); }
  }

  /** The digits `b` become those of their value times `factor` plus `ch`; the carry runs out. */
  // src/base58.cpp:40-46 and 77-84
  method MultiplyAdd(b: array<nat>, base: nat, factor: nat, ch: nat)
    requires base > 1 && Below(b[..], base) && Num(b[..], base) * factor + ch < Pow(base, b.Length)
    modifies b
    ensures Below(b[..], base) && Num(b[..], base) == Num(old(b[..]), base) * factor + ch
  {
    hide Num, Pow, Below;
    ghost var was := b[..];
    var carry: nat := ch;
    var i: nat := b.Length;
    Empty(base);
    assert b[i..] == [] && was[i..] == [];
    while i > 0
      invariant 0 <= i <= b.Length && b[..i] == was[..i] && Below(b[..], base)
      invariant Num(b[i..], base) + carry * Pow(base, b.Length - i) == Num(was[i..], base) * factor + ch
    {
      ghost var d, d0 := b[i..], was[i..];
      i := i - 1;
      ghost var x := was[i];
      assert b[i] == was[..i + 1][i];
      CarryOne(d, d0, carry, x, factor, ch, base);
      carry := carry + factor * b[i];
      Division(carry, base);
      var digit: nat := carry % base;
      ghost var before := b[..];
      BelowUpdate(before, i, digit, base);
      b[i] := digit;
      assert b[..] == before[i := digit];
      carry := carry / base;
      assert b[i..] == [b[i]] + d;
      assert was[i..] == [x] + d0;
    }
    assert b[0..] == b[..] && was[0..] == was;
    NoCarry(Num(b[..], base), carry, Pow(base, b.Length));
    assert carry == 0;
  }

  lemma Empty(base: nat)
    ensures Num([], base) == 0 && Pow(base, 0) == 1
  {
  }

  lemma NextPow(base: nat, e: nat)
    requires e > 0
    ensures Pow(base, e) == base * Pow(base, e - 1)
  {
  }
}

/** The compact form in which output amounts are stored (src/core.cpp:162-214). */
module Amount {
  const COIN: nat := 100000
  const MAX_MONEY: nat := 500000000 * COIN
  const U64: nat := 0x1_0000_0000_0000_0000

  /** `n` times ten to the power of `e`. */
  function Scaled(n: nat, e: nat): (r: nat)
    ensures r >= n
    decreases e
  {
    if e == 0 then n else Scaled(10 * n, e - 1)
  }

  /** Unsigned 64-bit arithmetic keeps a number modulo 2^64. */
  function Wrapped(n: nat): (r: nat)
    ensures r < U64
    ensures n < U64 ==> r == n
  {
    n % U64
  }

  /** The stored number for `n * 10^e`. */
  function Stripped(n: nat, e: nat): nat
    requires n > 0 && e <= 9
    decreases n
  {
    if n % 10 == 0 && e < 9 then Stripped(n / 10, e + 1)
    else if e < 9 then 1 + (n / 10 * 9 + n % 10 - 1) * 10 + e
    else 1 + (n - 1) * 10 + 9
  }

  function Compressed(n: nat): nat { if n == 0 then 0 else Stripped(n, 0) }

  /** The number whose power of ten has been taken out of the amount stored as `x`. */
  function Mantissa(x: nat): nat
    requires x > 0
  {
    var y := (x - 1) / 10;
    if (x - 1) % 10 < 9 then y / 9 * 10 + (y % 9 + 1) else y + 1
  }

  function Decompressed(x: nat): nat {
    if x == 0 then 0 else Scaled(Mantissa(x), (x - 1) % 10)
  }

  // src/core.cpp:171-188, in 64-bit arithmetic
  method CompressAmount(amount: nat) returns (r: nat)
    requires amount < U64
    ensures r == Wrapped(Compressed(amount))
    ensures amount <= MAX_MONEY ==> r == Compressed(amount)
  {
    hide Wrapped;
    if amount == 0 { return 0; }
    var n, e := amount, 0;
    while n % 10 == 0 && e < 9
      invariant n > 0 && e <= 9 && Stripped(n, e) == Compressed(amount)
      decreases n
    {
      n := n / 10;
      e := e + 1;
    }
    if e < 9 {
      var d := n % 10;
      assert 1 <= d <= 9;
      n := n / 10;
      r := Wrapped(1 + (n * 9 + d - 1) * 10 + e);
    } else {
      r := Wrapped(1 + (n - 1) * 10 + 9);
    }
    if amount <= MAX_MONEY { MoneyFits(amount); }
  }

  // src/core.cpp:190-214, in 64-bit arithmetic
  method DecompressAmount(stored: nat) returns (n: nat)
    requires stored < U64
    ensures n == Wrapped(Decompressed(stored))
  {
    hide Wrapped;
    if stored == 0 { return 0; }
    assert Decompressed(stored) == Scaled(Mantissa(stored), (stored - 1) % 10);
    var x := stored - 1;
    var e := x % 10;
    x := x / 10;
    if e < 9 {
      var d := x % 9 + 1;
      x := x / 9;
      n := Wrapped(x * 10 + d);
    } else {
      n := Wrapped(x + 1);
    }
    assert n == Wrapped(Mantissa(stored)) && 0 <= e <= 9;
    hide Mantissa, Decompressed;
    WrappedScaled(Mantissa(stored), e);
    while e > 0
      invariant 0 <= e <= 9 && Wrapped(Scaled(n, e)) == Wrapped(Decompressed(stored))
      invariant n < U64
    {
      WrappedScaled(n * 10, e - 1);
      n := Wrapped(n * 10);
      e := e - 1;
    }
  }

  /** Wrapping before scaling makes no difference. */
  lemma {:induction false} WrappedScaled(a: nat, k: nat)
    ensures Wrapped(Scaled(Wrapped(a), k)) == Wrapped(Scaled(a, k))
    decreases k
  {
    hide Wrapped;
    if k > 0 {
      WrappedScaled(10 * a, k - 1);
      WrappedScaled(10 * Wrapped(a), k - 1);
      TenTimesWrapped(a);
    }
  }

  lemma TenTimesWrapped(a: nat)
    ensures Wrapped(10 * Wrapped(a)) == Wrapped(10 * a)
  {
    var q := a / U64;
    assert 10 * a == 10 * (a % U64) + 10 * q * U64;
    MultipleDropped(10 * (a % U64), 10 * q);
  }

  lemma MultipleDropped(a: nat, k: nat)
    ensures Wrapped(a + k * U64) == Wrapped(a)
  {
  }

  /** Decompressing undoes compressing. */
  lemma CompressThenDecompress(n: nat)
    ensures Decompressed(Compressed(n)) == n
  {
    if n > 0 {
      StrippedValue(n, 0);
    }
  }

  lemma {:induction false} StrippedValue(n: nat, e: nat)
    requires n > 0 && e <= 9
    ensures Stripped(n, e) > 0 && Decompressed(Stripped(n, e)) == Scaled(n, e)
    decreases n
  {
    if n % 10 == 0 && e < 9 {
      StrippedValue(n / 10, e + 1);
      assert n == 10 * (n / 10);
    } else {
      LastStep(n, e);
    }
  }

  lemma LastStep(n: nat, e: nat)
    requires n > 0 && e <= 9 && (n % 10 != 0 || e == 9)
    ensures var x := Stripped(n, e); x > 0 && Mantissa(x) == n && (x - 1) % 10 == e
  {
    if e < 9 {
      var q, d := n / 10, n % 10;
      var y := q * 9 + (d - 1);
      assert y / 9 == q && y % 9 == d - 1;
      var x := 1 + y * 10 + e;
      assert (x - 1) / 10 == y && (x - 1) % 10 == e;
    }
  }

  /** Compressing undoes decompressing, so every stored number is the form of some amount. */
  lemma DecompressThenCompress(x: nat)
    ensures Compressed(Decompressed(x)) == x
  {
    if x > 0 {
      var y, e := (x - 1) / 10, (x - 1) % 10;
      var m := Mantissa(x);
      assert m > 0 && (m % 10 != 0 || e == 9);
      StrippedScaled(m, 0, e);
      assert x == 1 + y * 10 + e;
      if e < 9 {
        assert m / 10 == y / 9 && m % 10 == y % 9 + 1;
      }
    }
  }

  lemma {:induction false} StrippedScaled(m: nat, e: nat, k: nat)
    requires m > 0 && e + k <= 9 && (m % 10 != 0 || e + k == 9)
    ensures Stripped(Scaled(m, k), e) == Stripped(m, e + k)
    decreases k
  {
    if k > 0 {
      StrippedScaled(m, e + 1, k - 1);
      ScaledLast(m, k);
    }
  }

  lemma {:induction false} ScaledLast(m: nat, k: nat)
    requires k > 0
    ensures Scaled(m, k) == 10 * Scaled(m, k - 1)
    decreases k
  {
    if k > 1 { ScaledLast(10 * m, k - 1); }
  }

  /** The stored number is at most nine times the amount, so no amount of money overflows. */
  lemma {:induction false} StrippedBound(n: nat, e: nat)
    requires n > 0 && e <= 9
    ensures Stripped(n, e) <= 9 * n + e + (if e == 9 then n else 0)
    decreases n
  {
    if n % 10 == 0 && e < 9 {
      StrippedBound(n / 10, e + 1);
    }
  }

  lemma MoneyFits(n: nat)
    requires n <= MAX_MONEY
    ensures Compressed(n) < U64
  {
    if n > 0 { StrippedBound(n, 0); }
  }
}

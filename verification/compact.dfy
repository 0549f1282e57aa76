/** The compact form of difficulty targets (src/bignum.h:262-335). */
module Compact {
  import opened Arithmetic

  const BYTE3: nat := 0x100_0000
  const SIGN: nat := 0x80_0000
  const U32: nat := 0x1_0000_0000

  /** A shift by whole bytes. */
  function ShiftLeft(n: nat, k: nat): nat { n * Pow256(k) }

  function ShiftRight(n: nat, k: nat): nat {
    Division(n, Pow256(k));
    n / Pow256(k)
  }

  /** BN_num_bytes */
  function NumBytes(n: nat): nat { if n == 0 then 0 else 1 + NumBytes(n / 256) }

  // --- The form, by shifting one byte at a time ---------------------------------------------------

  /** The exponent: how many bytes the number has, one more if the top bit would read as a sign. */
  function Exponent(n: nat): nat {
    if n < SIGN then if n == 0 then 0 else if n < 0x80 then 1 else if n < 0x8000 then 2 else 3
    else Exponent(n / 256) + 1
  }

  /** The top three bytes, less than 2^23. */
  function Mantissa(n: nat): (w: nat)
    ensures w < SIGN
  {
    if n < SIGN then if n == 0 then 0 else if n < 0x80 then n * 0x10000 else if n < 0x8000 then n * 0x100 else n
    else Mantissa(n / 256)
  }

  /** What the form keeps of a number. */
  function Rounded(n: nat): nat { if n < SIGN then n else 256 * Rounded(n / 256) }

  function Code(n: nat): nat { Exponent(n) * BYTE3 + Mantissa(n) }

  function Expanded(e: nat, w: nat): nat { if e <= 3 then ShiftRight(w, 3 - e) else ShiftLeft(w, e - 3) }

  // --- The program's computation ------------------------------------------------------------------

  class BigNum {
    /** The value; OpenSSL keeps magnitude and sign, and no negative zero. */
    var value: int

    constructor (v: int)
      ensures value == v
    {
      value := v;
    }

    // src/bignum.h:294-311
    method SetCompact(nCompact: nat)
      requires nCompact < U32
      modifies this
      ensures value == Meaning(nCompact)
    {
      var nSize := nCompact / BYTE3;
      var fNegative := nCompact % BYTE3 >= SIGN;
      var nWord := nCompact % BYTE3 % SIGN;
      if nSize <= 3 {
        nWord := ShiftRight(nWord, 3 - nSize);
        value := nWord;
      } else {
        value := ShiftLeft(nWord, nSize - 3);
      }
      if fNegative { value := -value; }
    }

    /** The exponent is shifted into the top eight bits, and what does not fit is lost
        (src/bignum.h:313-335). */
    method GetCompact() returns (nCompact: nat)
      ensures nCompact == SignedCode(value) % U32
      ensures Exponent(Abs(value)) < 256 ==> nCompact == SignedCode(value)
    {
      hide NumBytes, ShiftLeft, ShiftRight, Exponent, Mantissa, SignedCode;
      var n := Abs(value);
      var nSize := NumBytes(n);
      if nSize <= 3 {
        nCompact := ShiftLeft(n, 3 - nSize);
      } else {
        nCompact := ShiftRight(n, nSize - 3);
      }
      ShiftedIs(n);
      if nCompact >= SIGN {
        nCompact := nCompact / 256;
        nSize := nSize + 1;
      }
      CodeBits(value);
      nCompact := nCompact + nSize * BYTE3 % U32;
      if value < 0 { nCompact := nCompact + SIGN; }
    }
  }

  function Abs(v: int): nat { if v < 0 then -v else v }

  function SignedCode(v: int): nat { Code(Abs(v)) + (if v < 0 then SIGN else 0) }

  function Meaning(nCompact: nat): int {
    var m: int := Expanded(nCompact / BYTE3, nCompact % BYTE3 % SIGN);
    Signed(nCompact % BYTE3 >= SIGN, m)
  }

  function Signed(negative: bool, m: int): int { if negative then -m else m }

  /** The shift to three bytes, before the top bit is looked at. */
  function Shifted(n: nat): nat {
    if NumBytes(n) <= 3 then ShiftLeft(n, 3 - NumBytes(n)) else ShiftRight(n, NumBytes(n) - 3)
  }

  /** Shifting to three bytes, and once more when the top bit is set, gives mantissa and exponent. */
  lemma {:induction false} ShiftedIs(n: nat)
    ensures if Shifted(n) >= SIGN then Mantissa(n) == Shifted(n) / 256 && Exponent(n) == NumBytes(n) + 1
            else Mantissa(n) == Shifted(n) && Exponent(n) == NumBytes(n)
    decreases n
  {
    Powers();
    if n < BYTE3 {
      SmallBytes(n);
    } else {
      ShiftedIs(n / 256);
      ShiftStep(n);
    }
  }

  lemma Powers()
    ensures Pow256(0) == 1 && Pow256(1) == 256 && Pow256(2) == 0x10000 && Pow256(3) == BYTE3
  {
    assert Pow256(1) == 256 * Pow256(0);
  }

  lemma SmallBytes(n: nat)
    requires n < BYTE3
    ensures NumBytes(n) == if n == 0 then 0 else if n < 0x100 then 1 else if n < 0x10000 then 2 else 3
  {
    assert NumBytes(0) == 0;
  }

  lemma ShiftStep(n: nat)
    requires n >= BYTE3
    ensures NumBytes(n) == NumBytes(n / 256) + 1 && Shifted(n) == Shifted(n / 256)
  {
    Powers();
    var m := n / 256;
    ManyBytes(m);
    if NumBytes(m) > 3 {
      DivideTwice(n, Pow256(NumBytes(m) - 3));
    }
  }

  lemma {:induction false} ManyBytes(n: nat)
    requires n >= 0x10000
    ensures NumBytes(n) >= 3
    decreases n
  {
    if n >= BYTE3 { ManyBytes(n / 256); } else { SmallBytes(n); }
  }

  lemma DivideTwice(n: nat, p: nat)
    requires p > 0
    ensures n / (256 * p) == n / 256 / p
  {
    var q := n / 256 / p;
    Division(n / 256, p);
    Division(n, 256 * p);
    var rest := n - 256 * (q * p);
    assert q * (256 * p) == 256 * (q * p);
    SameQuotient(n / (256 * p), n % (256 * p), q, rest, 256 * p);
  }

  // --- What the form keeps ------------------------------------------------------------------------

  lemma {:induction false} ExponentLow(n: nat)
    ensures n >= SIGN <==> Exponent(n) > 3
    decreases n
  {
    if n >= SIGN {
      ExponentLow(n / 256);
      AtLeastThree(n / 256);
    }
  }

  lemma {:induction false} AtLeastThree(n: nat)
    requires n >= 0x8000
    ensures Exponent(n) >= 3
    decreases n
  {
    if n >= SIGN { AtLeastThree(n / 256); }
  }

  /** Expanding mantissa and exponent gives the rounded number. */
  lemma {:induction false} ExpandedIsRounded(n: nat)
    ensures Expanded(Exponent(n), Mantissa(n)) == Rounded(n)
    decreases n
  {
    Powers();
    ExponentLow(n);
    if n >= SIGN {
      ExpandedIsRounded(n / 256);
      var e, w := Exponent(n / 256), Mantissa(n / 256);
      AtLeastThree(n / 256);
      assert Pow256(e + 1 - 3) == 256 * Pow256(e - 3);
      assert w * (256 * Pow256(e - 3)) == 256 * (w * Pow256(e - 3));
      if e == 3 { assert w / 1 == w; }
    }
  }

  /** Rounding goes down, by less than the weight of the last byte kept. */
  lemma {:induction false} RoundedBounds(n: nat)
    ensures Rounded(n) <= n < Rounded(n) + (if Exponent(n) <= 3 then 1 else Pow256(Exponent(n) - 3))
    decreases n
  {
    ExponentLow(n);
    if n >= SIGN {
      RoundedBounds(n / 256);
      AtLeastThree(n / 256);
      Powers();
      assert Pow256(Exponent(n) - 3) == 256 * Pow256(Exponent(n / 256) - 3);
    }
  }

  /** A rounded number has the same form. */
  lemma {:induction false} RoundedSameCode(n: nat)
    ensures Exponent(Rounded(n)) == Exponent(n) && Mantissa(Rounded(n)) == Mantissa(n)
    decreases n
  {
    if n >= SIGN {
      RoundedSameCode(n / 256);
      RoundedLow(n / 256);
      assert 256 * Rounded(n / 256) / 256 == Rounded(n / 256);
    }
  }

  lemma {:induction false} RoundedLow(n: nat)
    requires n >= 0x8000
    ensures Rounded(n) >= 0x8000
    decreases n
  {
    if n >= SIGN { RoundedLow(n / 256); }
  }

  /** Larger numbers have larger forms. */
  lemma {:induction false} ExponentMonotone(a: nat, b: nat)
    requires a <= b
    ensures Exponent(a) < Exponent(b) || (Exponent(a) == Exponent(b) && Mantissa(a) <= Mantissa(b))
    decreases b
  {
    if b >= SIGN {
      if a >= SIGN { ExponentMonotone(a / 256, b / 256); }
      else {
        ExponentLow(a);
        ExponentLow(b);
      }
    }
  }

  lemma CodeMonotone(a: nat, b: nat)
    requires a <= b
    ensures Code(a) <= Code(b)
  {
    ExponentMonotone(a, b);
  }

  /** Setting a number from its own compact form gives it rounded toward zero, with its sign, and a
      number so rounded has the same form again. */
  lemma CompactRoundTrip(v: int)
    requires Exponent(Abs(v)) < 256
    ensures Meaning(SignedCode(v)) == Signed(v < 0, Rounded(Abs(v)))
    ensures SignedCode(Meaning(SignedCode(v))) == SignedCode(v)
  {
    var n := Abs(v);
    hide Exponent, Mantissa, Rounded, Expanded;
    MeaningOf(v < 0, Exponent(n), Mantissa(n));
    ExpandedIsRounded(n);
    RoundedSameCode(n);
    NotRoundedAway(n);
  }

  lemma DropHigh(a: nat, y: nat)
    requires y < U32
    ensures (a * U32 + y) % U32 == y
  {
  }

  /** Sign and mantissa stay clear of the exponent. */
  lemma ExponentBits(e: nat, low: nat)
    requires low < BYTE3
    ensures (e * BYTE3 + low) % U32 == e % 256 * BYTE3 + low && e * BYTE3 % U32 == e % 256 * BYTE3
  {
    var a, b := e / 256, e % 256;
    assert e * BYTE3 == a * U32 + b * BYTE3;
    DropHigh(a, b * BYTE3 + low);
    DropHigh(a, b * BYTE3);
  }

  lemma CodeBits(v: int)
    ensures var n, sign := Abs(v), if v < 0 then SIGN else 0;
            && SignedCode(v) % U32 == Mantissa(n) + Exponent(n) * BYTE3 % U32 + sign
            && (Exponent(n) < 256 ==> SignedCode(v) % U32 == SignedCode(v))
  {
    hide Exponent, Mantissa;
    ExponentBits(Exponent(Abs(v)), Mantissa(Abs(v)) + (if v < 0 then SIGN else 0));
  }

  lemma {:induction false} PowersGrow(a: nat, b: nat)
    requires a < b
    ensures 0 < Pow256(a) < Pow256(b)
    decreases b
  {
    if a < b - 1 { PowersGrow(a, b - 1); }
  }

  lemma ExpandedGrows(e: nat, f: nat, w: nat)
    requires e < f && 3 < f && 0 < w
    ensures Expanded(e, w) < Expanded(f, w)
  {
    if e <= 3 {
      PowersGrow(0, f - 3);
      Shrinks(w, Pow256(3 - e));
      Further(Pow256(f - 3), 1, w);
    } else {
      PowersGrow(e - 3, f - 3);
      Further(Pow256(f - 3), Pow256(e - 3), w);
    }
  }

  lemma Shrinks(w: nat, q: nat)
    requires q > 0
    ensures w / q <= w
  {
    Division(w, q);
    if q > 1 { Further(q, 1, w / q); }
  }

  lemma {:induction false} MantissaPositive(n: nat)
    ensures n > 0 ==> Mantissa(n) > 0
    decreases n
  {
    if n >= SIGN { MantissaPositive(n / 256); }
  }

  /** The code of a number stands for it, up to rounding, exactly when its exponent fits eight bits. */
  lemma FitsIff(v: int)
    ensures Meaning(SignedCode(v) % U32) == Signed(v < 0, Rounded(Abs(v))) <==> Exponent(Abs(v)) < 256
  {
    hide Exponent, Mantissa, Rounded, Expanded;
    var n := Abs(v);
    var e, w := Exponent(n), Mantissa(n);
    ExponentBits(e, w + (if v < 0 then SIGN else 0));
    MeaningOf(v < 0, e % 256, w);
    ExpandedIsRounded(n);
    MantissaPositive(n);
    ExponentLow(n);
    if e >= 256 { ExpandedGrows(e % 256, e, w); }
  }

  lemma MeaningOf(negative: bool, e: nat, w: nat)
    requires w < SIGN
    ensures Meaning(e * BYTE3 + w + (if negative then SIGN else 0)) == Signed(negative, Expanded(e, w))
  {
    hide Expanded;
    var low := w + (if negative then SIGN else 0);
    var c := e * BYTE3 + low;
    assert c / BYTE3 == e && c % BYTE3 == low;
    assert low % SIGN == w;
  }

  lemma {:induction false} NotRoundedAway(n: nat)
    ensures n > 0 ==> Rounded(n) > 0
    decreases n
  {
    if n >= SIGN { NotRoundedAway(n / 256); }
  }

  /** With the bounds: the number lies at or above what comes back, by less than one unit of the
      last byte kept. */
  lemma UnsignedRoundTrip(n: nat)
    requires Exponent(n) < 256
    ensures var m, e := Meaning(Code(n)), Exponent(n);
            0 <= m <= n < m + (if e <= 3 then 1 else Pow256(e - 3)) && Code(m) == Code(n)
  {
    hide Exponent, Mantissa, Rounded, Expanded, Meaning;
    CompactRoundTrip(n);
    RoundedBounds(n);
    RoundedSameCode(n);
  }
}

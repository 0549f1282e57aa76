/** Variable-length integers (src/serialize.h:263-307): base 128, most significant digit first,
    with one subtracted at each continuation so that every number has a single encoding. */
module VarInt {
  import opened Common

  /** The digits of `n`; all but the last carry the continuation bit. A negative number stops at
      its first comparison and leaves only its low seven bits. */
  function Digits(n: int, last: bool): (r: seq<Byte>)
    ensures |r| > 0
    decreases if n < 0 then 0 else n
  {
    var flag := if last then 0 else 128;
    if n <= 127 then [n % 128 + flag]
    else Digits(n / 128 - 1, false) + [n % 128 + flag]
  }

  function Encoded(n: int): seq<Byte> { Digits(n, true) }

  // src/serialize.h:263-275
  method GetSizeOfVarInt(n: int) returns (nRet: nat)
    ensures nRet == |Encoded(n)|
  {
    var m := n;
    nRet := 0;
    SizeSame(n);
    while true
      invariant nRet + |Digits(m, false)| == |Encoded(n)|
      decreases if m < 0 then 0 else m
    {
      nRet := nRet + 1;
      if m <= 127 { break; }
      m := m / 128 - 1;
    }
  }

  lemma SizeSame(n: int)
    ensures |Digits(n, false)| == |Digits(n, true)|
  {
  }

  // src/serialize.h:277-292
  method WriteVarInt(n: int) returns (out: seq<Byte>)
    ensures out == Encoded(n)
  {
    hide Reversed;
    ReversedNone();
    var tmp: seq<Byte> := [];
    var m, len := n, 0;
    while true
      invariant len == |tmp|
      invariant Digits(m, len == 0) + Reversed(tmp) == Encoded(n)
      decreases if m < 0 then 0 else m
    {
      var flag := if len != 0 then 128 else 0;
      ghost var before := tmp;
      tmp := tmp + [m % 128 + flag];
      ReversedPush(before, m % 128 + flag);
      if m <= 127 {
        assert Digits(m, len == 0) == [m % 128 + flag];
        break;
      }
      assert Digits(m, len == 0) == Digits(m / 128 - 1, false) + [m % 128 + flag];
      m := m / 128 - 1;
      len := len + 1;
      assert Digits(m, false) + Reversed(tmp) == Encoded(n);
    }
    assert tmp[..len + 1] == tmp;
    out := [];
    var i := len;
    while i >= 0
      invariant -1 <= i <= len == |tmp| - 1
      invariant out + Reversed(tmp[..i + 1]) == Encoded(n)
    {
      assert tmp[..i + 1] == tmp[..i] + [tmp[i]];
      ReversedPush(tmp[..i], tmp[i]);
      out := out + [tmp[i]];
      i := i - 1;
    }
    assert tmp[..0] == [];
  }

  function Reversed(s: seq<Byte>): seq<Byte> {
    if s == [] then [] else [s[|s| - 1]] + Reversed(s[..|s| - 1])
  }

  lemma ReversedNone()
    ensures Reversed([]) == []
  {
  }

  lemma ReversedPush(s: seq<Byte>, x: Byte)
    ensures Reversed(s + [x]) == [x] + Reversed(s)
  {
    assert (s + [x])[..|s|] == s;
  }

  /** What is read from a stream that starts with the digits so far worth `n`. */
  function ReadFrom(n: int, modulus: int, stream: seq<Byte>): Option<(int, seq<Byte>)>
    requires modulus > 0
    decreases |stream|
  {
    if stream == [] then None
    else
      var ch := stream[0];
      var m := n * 128 + ch % 128;
      if ch >= 128 then ReadFrom((m + 1) % modulus, modulus, stream[1..]) else Some((m % modulus, stream[1..]))
  }

  function Decoded(modulus: int, stream: seq<Byte>): Option<(int, seq<Byte>)>
    requires modulus > 0
  {
    ReadFrom(0, modulus, stream)
  }

  // src/serialize.h:294-307
  method ReadVarInt(modulus: int, stream: seq<Byte>) returns (r: Option<(int, seq<Byte>)>)
    requires modulus > 0
    ensures r == Decoded(modulus, stream)
  {
    var n, rest := 0, stream;
    while rest != []
      invariant ReadFrom(n, modulus, rest) == Decoded(modulus, stream)
      decreases |rest|
    {
      var chData := rest[0];
      rest := rest[1..];
      var m := n * 128 + chData % 128;
      if chData >= 128 { n := (m + 1) % modulus; } else { return Some((m % modulus, rest)); }
    }
    return None;
  }

  /** What an encoded number is read back as: itself, or the low seven bits of a negative one. */
  function Kept(n: int): int { if n < 0 then n % 128 else n }

  /** Reading leading digits builds up their value plus one. */
  lemma {:induction false} ReadDigits(n: int, modulus: int, rest: seq<Byte>)
    requires 0 <= n && n + 1 < modulus
    ensures ReadFrom(0, modulus, Digits(n, false) + rest) == ReadFrom(n + 1, modulus, rest)
    decreases n
  {
    hide ReadFrom;
    var d := n % 128 + 128;
    if n <= 127 {
      assert Digits(n, false) == [d];
      ReadDigit(0, modulus, d, rest);
    } else {
      var q := n / 128 - 1;
      assert Digits(n, false) + rest == Digits(q, false) + ([d] + rest);
      ReadDigits(q, modulus, [d] + rest);
      ReadDigit(q + 1, modulus, d, rest);
    }
  }

  lemma ReadDigit(high: nat, modulus: int, d: Byte, rest: seq<Byte>)
    requires d >= 128 && high * 128 + d - 127 < modulus
    ensures ReadFrom(high, modulus, [d] + rest) == ReadFrom(high * 128 + d - 127, modulus, rest)
  {
    assert ([d] + rest)[1..] == rest;
    SmallMod(high * 128 + d - 127, modulus);
  }

  lemma SmallMod(a: int, m: int)
    requires 0 <= a < m
    ensures a % m == a
  {
  }

  /** Every number within the type reads back as what it keeps, and nothing of the rest is touched. */
  lemma RoundTrip(n: int, modulus: int, rest: seq<Byte>)
    requires Kept(n) < modulus && 128 <= modulus
    ensures Decoded(modulus, Encoded(n) + rest) == Some((Kept(n), rest))
  {
    if n <= 127 {
      assert ([n % 128] + rest)[1..] == rest;
      SmallMod(n % 128, modulus);
    } else {
      var q, d := n / 128 - 1, n % 128;
      assert Encoded(n) + rest == Digits(q, false) + ([d] + rest);
      ReadDigits(q, modulus, [d] + rest);
      assert ([d] + rest)[1..] == rest;
      assert (q + 1) * 128 + d == n;
      SmallMod(n, modulus);
    }
  }

  /** A signed number survives exactly when it is not negative. */
  lemma SurvivesIff(n: int, modulus: int, rest: seq<Byte>)
    requires n < modulus && 128 <= modulus
    ensures Decoded(modulus, Encoded(n) + rest) == Some((n, rest)) <==> n >= 0
  {
    RoundTrip(n, modulus, rest);
  }

  function Pow128(k: nat): nat { if k == 0 then 1 else 128 * Pow128(k - 1) }

  /** The temporary buffer of five bytes for 32 bits, or ten for 64, is never overrun. */
  lemma {:induction false} DigitsFit(n: int, last: bool, k: nat)
    requires k > 0 && 0 <= n < Pow128(k)
    ensures |Digits(n, last)| <= k
    decreases k
  {
    if n > 127 {
      assert n / 128 - 1 < Pow128(k - 1);
      DigitsFit(n / 128 - 1, false, k - 1);
    }
  }

  lemma BuffersSuffice(n: int)
    ensures n < 0x1_0000_0000 ==> |Encoded(n)| <= (32 + 6) / 7
    ensures n < 0x1_0000_0000_0000_0000 ==> |Encoded(n)| <= (64 + 6) / 7
  {
    if n >= 0 {
      Powers();
      if n < 0x1_0000_0000 { DigitsFit(n, true, 5); }
      if n < 0x1_0000_0000_0000_0000 { DigitsFit(n, true, 10); }
    }
  }

  lemma Powers()
    ensures Pow128(5) == 0x8_0000_0000 && Pow128(10) == 0x40_0000_0000_0000_0000
  {
    assert Pow128(1) == 128;
    assert Pow128(2) == 0x4000;
    assert Pow128(3) == 0x20_0000;
    assert Pow128(4) == 0x1000_0000;
    assert Pow128(5) == 0x8_0000_0000;
    assert Pow128(6) == 0x400_0000_0000;
    assert Pow128(7) == 0x2_0000_0000_0000;
    assert Pow128(8) == 0x100_0000_0000_0000;
    assert Pow128(9) == 0x8000_0000_0000_0000;
  }
}

/** Plain KECCAK[1024] with 512 bits of output: the sponge over bit strings (FIPS 202, sections 4
    and 5). */
module KeccakSponge {
  import opened Common
  import opened Words
  import opened KeccakSpec

  const RATE: nat := 576

  /** Block bit 64i + z goes into bit z of lane i. */
  function AbsorbBits(a: Lanes, p: seq<bool>): Lanes
    requires |p| == RATE
  {
    seq(25, (i: nat) requires i < 25 => if i < 9 then Xor(a[i], p[64 * i..64 * i + 64]) else a[i])
  }

  /** The state after the first `n` blocks of `p`. */
  function AbsorbAll(a: Lanes, p: seq<bool>, n: nat): Lanes
    requires RATE * n <= |p|
  {
    if n == 0 then a else KeccakF(AbsorbBits(AbsorbAll(a, p, n - 1), Block(p, n - 1)))
  }

  function Block(p: seq<bool>, n: nat): (r: seq<bool>)
    requires RATE * n + RATE <= |p|
    ensures |r| == RATE
  {
    p[RATE * n..RATE * n + RATE]
  }

  /** A one, as few zeros as it takes, and a one (pad10*1). */
  function Pad(m: nat): (r: seq<bool>)
    ensures (m + |r|) % RATE == 0
  {
    [true] + Zeros((RATE - (m + 2) % RATE) % RATE) + [true]
  }

  function Joined(w: seq<Word>): (r: seq<bool>)
    ensures |r| == 64 * |w|
  {
    if w == [] then [] else Joined(w[..|w| - 1]) + w[|w| - 1]
  }

  /** The digest of a string of bits. */
  function Keccak512(n: seq<bool>): (r: seq<bool>)
    ensures |r| == 512
  {
    var p := n + Pad(|n|);
    Joined(AbsorbAll(Empty(), p, |p| / RATE)[..8])
  }

  /** Blocks that come later make no difference. */
  lemma {:induction false} AbsorbPrefix(a: Lanes, p: seq<bool>, q: seq<bool>, n: nat)
    requires RATE * n <= |p|
    ensures AbsorbAll(a, p + q, n) == AbsorbAll(a, p, n)
    decreases n
  {
    hide KeccakF, AbsorbBits;
    if n > 0 {
      AbsorbPrefix(a, p, q, n - 1);
      assert Block(p + q, n - 1) == Block(p, n - 1);
    }
  }

  // --- Bytes ----------------------------------------------------------------------------------

  /** The bits of a string of bytes, least significant first. */
  function BitsOf(s: seq<Byte>): (r: seq<bool>)
    ensures |r| == 8 * |s|
  {
    seq(8 * |s|, (k: nat) requires k < 8 * |s| => Bit(s[k / 8], k % 8))
  }

  lemma BitsOfAppend(s: seq<Byte>, t: seq<Byte>)
    ensures BitsOf(s + t) == BitsOf(s) + BitsOf(t)
  {
    forall k: nat | k < 8 * |s + t|
      ensures BitsOf(s + t)[k] == (BitsOf(s) + BitsOf(t))[k]
    {
      if k < 8 * |s| {
        assert k / 8 < |s|;
      } else {
        assert (k - 8 * |s|) / 8 == k / 8 - |s| && (k - 8 * |s|) % 8 == k % 8;
      }
    }
  }

  /** Eight bytes as a word, as sph_dec64le reads them. */
  function Dec64(s: seq<Byte>): Word
    requires |s| == 8
  {
    BitsOf(s)
  }

  lemma Dec64Bits(s: seq<Byte>, j: nat)
    requires 8 * j + 8 <= |s|
    ensures Dec64(s[8 * j..8 * j + 8]) == BitsOf(s)[64 * j..64 * j + 64]
  {
    var d, b := Dec64(s[8 * j..8 * j + 8]), BitsOf(s)[64 * j..64 * j + 64];
    forall z: nat | z < 64
      ensures d[z] == b[z]
    {
      assert (64 * j + z) / 8 == 8 * j + z / 8 && (64 * j + z) % 8 == z % 8;
    }
  }

  /** The number that a string of bits, least significant first, stands for. */
  function NumberOf(b: seq<bool>): nat { if b == [] then 0 else (if b[0] then 1 else 0) + 2 * NumberOf(b[1..]) }

  lemma {:induction false} NumberBit(b: seq<bool>, z: nat)
    requires z < |b|
    ensures Bit(NumberOf(b), z) == b[z]
    decreases |b|
  {
    if z > 0 {
      NumberBit(b[1..], z - 1);
      assert NumberOf(b) / 2 == NumberOf(b[1..]);
    }
  }

  lemma {:induction false} NumberBound(b: seq<bool>, p: nat)
    requires |b| <= 8 && p == [1, 2, 4, 8, 16, 32, 64, 128, 256][|b|]
    ensures NumberOf(b) < p
    decreases |b|
  {
    if b != [] { NumberBound(b[1..], p / 2); }
  }

  /** A word as eight bytes, as sph_enc64le writes it. */
  function Enc64(w: Word): (r: seq<Byte>)
    ensures |r| == 8
  {
    seq(8, (k: nat) requires k < 8 => EncByte(w, k))
  }

  function EncByte(w: Word, k: nat): Byte
    requires k < 8
  {
    NumberBound(w[8 * k..8 * k + 8], 256);
    NumberOf(w[8 * k..8 * k + 8])
  }

  /** Reading back a word gives the word. */
  lemma EncDec(w: Word)
    ensures Dec64(Enc64(w)) == w
  {
    var b := BitsOf(Enc64(w));
    forall z: nat | z < |b|
      ensures b[z] == w[z]
    {
      NumberBit(w[8 * (z / 8)..8 * (z / 8) + 8], z % 8);
    }
  }

  // --- Padding in bytes -----------------------------------------------------------------------

  /** The first `n` extra bits of a message: the top `n` bits of `ub`, lowest first. */
  function Extra(ub: Byte, n: nat): (r: seq<bool>)
    requires n <= 7
    ensures |r| == n
  {
    seq(n, (i: nat) requires i < n => Bit(ub, 8 - n + i))
  }

  /** A one set above the bits of a number. */
  lemma {:induction false} TopBit(x: nat, k: nat, i: nat)
    requires x < Pow2(k)
    ensures Bit(Pow2(k) + x, i) == if i < k then Bit(x, i) else i == k
    decreases k
  {
    if k == 0 {
      if i > 0 { NoBits(i - 1); }
    } else if i > 0 {
      TopBit(x / 2, k - 1, i - 1);
      assert (Pow2(k) + x) / 2 == Pow2(k - 1) + x / 2;
    }
  }

  /** The last bits of the message and the one that starts the padding, in one byte
      (src/keccak.c:1618). */
  function LastBits(ub: Byte, n: nat): (eb: nat)
    requires n <= 7
  {
    Halved(256 + ub, 8 - n)
  }

  lemma LastBitsAre(ub: Byte, n: nat, i: nat)
    requires n <= 7
    ensures Bit(LastBits(ub, n), i) == if i < n then Extra(ub, n)[i] else i == n
  {
    HalvedBit(256 + ub, 8 - n, i);
    TopBit(ub, 8, 8 - n + i);
    assert Pow2(8) == 256;
  }

  lemma {:induction false} HalvedBound(x: nat, k: nat, p: nat)
    requires x < Pow2(k) * p
    ensures Halved(x, k) < p
    decreases k
  {
    if k > 0 { HalvedBound(x / 2, k - 1, p); }
  }

  lemma LastBitsBound(ub: Byte, n: nat)
    requires n <= 7
    ensures LastBits(ub, n) < 2 * Pow2(n) <= 256
  {
    PowSplit(8 - n, n);
    HalvedBound(256 + ub, 8 - n, 2 * Pow2(n));
  }

  lemma PowSplit(a: nat, n: nat)
    requires a + n == 8 && n <= 7
    ensures Pow2(a) * (2 * Pow2(n)) == 512 && Pow2(n) <= 128
  {
    assert Pow2(1) == 2 && Pow2(2) == 4 && Pow2(3) == 8 && Pow2(4) == 16 && Pow2(5) == 32 && Pow2(6) == 64 && Pow2(7) == 128 && Pow2(8) == 256;
    if n == 0 { } else if n == 1 { } else if n == 2 { } else if n == 3 { } else if n == 4 { } else if n == 5 { } else if n == 6 { } else { }
  }

  const LIM: nat := 72

  /** What closing feeds to the sponge when `ptr` bytes are waiting (src/keccak.c:1618-1634). */
  function PadBytes(ptr: nat, ub: Byte, n: nat): seq<Byte>
    requires ptr < LIM && n <= 7
  {
    LastBitsBound(ub, n);
    var eb := LastBits(ub, n);
    if ptr == LIM - 1 then
      if n == 7 then [eb] + ZeroBytes(LIM - 1) + [0x80]
      else (PowSmall(n); [eb + 0x80])
    else [eb] + ZeroBytes(LIM - ptr - 2) + [0x80]
  }

  lemma PowSmall(n: nat)
    requires n < 7
    ensures 2 * Pow2(n) <= 128
  {
    assert Pow2(1) == 2 && Pow2(2) == 4 && Pow2(3) == 8 && Pow2(4) == 16 && Pow2(5) == 32 && Pow2(6) == 64;
    if n == 0 { } else if n == 1 { } else if n == 2 { } else if n == 3 { } else if n == 4 { } else if n == 5 { } else { }
  }

  /** As bits, the padding bytes are the extra bits of the message and pad10*1. */
  lemma PadBytesArePad(ptr: nat, q: nat, ub: Byte, n: nat)
    requires ptr < LIM && n <= 7
    ensures BitsOf(PadBytes(ptr, ub, n)) == Extra(ub, n) + Pad(8 * (LIM * q + ptr) + n)
  {
    hide Bit, LastBits, Extra, Pow2;
    var tmp, m := PadBytes(ptr, ub, n), 8 * (LIM * q + ptr) + n;
    var want := Extra(ub, n) + Pad(m);
    PadLength(ptr, q, n);
    assert |want| == 8 * |tmp|;
    forall k: nat | k < 8 * |tmp|
      ensures BitsOf(tmp)[k] == want[k]
    {
      PadBit(ptr, ub, n, k);
    }
  }

  lemma PadLength(ptr: nat, q: nat, n: nat)
    requires ptr < LIM && n <= 7
    ensures n + |Pad(8 * (LIM * q + ptr) + n)| == 8 * (if ptr == LIM - 1 && n == 7 then LIM + 1 else LIM - ptr)
  {
    var r := 8 * ptr + n + 2;
    assert 8 * (LIM * q + ptr) + n + 2 == RATE * q + r;
    if r < RATE { BlockRemainder(q, r); } else { BlockRemainder(q + 1, r - RATE); }
  }

  lemma BlockRemainder(q: nat, r: nat)
    requires r < RATE
    ensures (RATE * q + r) % RATE == r
  {
  }

  lemma PadBit(ptr: nat, ub: Byte, n: nat, k: nat)
    requires ptr < LIM && n <= 7 && k < 8 * |PadBytes(ptr, ub, n)|
    ensures BitsOf(PadBytes(ptr, ub, n))[k] ==
            if k < n then Extra(ub, n)[k] else k == n || k == 8 * |PadBytes(ptr, ub, n)| - 1
  {
    hide Bit, Extra, LastBits;
    var tmp, eb := PadBytes(ptr, ub, n), LastBits(ub, n);
    LastBitsBound(ub, n);
    LastBitsAre(ub, n, k % 8);
    TopBit(0, 7, k % 8);
    NoBits(k % 8);
    assert Pow2(7) == 128;
    if n < 7 {
      PowSmall(n);
      TopBit(eb, 7, k % 8);
    }
  }
}

/** BLAKE-512 as iterated hashing of a string of bits (section 2.2 of the SHA-3 proposal BLAKE); the
    compression function is a parameter. */
module BlakeSpec {
  import opened Common
  import opened Words

  const BLOCK: nat := 1024
  const U64: nat := 0x1_0000_0000_0000_0000
  const U128: nat := 0x1_0000_0000_0000_0000_0000_0000_0000_0000

  /** A start value and a compression function of chain value, block and counter. */
  datatype Scheme<!H> = Scheme(iv: H, compress: (H, seq<bool>, nat) -> H)

  /** The counter of block `i` of a message of `len` bits: how many message bits have been hashed
      with it, or 0 when the block has none. */
  function Counter(len: nat, i: nat): nat {
    if BLOCK * i >= len then 0 else if BLOCK * (i + 1) <= len then BLOCK * (i + 1) else len
  }

  function Slice(p: seq<bool>, i: nat): seq<bool>
    requires BLOCK * i + BLOCK <= |p|
  {
    p[BLOCK * i..BLOCK * i + BLOCK]
  }

  /** The chain value after `n` blocks of a padded message that has `len` bits of its own. */
  function Chain<H>(s: Scheme<H>, p: seq<bool>, len: nat, n: nat): H
    requires BLOCK * n <= |p|
  {
    if n == 0 then s.iv else s.compress(Chain(s, p, len, n - 1), Slice(p, n - 1), Counter(len, n - 1) % U128)
  }

  /** A one, zeros up to 895 bits beyond a whole block, a one, and the length in 128 bits. */
  function Pad(len: nat): (r: seq<bool>)
    ensures (len + |r|) % BLOCK == 0
  {
    PadLength(len);
    [true] + Zeros((BLOCK - (len + 130) % BLOCK) % BLOCK) + [true] + Be64(len / U64 % U64) + Be64(len % U64)
  }

  lemma PadLength(len: nat)
    ensures (len + 130 + (BLOCK - (len + 130) % BLOCK) % BLOCK) % BLOCK == 0
  {
  }

  /** The 64 bits of a number, most significant first. */
  function Be64(x: nat): (r: seq<bool>)
    ensures |r| == 64
  {
    seq(64, (k: nat) requires k < 64 => Bit(x, 63 - k))
  }

  function Digest<H>(s: Scheme<H>, m: seq<bool>): H {
    var p := m + Pad(|m|);
    Chain(s, p, |m|, |p| / BLOCK)
  }

  // --- Bytes ----------------------------------------------------------------------------------

  /** The bits of a string of bytes, most significant first. */
  function MsbBits(s: seq<Byte>): (r: seq<bool>)
    ensures |r| == 8 * |s|
  {
    seq(8 * |s|, (k: nat) requires k < 8 * |s| => Bit(s[k / 8], 7 - k % 8))
  }

  lemma MsbAppend(s: seq<Byte>, t: seq<Byte>)
    ensures MsbBits(s + t) == MsbBits(s) + MsbBits(t)
  {
    forall k: nat | k < 8 * |s + t|
      ensures MsbBits(s + t)[k] == (MsbBits(s) + MsbBits(t))[k]
    {
      if k < 8 * |s| {
        assert k / 8 < |s|;
      } else {
        assert (k - 8 * |s|) / 8 == k / 8 - |s| && (k - 8 * |s|) % 8 == k % 8;
      }
    }
  }

  /** The low `k` bits of a number. */
  function Low(y: nat, k: nat): (r: nat)
    ensures r < Pow2(k)
    decreases k
  {
    if k == 0 then 0 else y % 2 + 2 * Low(y / 2, k - 1)
  }

  lemma {:induction false} LowBit(y: nat, k: nat, p: nat)
    requires p < k
    ensures Bit(Low(y, k), p) == Bit(y, p)
    decreases k
  {
    if p > 0 {
      LowBit(y / 2, k - 1, p - 1);
      assert Low(y, k) / 2 == Low(y / 2, k - 1);
    }
  }

  function LowByte(y: nat): Byte {
    assert Pow2(8) == 256;
    Low(y, 8)
  }

  /** A number in eight bytes, most significant first, as sph_enc64be writes it. */
  function Enc64Be(x: nat): (r: seq<Byte>)
    ensures |r| == 8
  {
    seq(8, (k: nat) requires k < 8 => LowByte(Halved(x, 8 * (7 - k))))
  }

  lemma EncBit(x: nat, k: nat, z: nat)
    requires k < 8 && z < 8
    ensures Bit(Enc64Be(x)[k], 7 - z) == Bit(x, 8 * (7 - k) + (7 - z))
  {
    hide Low, Halved, Bit;
    LowBit(Halved(x, 8 * (7 - k)), 8, 7 - z);
    HalvedBit(x, 8 * (7 - k), 7 - z);
  }

  lemma Enc64BeBits(x: nat)
    ensures MsbBits(Enc64Be(x)) == Be64(x)
  {
    hide Bit, Enc64Be;
    var a, b := MsbBits(Enc64Be(x)), Be64(x);
    forall k: nat | k < |a|
      ensures a[k] == b[k]
    {
      EncBit(x, k / 8, k % 8);
      assert 63 - k == 8 * (7 - k / 8) + (7 - k % 8);
    }
  }

  /** The top `n` bits of a byte. */
  function Extra(ub: Byte, n: nat): (r: seq<bool>)
    requires n <= 7
    ensures |r| == n
  {
    seq(n, (k: nat) requires k < n => Bit(ub, 7 - k))
  }

  /** Bits above `j` kept, bit `j` set, bits below it cleared. */
  function Marked(x: nat, j: nat): nat
    decreases j
  {
    if j == 0 then x / 2 * 2 + 1 else 2 * Marked(x / 2, j - 1)
  }

  lemma {:induction false} MarkedBit(x: nat, j: nat, p: nat)
    ensures Bit(Marked(x, j), p) == if p > j then Bit(x, p) else p == j
    decreases j
  {
    if j > 0 && p > 0 { MarkedBit(x / 2, j - 1, p - 1); }
  }

  lemma {:induction false} MarkedBound(x: nat, j: nat, m: nat)
    requires x < Pow2(m) && j < m
    ensures Marked(x, j) < Pow2(m)
    decreases j
  {
    if j > 0 { MarkedBound(x / 2, j - 1, m - 1); }
  }

  // --- What closing feeds in ------------------------------------------------------------------

  const SIZE: nat := 128

  /** The byte with the last `n` message bits and the one that starts the padding
      (src/blake.c:958-960). */
  function LastByte(ub: Byte, n: nat): Byte
    requires n <= 7
  {
    assert Pow2(8) == 256;
    MarkedBound(ub, 7 - n, 8);
    Marked(ub, 7 - n)
  }

  /** Byte 111 of the block takes the one in front of the length. */
  function WithOne(b: seq<Byte>): (r: seq<Byte>)
    requires b != [] && b[|b| - 1] % 2 == 0
    ensures |r| == |b|
  {
    b[|b| - 1 := b[|b| - 1] + 1]
  }

  /** The bytes up to the length when it still fits the block (src/blake.c:973-975). */
  function ShortTail(ptr: nat, ub: Byte, n: nat): (r: seq<Byte>)
    requires n <= 7 && 8 * ptr + n <= 894
    ensures |r| == 112 - ptr
  {
    LastByteEven(ub, n);
    WithOne([LastByte(ub, n)] + ZeroBytes(111 - ptr))
  }

  lemma LastByteEven(ub: Byte, n: nat)
    requires n <= 7
    ensures n < 7 ==> LastByte(ub, n) % 2 == 0
  {
    MarkedBit(ub, 7 - n, 0);
  }

  /** The bytes that complete the block when it does not (src/blake.c:980). */
  function LongTail(ptr: nat, ub: Byte, n: nat): (r: seq<Byte>)
    requires n <= 7 && ptr < SIZE
    ensures |r| == SIZE - ptr
  {
    [LastByte(ub, n)] + ZeroBytes(127 - ptr)
  }

  function Trailer(th: nat, tl: nat): (r: seq<Byte>)
    ensures |r| == 16
  {
    Enc64Be(th) + Enc64Be(tl)
  }

  lemma LastByteBits(ub: Byte, n: nat, z: nat)
    requires n <= 7 && z < 8
    ensures Bit(LastByte(ub, n), 7 - z) == if z < n then Extra(ub, n)[z] else z == n
  {
    MarkedBit(ub, 7 - n, 7 - z);
  }

  lemma TrailerBits(th: nat, tl: nat)
    ensures MsbBits(Trailer(th, tl)) == Be64(th) + Be64(tl)
  {
    hide MsbBits, Be64, Enc64Be;
    MsbAppend(Enc64Be(th), Enc64Be(tl));
    Enc64BeBits(th);
    Enc64BeBits(tl);
  }

  lemma {:induction false} AddOneBit(x: nat, p: nat)
    requires x % 2 == 0
    ensures Bit(x + 1, p) == (Bit(x, p) || p == 0)
  {
    if p > 0 { assert (x + 1) / 2 == x / 2; }
  }

  /** When the length fits, the bytes fed in are the extra bits and the padding. */
  lemma ShortPad(ptr: nat, q: nat, ub: Byte, n: nat)
    requires n <= 7 && 8 * ptr + n <= 894
    ensures var len := BLOCK * q + 8 * ptr + n;
            MsbBits(ShortTail(ptr, ub, n) + Trailer(len / U64 % U64, len % U64)) == Extra(ub, n) + Pad(len)
  {
    hide Bit, Be64, Extra, LastByte, Enc64Be, Trailer, ShortTail, MsbBits;
    var len := BLOCK * q + 8 * ptr + n;
    var tail := ShortTail(ptr, ub, n);
    MsbAppend(tail, Trailer(len / U64 % U64, len % U64));
    TrailerBits(len / U64 % U64, len % U64);
    ShortZeros(q, 8 * ptr + n);
    var want := Extra(ub, n) + ([true] + Zeros(894 - 8 * ptr - n) + [true]);
    assert Extra(ub, n) + Pad(len) == want + (Be64(len / U64 % U64) + Be64(len % U64));
    var got := MsbBits(tail);
    assert |got| == |want|;
    forall k: nat | k < |got|
      ensures got[k] == want[k]
    {
      ShortBit(ptr, ub, n, k);
    }
  }

  lemma BlockRemainder(q: nat, r: nat)
    requires r <= BLOCK
    ensures (BLOCK * q + r) % BLOCK == r % BLOCK
  {
  }

  lemma ShortBit(ptr: nat, ub: Byte, n: nat, k: nat)
    requires n <= 7 && 8 * ptr + n <= 894 && k < 896 - 8 * ptr
    ensures MsbBits(ShortTail(ptr, ub, n))[k] == if k < n then Extra(ub, n)[k] else k == n || k == 895 - 8 * ptr
  {
    hide Bit, Extra, LastByte;
    LastByteEven(ub, n);
    var plain := [LastByte(ub, n)] + ZeroBytes(111 - ptr);
    LastByteBits(ub, n, k % 8);
    NoBits(7 - k % 8);
    AddOneBit(plain[|plain| - 1], 7 - k % 8);
  }

  /** When it does not, the padding takes this block and all of the next. */
  lemma LongPad(ptr: nat, q: nat, ub: Byte, n: nat)
    requires n <= 7 && ptr < SIZE && 895 <= 8 * ptr + n
    ensures var len := BLOCK * q + 8 * ptr + n;
            MsbBits(LongTail(ptr, ub, n) + (ZeroBytes(111) + [1] + Trailer(len / U64 % U64, len % U64))) == Extra(ub, n) + Pad(len)
  {
    hide Bit, Be64, Extra, LastByte, Enc64Be, Trailer, LongTail, MsbBits;
    var len := BLOCK * q + 8 * ptr + n;
    var head := LongTail(ptr, ub, n) + (ZeroBytes(111) + [1]);
    var trailer := Trailer(len / U64 % U64, len % U64);
    assert LongTail(ptr, ub, n) + (ZeroBytes(111) + [1] + trailer) == head + trailer;
    MsbAppend(head, trailer);
    TrailerBits(len / U64 % U64, len % U64);
    LongZeros(q, 8 * ptr + n);
    var want := Extra(ub, n) + ([true] + Zeros(1918 - 8 * ptr - n) + [true]);
    assert Extra(ub, n) + Pad(len) == want + (Be64(len / U64 % U64) + Be64(len % U64));
    var got := MsbBits(head);
    assert |got| == |want|;
    forall k: nat | k < |got|
      ensures got[k] == want[k]
    {
      LongBit(ptr, ub, n, k);
    }
  }

  lemma ShortZeros(q: nat, r: nat)
    requires r <= 894
    ensures (BLOCK - (BLOCK * q + r + 130) % BLOCK) % BLOCK == 894 - r
  {
    BlockRemainder(q, r + 130);
  }

  lemma LongZeros(q: nat, r: nat)
    requires 895 <= r <= 1023
    ensures (BLOCK - (BLOCK * q + r + 130) % BLOCK) % BLOCK == 1918 - r
  {
    BlockRemainder(q + 1, r + 130 - BLOCK);
  }

  lemma LongBit(ptr: nat, ub: Byte, n: nat, k: nat)
    requires n <= 7 && ptr < SIZE && 895 <= 8 * ptr + n && k < 1920 - 8 * ptr
    ensures MsbBits(LongTail(ptr, ub, n) + (ZeroBytes(111) + [1]))[k] ==
            if k < n then Extra(ub, n)[k] else k == n || k == 1919 - 8 * ptr
  {
    hide Bit, Extra, LastByte;
    LastByteBits(ub, n, k % 8);
    NoBits(7 - k % 8);
    AddOneBit(0, 7 - k % 8);
  }
}

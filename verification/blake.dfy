/** The streaming context of BLAKE-512 (src/blake.c:891-994). */
module Blake {
  import opened Common
  import opened BlakeSpec

  function Piece(data: seq<Byte>, k: nat): (r: seq<Byte>)
    requires SIZE * k + SIZE <= |data|
    ensures |r| == SIZE
  {
    data[SIZE * k..SIZE * k + SIZE]
  }

  /** The chain value after `k` blocks of `data`, when chain value and counter started at `h` and `t`. */
  function Fold<H>(s: Scheme<H>, h: H, t: nat, data: seq<Byte>, k: nat): H
    requires SIZE * k <= |data|
  {
    if k == 0 then h else s.compress(Fold(s, h, t, data, k - 1), MsbBits(Piece(data, k - 1)), (t + BLOCK * k) % U128)
  }

  lemma {:induction false} FoldPrefix<H>(s: Scheme<H>, h: H, t: nat, data: seq<Byte>, more: seq<Byte>, k: nat)
    requires SIZE * k <= |data|
    ensures Fold(s, h, t, data + more, k) == Fold(s, h, t, data, k)
    decreases k
  {
    hide MsbBits;
    if k > 0 {
      FoldPrefix(s, h, t, data, more, k - 1);
      assert Piece(data + more, k - 1) == Piece(data, k - 1);
    }
  }

  /** A 128-bit counter kept in two words. */
  function Joined(t0: nat, t1: nat): nat { t1 * U64 + t0 }

  /** Adding a block's worth of bits to the low word and the carry to the high one adds it to the
      counter, whatever the counter is (src/blake.c:933-934). */
  lemma CounterStep(t0: nat, t1: nat)
    requires t0 < U64 && t1 < U64
    ensures var u0 := (t0 + BLOCK) % U64; var u1 := if u0 < BLOCK then (t1 + 1) % U64 else t1;
            u0 < U64 && u1 < U64 && Joined(u0, u1) == (Joined(t0, t1) + BLOCK) % U128
  {
    var sum := t0 + BLOCK;
    if sum >= U64 {
      assert sum % U64 == sum - U64;
    }
  }

  class Context<H> {
    const scheme: Scheme<H>
    const buf: array<Byte>
    var ptr: nat
    var h: H
    var t0: nat
    var t1: nat

    ghost predicate Valid()
      reads this, buf
    {
      buf.Length == SIZE && ptr < SIZE && t0 < U64 && t1 < U64
    }

    /** The context has taken in `data` since its chain value and counter were `h0` and `c`. */
    ghost predicate Holds(h0: H, c: nat, data: seq<Byte>)
      reads this, buf
    {
      && Valid()
      && ptr == |data| % SIZE && buf[..ptr] == data[|data| - ptr..]
      && Joined(t0, t1) == (c + BLOCK * (|data| / SIZE)) % U128
      && h == Fold(scheme, h0, c, data, |data| / SIZE)
    }

    // src/blake.c:895-903
    constructor (s: Scheme<H>)
      ensures fresh(buf) && scheme == s && Holds(s.iv, 0, [])
    {
      scheme := s;
      buf := new Byte[SIZE](_ => 0);
      h, t0, t1, ptr := s.iv, 0, 0, 0;
      new;
      assert buf[..0] == [];
    }

    // memcpy(buf + at, d, |d|)
    method CopyIn(at: nat, d: seq<Byte>)
      requires Valid() && at + |d| <= SIZE
      modifies buf
      ensures buf[..at + |d|] == old(buf[..at]) + d
    {
      forall i | 0 <= i < |d| {
        buf[at + i] := d[i];
      }
    }

    // src/blake.c:925-937; `d` is what fits
    method Take(d: seq<Byte>, ghost h0: H, ghost c: nat, ghost done: seq<Byte>)
      requires Holds(h0, c, done) && |d| <= SIZE - ptr
      modifies this`ptr, this`h, this`t0, this`t1, buf
      ensures Holds(h0, c, done + d)
    {
      hide MsbBits, Fold, Joined;
      CopyIn(ptr, d);
      var p := ptr + |d|;
      assert buf[..p] == (done + d)[|done + d| - p..];
      if p == SIZE {
        FoldNext(scheme, h0, c, done, d);
        CounterStep(t0, t1);
        NextCount(c, |done| / SIZE, Joined(t0, t1));
        t0 := (t0 + BLOCK) % U64;
        if t0 < BLOCK { t1 := (t1 + 1) % U64; }
        h := scheme.compress(h, MsbBits(buf[..]), Joined(t0, t1));
        assert buf[..] == buf[..p];
        p := 0;
      } else {
        FoldSame(scheme, h0, c, done, d);
      }
      ptr := p;
    }

    // src/blake.c:905-941
    method Core(data: seq<Byte>, ghost h0: H, ghost c: nat, ghost msg: seq<Byte>)
      requires Holds(h0, c, msg)
      modifies this`ptr, this`h, this`t0, this`t1, buf
      ensures Holds(h0, c, msg + data)
    {
      hide Holds;
      HoldsValid(h0, c, msg);
      if |data| < SIZE - ptr {
        Take(data, h0, c, msg);
        return;
      }
      var rest := data;
      ghost var done := msg;
      while |rest| > 0
        invariant done + rest == msg + data && Holds(h0, c, done) && ptr < SIZE
        decreases |rest|
      {
        var clen := SIZE - ptr;
        if clen > |rest| { clen := |rest|; }
        var d := rest[..clen];
        Take(d, h0, c, done);
        done := done + d;
        rest := rest[clen..];
        HoldsValid(h0, c, done);
      }
      assert done == msg + data;
    }

    /** Bytes that fill up the block: it is compressed with the counter one block on. */
    method Complete(bytes: seq<Byte>)
      requires Valid() && ptr + |bytes| == SIZE
      modifies this`ptr, this`h, this`t0, this`t1, buf
      ensures Valid() && ptr == 0
      ensures h == scheme.compress(old(h), MsbBits(old(buf[..ptr]) + bytes), (Joined(old(t0), old(t1)) + BLOCK) % U128)
    {
      hide MsbBits, Fold;
      ghost var tail, h1, c1 := buf[..ptr], h, Joined(t0, t1);
      assert tail == tail[|tail| - ptr..];
      FoldNone(scheme, h1, c1, tail);
      FoldOne(scheme, h1, c1, tail + bytes);
      Core(bytes, h1, c1, tail);
    }

    // src/blake.c:963-971
    method SetCounter(bit_len: nat, ghost q: nat)
      requires Valid() && Joined(t0, t1) == BLOCK * q % U128 && bit_len < BLOCK
      modifies this`t0, this`t1
      ensures Valid() && (Joined(t0, t1) + BLOCK) % U128 == Counter(BLOCK * q + bit_len, q) % U128
    {
      CloseCounter(t0, t1, q, bit_len);
      WholeBlocks(t0, t1, q);
      if bit_len == 0 {
        t0, t1 := U64 - BLOCK, U64 - 1;
      } else if t0 == 0 {
        t0 := U64 - BLOCK + bit_len;
        t1 := (t1 - 1) % U64;
      } else {
        t0 := t0 - (BLOCK - bit_len);
      }
    }

    /** The digest depends only on the message, however it was cut up. */
    // src/blake.c:943-994 with output size 8
    method Close(ub: Byte, n: nat, ghost msg: seq<Byte>) returns (dst: H)
      requires Holds(scheme.iv, 0, msg) && n <= 7
      modifies this`ptr, this`h, this`t0, this`t1, buf
      ensures dst == Digest(scheme, MsbBits(msg) + Extra(ub, n))
      ensures Holds(scheme.iv, 0, [])
    {
      hide MsbBits, Fold, ShortTail, LongTail, Trailer, Digest, Counter, Joined, Extra, Holds;
      HoldsStart(msg);
      ghost var q := |msg| / SIZE;
      var bit_len := 8 * ptr + n;
      var tl, th := (t0 + bit_len) % U64, t1;
      LengthWords(t0, t1, q, bit_len);
      SetCounter(bit_len, q);
      if bit_len <= 894 {
        FinishShort(scheme, msg, ub, n, th, tl);
        Complete(ShortTail(ptr, ub, n) + Trailer(th, tl));
      } else {
        FinishLong(scheme, msg, ub, n, th, tl);
        Complete(LongTail(ptr, ub, n));
        t0, t1 := U64 - BLOCK, U64 - 1;
        NoCount();
        assert buf[..0] + (ZeroBytes(111) + [1] + Trailer(th, tl)) == ZeroBytes(111) + [1] + Trailer(th, tl);
        Complete(ZeroBytes(111) + [1] + Trailer(th, tl));
      }
      dst := h;
      Restart();
    }

    // src/blake.c:895-903
    method Restart()
      requires Valid()
      modifies this`ptr, this`h, this`t0, this`t1
      ensures Holds(scheme.iv, 0, [])
    {
      hide Fold, MsbBits;
      h, t0, t1, ptr := scheme.iv, 0, 0, 0;
      assert buf[..0] == [];
      FoldNone(scheme, scheme.iv, 0, []);
    }

    lemma HoldsStart(msg: seq<Byte>)
      requires Holds(scheme.iv, 0, msg)
      ensures Valid() && ptr == |msg| % SIZE && buf[..ptr] == msg[|msg| - ptr..]
      ensures Joined(t0, t1) == BLOCK * (|msg| / SIZE) % U128 && h == Fold(scheme, scheme.iv, 0, msg, |msg| / SIZE)
      ensures 8 * |msg| == BLOCK * (|msg| / SIZE) + 8 * ptr
    {
      hide Fold, Joined;
    }

    lemma HoldsValid(h0: H, c: nat, msg: seq<Byte>)
      requires Holds(h0, c, msg)
      ensures ptr < SIZE
    {
    }
  }

  lemma Quotient(q: nat, p: nat)
    requires p < SIZE
    ensures (SIZE * q + p) / SIZE == q && (SIZE * q + p) % SIZE == p
  {
  }

  lemma FoldSame<H>(s: Scheme<H>, h: H, t: nat, done: seq<Byte>, d: seq<Byte>)
    requires |done| % SIZE + |d| < SIZE
    ensures |done + d| % SIZE == |done| % SIZE + |d| && |done + d| / SIZE == |done| / SIZE
    ensures Fold(s, h, t, done + d, |done + d| / SIZE) == Fold(s, h, t, done, |done| / SIZE)
  {
    hide MsbBits;
    var q, p := |done| / SIZE, |done| % SIZE;
    assert |done + d| == SIZE * q + (p + |d|);
    Quotient(q, p + |d|);
    FoldPrefix(s, h, t, done, d, q);
  }

  lemma FoldNext<H>(s: Scheme<H>, h: H, t: nat, done: seq<Byte>, d: seq<Byte>)
    requires |done| % SIZE + |d| == SIZE
    ensures |done + d| % SIZE == 0 && |done + d| / SIZE == |done| / SIZE + 1
    ensures var all := done + d;
            Fold(s, h, t, all, |all| / SIZE)
            == s.compress(Fold(s, h, t, done, |done| / SIZE), MsbBits(all[|all| - SIZE..]), (t + BLOCK * (|done| / SIZE + 1)) % U128)
  {
    hide MsbBits;
    var q := |done| / SIZE;
    var all := done + d;
    assert |all| == SIZE * (q + 1);
    Quotient(q + 1, 0);
    FoldPrefix(s, h, t, done, d, q);
    assert Piece(all, q) == all[|all| - SIZE..];
  }

  lemma NextCount(c: nat, q: nat, t: nat)
    requires t == (c + BLOCK * q) % U128
    ensures (t + BLOCK) % U128 == (c + BLOCK * (q + 1)) % U128
  {
  }

  lemma FoldNone<H>(s: Scheme<H>, h: H, t: nat, data: seq<Byte>)
    requires |data| < SIZE
    ensures Fold(s, h, t, data, |data| / SIZE) == h
  {
  }

  lemma FoldOne<H>(s: Scheme<H>, h: H, t: nat, data: seq<Byte>)
    requires |data| == SIZE
    ensures Fold(s, h, t, data, |data| / SIZE) == s.compress(h, MsbBits(data), (t + BLOCK) % U128)
  {
    assert Piece(data, 0) == data;
    assert Fold(s, h, t, data, 0) == h;
  }

  lemma NoCount()
    ensures (Joined(U64 - BLOCK, U64 - 1) + BLOCK) % U128 == 0
  {
  }

  // --- Closing --------------------------------------------------------------------------------

  /** The two words hold a number of whole blocks. */
  lemma WholeBlocks(t0: nat, t1: nat, q: nat)
    requires t0 < U64 && t1 < U64 && Joined(t0, t1) == BLOCK * q % U128
    ensures t0 % BLOCK == 0 && t0 <= U64 - BLOCK
  {
    var k := BLOCK * q / U128;
    assert Joined(t0, t1) == BLOCK * q - k * U128;
    assert t0 == BLOCK * (q - k * (U128 / BLOCK) - t1 * (U64 / BLOCK));
  }

  /** The length field of the padding is the length of the message. */
  lemma LengthWords(t0: nat, t1: nat, q: nat, bits: nat)
    requires t0 < U64 && t1 < U64 && Joined(t0, t1) == BLOCK * q % U128 && bits < BLOCK
    ensures t0 + bits < U64
    ensures (BLOCK * q + bits) % U64 == (t0 + bits) % U64 && (BLOCK * q + bits) / U64 % U64 == t1
  {
    WholeBlocks(t0, t1, q);
    var k := BLOCK * q / U128;
    assert BLOCK * q + bits == (k * U64 + t1) * U64 + (t0 + bits);
    WordsOf(k, t1, t0 + bits);
  }

  lemma WordsOf(k: nat, hi: nat, lo: nat)
    requires hi < U64 && lo < U64
    ensures var n := (k * U64 + hi) * U64 + lo; n % U64 == lo && n / U64 % U64 == hi
  {
    var n := (k * U64 + hi) * U64 + lo;
    assert n / U64 == k * U64 + hi;
  }

  /** What the counter is set to makes the next block count the bits of the message, or nothing when
      that block holds none of them, whichever way the two words wrap. */
  lemma CloseCounter(t0: nat, t1: nat, q: nat, bits: nat)
    requires t0 < U64 && t1 < U64 && Joined(t0, t1) == BLOCK * q % U128 && bits < BLOCK
    ensures var u0 := if bits == 0 then U64 - BLOCK else if t0 == 0 then U64 - BLOCK + bits else t0 - (BLOCK - bits);
            var u1 := if bits == 0 then U64 - 1 else if t0 == 0 then (t1 - 1) % U64 else t1;
            && 0 <= u0 < U64 && 0 <= u1 < U64
            && (Joined(u0, u1) + BLOCK) % U128 == Counter(BLOCK * q + bits, q) % U128
  {
    WholeBlocks(t0, t1, q);
    if bits > 0 {
      assert Counter(BLOCK * q + bits, q) == BLOCK * q + bits;
      SameRemainder(BLOCK * q, bits);
    }
  }

  lemma SameRemainder(n: nat, bits: nat)
    ensures (n + bits) % U128 == (n % U128 + bits) % U128
  {
    var k := n / U128;
    assert n + bits == n % U128 + bits + k * U128;
  }

  lemma {:induction false} ChainIsFold<H>(s: Scheme<H>, all: seq<Byte>, len: nat, k: nat)
    requires SIZE * k <= |all| && BLOCK * k <= len
    ensures Chain(s, MsbBits(all), len, k) == Fold(s, s.iv, 0, all, k)
    decreases k
  {
    hide MsbBits;
    if k > 0 {
      ChainIsFold(s, all, len, k - 1);
      PieceBits(all, k - 1);
    }
  }

  lemma PieceBits(all: seq<Byte>, k: nat)
    requires SIZE * k + SIZE <= |all|
    ensures Slice(MsbBits(all), k) == MsbBits(Piece(all, k))
  {
    hide MsbBits;
    var a, b, c := all[..SIZE * k], Piece(all, k), all[SIZE * k + SIZE..];
    assert all == a + b + c;
    MsbAppend(a + b, c);
    MsbAppend(a, b);
  }

  /** The chain up to the block that holds the end of the message. */
  lemma ChainStart<H>(s: Scheme<H>, msg: seq<Byte>, pad: seq<Byte>, len: nat, q: nat)
    requires q == |msg| / SIZE && BLOCK * q <= len && |msg| + |pad| >= SIZE * (q + 1)
    ensures Chain(s, MsbBits(msg + pad), len, q) == Fold(s, s.iv, 0, msg, q)
    ensures Slice(MsbBits(msg + pad), q) == MsbBits((msg[|msg| - |msg| % SIZE..] + pad)[..SIZE])
  {
    hide MsbBits, Fold, Chain;
    assert |msg| == SIZE * q + |msg| % SIZE;
    ChainIsFold(s, msg + pad, len, q);
    FoldPrefix(s, s.iv, 0, msg, pad, q);
    PieceBits(msg + pad, q);
    assert Piece(msg + pad, q) == (msg[|msg| - |msg| % SIZE..] + pad)[..SIZE];
  }

  lemma FinishShort<H>(s: Scheme<H>, msg: seq<Byte>, ub: Byte, n: nat, th: nat, tl: nat)
    requires n <= 7 && 8 * (|msg| % SIZE) + n <= 894
    requires var len := 8 * |msg| + n; th == len / U64 % U64 && tl == len % U64
    ensures var q, tail, len := |msg| / SIZE, msg[|msg| - |msg| % SIZE..], 8 * |msg| + n;
            Digest(s, MsbBits(msg) + Extra(ub, n)) ==
            s.compress(Fold(s, s.iv, 0, msg, q), MsbBits(tail + (ShortTail(|tail|, ub, n) + Trailer(th, tl))), Counter(len, q) % U128)
  {
    hide MsbBits, Fold, ShortTail, Trailer, Pad, Counter;
    var q, ptr, len := |msg| / SIZE, |msg| % SIZE, 8 * |msg| + n;
    var pad := ShortTail(ptr, ub, n) + Trailer(th, tl);
    ShortPad(ptr, q, ub, n);
    MsbAppend(msg, pad);
    assert MsbBits(msg) + Extra(ub, n) + Pad(len) == MsbBits(msg + pad);
    ChainStart(s, msg, pad, len, q);
    var tail := msg[|msg| - ptr..];
    assert (tail + pad)[..SIZE] == tail + pad;
    assert |MsbBits(msg + pad)| / BLOCK == q + 1;
  }

  lemma FinishLong<H>(s: Scheme<H>, msg: seq<Byte>, ub: Byte, n: nat, th: nat, tl: nat)
    requires n <= 7 && 895 <= 8 * (|msg| % SIZE) + n
    requires var len := 8 * |msg| + n; th == len / U64 % U64 && tl == len % U64
    ensures var q, tail, len := |msg| / SIZE, msg[|msg| - |msg| % SIZE..], 8 * |msg| + n;
            var first := s.compress(Fold(s, s.iv, 0, msg, q), MsbBits(tail + LongTail(|tail|, ub, n)), Counter(len, q) % U128);
            Digest(s, MsbBits(msg) + Extra(ub, n)) == s.compress(first, MsbBits(ZeroBytes(111) + [1] + Trailer(th, tl)), 0)
  {
    hide MsbBits, Fold, LongTail, Trailer, Pad, Chain, Slice;
    var q, ptr, len := |msg| / SIZE, |msg| % SIZE, 8 * |msg| + n;
    var long, last := LongTail(ptr, ub, n), ZeroBytes(111) + [1] + Trailer(th, tl);
    var pad := long + last;
    LongPad(ptr, q, ub, n);
    MsbAppend(msg, pad);
    assert MsbBits(msg) + Extra(ub, n) + Pad(len) == MsbBits(msg + pad);
    ChainStart(s, msg, pad, len, q);
    var tail := msg[|msg| - ptr..];
    assert (tail + pad)[..SIZE] == tail + long;
    PieceBits(msg + pad, q + 1);
    assert Piece(msg + pad, q + 1) == last;
    assert |MsbBits(msg + pad)| / BLOCK == q + 2;
    assert Counter(len, q + 1) == 0;
    ChainNext(s, MsbBits(msg + pad), len, q);
    ChainNext(s, MsbBits(msg + pad), len, q + 1);
  }

  lemma ChainNext<H>(s: Scheme<H>, p: seq<bool>, len: nat, n: nat)
    requires BLOCK * n + BLOCK <= |p|
    ensures Chain(s, p, len, n + 1) == s.compress(Chain(s, p, len, n), Slice(p, n), Counter(len, n) % U128)
  {
  }
}

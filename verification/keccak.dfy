/** The streaming context of Keccak-512 (src/keccak.c:958-1647, 64-bit code, 8 rounds unrolled). */
module Keccak {
  import opened Common
  import opened Words
  import opened KeccakSpec
  import opened KeccakNames
  import opened KeccakLanes
  import opened KeccakSponge

  /** The lanes in the order of argument list `r`. */
  function View(w: seq<Word>, r: nat): Lanes
    requires Full(w) && r <= 8
  {
    seq(25, (i: nat) requires i < 25 => At(w, r, i))
  }

  function At(w: seq<Word>, r: nat, i: nat): Word
    requires Full(w) && r <= 8 && i < 25
  {
    PlaceInRange(r, i);
    w[Place(r, i)]
  }

  /** The next list shows the same lanes with pi applied. */
  lemma NextView(w: seq<Word>, r: nat)
    requires Full(w) && r < 8
    ensures View(w, r + 1) == Pi(View(w, r))
  {
    hide Place, PiFrom;
    forall i: nat | i < 25
      ensures View(w, r + 1)[i] == Pi(View(w, r))[i]
    {
      PlaceStep(r, i);
    }
  }

  lemma FirstView(w: seq<Word>)
    requires Full(w)
    ensures View(w, 0) == w
  {
    hide Place;
    forall i: nat | i < 25
      ensures View(w, 0)[i] == w[i]
    {
      PlaceZero(i);
    }
  }

  /** Write the lanes back under their names. */
  lemma Rewritten(w: seq<Word>, r: nat, b: Lanes)
    requires Full(w) && r <= 8
    requires forall i: nat :: i < 25 ==> At(w, r, i) == b[i]
    ensures View(w, r) == b
  {
    hide At;
  }

  /** The state that the first full blocks of a message lead to. */
  function StateAfter(msg: seq<Byte>): Lanes { AbsorbAll(Empty(), BitsOf(msg), |msg| / LIM) }

  lemma StateSame(msg: seq<Byte>, d: seq<Byte>)
    requires |msg| % LIM + |d| < LIM
    ensures StateAfter(msg + d) == StateAfter(msg)
    ensures |msg + d| % LIM == |msg| % LIM + |d|
  {
    hide KeccakF, AbsorbBits, AbsorbAll, BitsOf;
    BitsOfAppend(msg, d);
    AbsorbPrefix(Empty(), BitsOf(msg), BitsOf(d), |msg| / LIM);
    var q, p := |msg| / LIM, |msg| % LIM;
    assert |msg + d| == LIM * q + (p + |d|);
    Quotient(q, p + |d|);
  }

  lemma Quotient(q: nat, p: nat)
    requires p < LIM
    ensures (LIM * q + p) / LIM == q && (LIM * q + p) % LIM == p
  {
  }

  lemma StateStart()
    ensures StateAfter([]) == Empty()
  {
    hide KeccakF, AbsorbBits;
  }

  lemma StateNext(msg: seq<Byte>, d: seq<Byte>)
    requires |msg| % LIM + |d| == LIM
    ensures StateAfter(msg + d) == KeccakF(AbsorbBits(StateAfter(msg), BitsOf((msg + d)[|msg + d| - LIM..])))
    ensures |msg + d| % LIM == 0
  {
    hide KeccakF, AbsorbBits;
    var q, p, all := |msg| / LIM, |msg| % LIM, msg + d;
    assert |all| == LIM * (q + 1);
    Quotient(q + 1, 0);
    BitsOfAppend(msg, d);
    AbsorbPrefix(Empty(), BitsOf(msg), BitsOf(d), q);
    assert all == all[..LIM * q] + all[LIM * q..];
    BitsOfAppend(all[..LIM * q], all[LIM * q..]);
    assert Block(BitsOf(all), q) == BitsOf(all[LIM * q..]);
  }

  function Cycled(w: seq<Word>, a: nat, b: nat, c: nat): (r: seq<Word>)
    requires Full(w) && a < 25 && b < 25 && c < 25
    ensures Full(r)
  {
    w[a := w[b]][b := w[c]][c := w[a]]
  }

  class Context {
    const wide: array<Word>
    const buf: array<Byte>
    var ptr: nat

    ghost predicate Valid()
      reads this, wide, buf
    {
      wide.Length == 25 && buf.Length == 144 && ptr < LIM
    }

    /** The context has taken in `msg`, in whatever pieces. */
    ghost predicate Holds(msg: seq<Byte>)
      reads this, wide, buf
    {
      && Valid()
      && ptr == |msg| % LIM
      && buf[..ptr] == msg[|msg| - ptr..]
      && wide[..] == Masked(StateAfter(msg), Out)
    }

    constructor ()
      ensures fresh(wide) && fresh(buf) && Holds([])
    {
      wide := new Word[25](_ => Zero());
      buf := new Byte[144](_ => 0);
      ptr := 0;
      new;
      Init();
    }

    // src/keccak.c:1525-1566
    method Init()
      requires wide.Length == 25 && buf.Length == 144
      modifies this, wide
      ensures Holds([])
    {
      hide StateAfter, Zero;
      for i := 0 to 25
        invariant forall k :: 0 <= k < i ==> wide[k] == Zero()
      {
        wide[i] := Zero();
      }
      wide[1] := Not(Zero());
      wide[2] := Not(Zero());
      wide[8] := Not(Zero());
      wide[12] := Not(Zero());
      wide[17] := Not(Zero());
      wide[20] := Not(Zero());
      ptr := 0;
      StateStart();
      assert buf[..0] == [];
    }

    // --- The macros, on the lanes a_xy = wide[x + 5y] under the names of list `r` --------------

    function Read(r: nat, i: nat): Word
      requires Valid() && r <= 8 && i < 25
      reads this, wide, buf
    {
      At(wide[..], r, i)
    }

    method Write(r: nat, b: Lanes)
      requires Valid() && r <= 8
      modifies wide
      ensures View(wide[..], r) == b
    {
      hide Place;
      forall i: nat, j: nat | i < 25 && j < 25 && Place(r, i) == Place(r, j)
        ensures i == j
      {
        PlaceInjective(r, i, j);
      }
      forall i: nat | i < 25
        ensures Place(r, i) < 25
      {
        PlaceInRange(r, i);
      }
      forall i: nat | i < 25 {
        wide[Place(r, i)] := b[i];
      }
      Rewritten(wide[..], r, b);
    }

    // src/keccak.c:975-1013
    method ThetaInPlace(r: nat)
      requires Valid() && r <= 8
      modifies wide
      ensures View(wide[..], r) == Theta(old(View(wide[..], r)))
    {
      hide Place, Mix, Xor;
      ghost var was := View(wide[..], r);
      var t0 := Element(r, 4, 1);
      var t1 := Element(r, 0, 2);
      var t2 := Element(r, 1, 3);
      var t3 := Element(r, 2, 4);
      var t4 := Element(r, 3, 0);
      var t := [t0, t1, t2, t3, t4];
      var b := seq(25, (i: nat) requires i < 25 reads this, wide, buf requires Valid() => Xor(Read(r, i), t[i % 5]));
      assert b == Theta(was);
      Write(r, b);
    }

    // src/keccak.c:958-972 applied to columns `c` and `d`
    method Element(r: nat, c: nat, d: nat) returns (t: Word)
      requires Valid() && r <= 8 && c < 5 && d == (c + 2) % 5
      ensures t == Mix(View(wide[..], r), (c + 1) % 5)
    {
      hide Place, Mix, ThElt;
      t := ThElt(Read(r, c), Read(r, c + 5), Read(r, c + 10), Read(r, c + 15), Read(r, c + 20),
                 Read(r, d), Read(r, d + 5), Read(r, d + 10), Read(r, d + 15), Read(r, d + 20));
      ThEltIsMix(View(wide[..], r), (c + 1) % 5);
    }

    // src/keccak.c:1016-1045
    method RhoInPlace(r: nat)
      requires Valid() && r <= 8
      modifies wide
      ensures View(wide[..], r) == Rho(old(View(wide[..], r)))
    {
      hide Place, Rol, Offset;
      var b := seq(25, (i: nat) requires i < 25 reads this, wide, buf requires Valid() => Rol(Read(r, i), Offset(i)));
      assert b == Rho(View(wide[..], r));
      Write(r, b);
    }

    // src/keccak.c:1070-1135
    method KhiInPlace(r: nat)
      requires Valid() && r <= 8
      modifies wide
      ensures View(wide[..], r) == Khi(old(View(wide[..], r)))
    {
      hide Place, Row0, Row1, Row2, Row3, Row4;
      var b := Row0(Read(r, 0), Read(r, 1), Read(r, 2), Read(r, 3), Read(r, 4))
               + Row1(Read(r, 5), Read(r, 6), Read(r, 7), Read(r, 8), Read(r, 9))
               + Row2(Read(r, 10), Read(r, 11), Read(r, 12), Read(r, 13), Read(r, 14))
               + Row3(Read(r, 15), Read(r, 16), Read(r, 17), Read(r, 18), Read(r, 19))
               + Row4(Read(r, 20), Read(r, 21), Read(r, 22), Read(r, 23), Read(r, 24));
      assert b == Khi(View(wide[..], r));
      Write(r, b);
    }

    // src/keccak.c:1137
    method IotaInPlace(r: nat, k: nat)
      requires Valid() && r <= 8
      modifies wide
      ensures View(wide[..], r) == Iota(old(View(wide[..], r)), k)
    {
      hide Place, RC, Xor;
      ghost var was := wide[..];
      PlaceOfFirst(r);
      wide[0] := Xor(wide[0], RC(k));
      forall i: nat | i < 25
        ensures At(wide[..], r, i) == if i == 0 then wide[0] else At(was, r, i)
      {
        PlaceInRange(r, i);
        if Place(r, i) == 0 { PlaceInjective(r, i, 0); }
      }
      Rewritten(wide[..], r, View(was, r)[0 := wide[0]]);
    }

    // src/keccak.c:1392-1397
    method Round(r: nat, k: nat)
      requires Valid() && r < 8
      modifies wide
      ensures View(wide[..], r + 1) == FastRound(old(View(wide[..], r)), k)
    {
      hide Place, Theta, Rho, Pi, Khi, Iota, View;
      ThetaInPlace(r);
      RhoInPlace(r);
      NextView(wide[..], r);
      KhiInPlace(r + 1);
      IotaInPlace(r + 1, k);
    }

    // src/keccak.c:1313-1347; a_xy is wide[x + 5y]
    method P8ToP0()
      requires Valid()
      modifies wide
      ensures View(wide[..], 0) == View(old(wide[..]), 8)
    {
      hide View, Cycled;
      P8Undone(wide[..]);
      Cycle(5, 6, 19);
      Cycle(10, 12, 8);
      Cycle(15, 18, 22);
      Cycle(20, 24, 11);
      Cycle(1, 13, 16);
      Cycle(21, 7, 2);
      Cycle(17, 14, 4);
      Cycle(3, 9, 23);
    }

    // src/keccak.c:1315-1318 and the groups of four moves after it
    method Cycle(a: nat, b: nat, c: nat)
      requires Valid() && a < 25 && b < 25 && c < 25 && a != b && b != c && a != c
      modifies wide
      ensures wide[..] == Cycled(old(wide[..]), a, b, c)
    {
      var t := wide[a];
      wide[a] := wide[b];
      wide[b] := wide[c];
      wide[c] := t;
    }

    // src/keccak.c:1452-1467
    method Permute(ghost a: Lanes)
      requires Valid() && wide[..] == Masked(a, Out)
      modifies wide
      ensures wide[..] == Masked(KeccakF(a), Out)
    {
      hide Place, View, Masked, FastRound, KeccakF, Rounds;
      FirstView(wide[..]);
      var j := 0;
      RoundsStart(a);
      while j < 24
        invariant j == 0 || j == 8 || j == 16 || j == 24
        invariant View(wide[..], 0) == Masked(Rounds(a, j), Out)
      {
        EightRounds(a, j);
        P8ToP0();
        j := j + 8;
      }
      FirstView(wide[..]);
      KeccakFIs24Rounds(a);
    }

    // src/keccak.c:1457-1464
    method EightRounds(ghost a: Lanes, j: nat)
      requires Valid() && View(wide[..], 0) == Masked(Rounds(a, j), Out)
      modifies wide
      ensures View(wide[..], 8) == Masked(Rounds(a, j + 8), Out)
    {
      hide Place, View, Masked, FastRound, Rounds;
      RoundsAgree(a, j);
      Round(0, j);
      RoundsAgree(a, j + 1);
      Round(1, j + 1);
      RoundsAgree(a, j + 2);
      Round(2, j + 2);
      RoundsAgree(a, j + 3);
      Round(3, j + 3);
      RoundsAgree(a, j + 4);
      Round(4, j + 4);
      RoundsAgree(a, j + 5);
      Round(5, j + 5);
      RoundsAgree(a, j + 6);
      Round(6, j + 6);
      RoundsAgree(a, j + 7);
      Round(7, j + 7);
    }

    // --- The stream -----------------------------------------------------------------------------

    // src/keccak.c:183-188 with size 72
    method InputBuf(ghost a: Lanes)
      requires Valid() && wide[..] == Masked(a, Out)
      modifies wide
      ensures wide[..] == Masked(AbsorbBits(a, BitsOf(buf[..LIM])), Out)
    {
      hide Xor, Comp, Dec64, BitsOf, Out;
      ghost var block := BitsOf(buf[..LIM]);
      var j := 0;
      while j < 9
        invariant j <= 9 && forall i: nat :: i < 25 ==> wide[i] == LaneSoFar(a, block, j, i)
      {
        WordAbsorbed(a, buf[..LIM], j);
        assert buf[..LIM][8 * j..8 * j + 8] == buf[8 * j..8 * j + 8];
        wide[j] := Xor(wide[j], Dec64(buf[8 * j..8 * j + 8]));
        j := j + 1;
      }
    }

    // memcpy(buf + at, d, |d|)
    method CopyIn(at: nat, d: seq<Byte>)
      requires Valid() && at + |d| <= LIM
      modifies buf
      ensures buf[..at + |d|] == old(buf[..at]) + d
    {
      forall i | 0 <= i < |d| {
        buf[at + i] := d[i];
      }
    }

    // src/keccak.c:1588-1599; `d` is what fits
    method Take(d: seq<Byte>, ghost done: seq<Byte>)
      requires Holds(done) && |d| <= LIM - ptr
      modifies this`ptr, wide, buf
      ensures Holds(done + d)
    {
      hide KeccakF, AbsorbBits, StateAfter, Masked, BitsOf;
      CopyIn(ptr, d);
      var p := ptr + |d|;
      assert buf[..p] == (done + d)[|done + d| - p..];
      if p == LIM {
        StateNext(done, d);
        InputBuf(StateAfter(done));
        Permute(AbsorbBits(StateAfter(done), BitsOf(buf[..LIM])));
        p := 0;
      } else {
        StateSame(done, d);
      }
      ptr := p;
    }

    // src/keccak.c:1568-1603
    method Core(data: seq<Byte>, ghost msg: seq<Byte>)
      requires Holds(msg)
      modifies this`ptr, wide, buf
      ensures Holds(msg + data)
    {
      hide Holds;
      HoldsValid(msg);
      if |data| < LIM - ptr {
        Take(data, msg);
        return;
      }
      var rest := data;
      ghost var done := msg;
      while |rest| > 0
        invariant done + rest == msg + data && Holds(done) && ptr < LIM
        decreases |rest|
      {
        var clen := LIM - ptr;
        if clen > |rest| { clen := |rest|; }
        var d := rest[..clen];
        Take(d, done);
        done := done + d;
        rest := rest[clen..];
        HoldsValid(done);
      }
      assert done == msg + data;
    }

    lemma HoldsValid(msg: seq<Byte>)
      requires Holds(msg)
      ensures ptr < LIM
    {
    }

    // src/keccak.c:1619-1634 with the sizes 64 and 72
    method PadTo(ub: Byte, n: nat) returns (tmp: seq<Byte>)
      requires Valid() && n <= 7
      ensures tmp == PadBytes(ptr, ub, n)
    {
      LastBitsBound(ub, n);
      var eb := LastBits(ub, n);
      if ptr == LIM - 1 {
        if n == 7 {
          tmp := [eb] + ZeroBytes(LIM - 1) + [0x80];
        } else {
          PowSmall(n);
          tmp := [eb + 0x80];
        }
      } else {
        var j := LIM - ptr;
        tmp := [eb] + ZeroBytes(j - 2) + [0x80];
      }
    }

    /** The digest depends only on the message, however it was cut up. */
    // src/keccak.c:1607-1647 with the sizes 64 and 72
    method Close(ub: Byte, n: nat, ghost msg: seq<Byte>) returns (dst: seq<Byte>)
      requires Holds(msg) && n <= 7
      modifies this, wide, buf
      ensures |dst| == 64 && BitsOf(dst) == Keccak512(BitsOf(msg) + Extra(ub, n))
      ensures Holds([])
    {
      hide KeccakF, AbsorbBits, StateAfter, Masked, BitsOf, PadBytes, Keccak512, Out;
      var tmp := PadTo(ub, n);
      Padded(msg, ub, n);
      Core(tmp, msg);
      ghost var s := StateAfter(msg + tmp);
      Uncomplement(s);
      dst := [];
      var j := 0;
      while j < 64
        invariant j <= 64 && j % 8 == 0 && |dst| == j
        invariant BitsOf(dst) == Joined(s[..j / 8])
        invariant wide[..] == s && wide.Length == 25 && buf.Length == 144
      {
        var lane := Enc64(wide[j / 8]);
        BitsOfAppend(dst, lane);
        EncodedLane(s, j / 8);
        dst := dst + lane;
        j := j + 8;
      }
      Init();
    }

    // src/keccak.c:1636-1642
    method Uncomplement(ghost s: Lanes)
      requires Valid() && wide[..] == Masked(s, Out)
      modifies wide
      ensures wide[..] == s
    {
      hide Not;
      wide[1] := Not(wide[1]);
      wide[2] := Not(wide[2]);
      wide[8] := Not(wide[8]);
      wide[12] := Not(wide[12]);
      wide[17] := Not(wide[17]);
      wide[20] := Not(wide[20]);
      forall i: nat | i < 25
        ensures wide[i] == s[i]
      {
        NotTwice(s[i]);
      }
    }
  }

  lemma NotTwice(w: Word)
    ensures Not(Not(w)) == w
  {
  }

  /** Lane `i` when the first `j` words of the block have gone in. */
  ghost function LaneSoFar(a: Lanes, block: seq<bool>, j: nat, i: nat): Word
    requires |block| == RATE && j <= 9 && i < 25
  {
    Comp(if i < j then AbsorbBits(a, block)[i] else a[i], Out(i))
  }

  lemma WordAbsorbed(a: Lanes, bytes: seq<Byte>, j: nat)
    requires |bytes| == LIM && j < 9
    ensures Xor(LaneSoFar(a, BitsOf(bytes), j, j), Dec64(bytes[8 * j..8 * j + 8])) == LaneSoFar(a, BitsOf(bytes), j + 1, j)
  {
    hide Xor, Dec64, BitsOf, Out, Not;
    var w := Dec64(bytes[8 * j..8 * j + 8]);
    Dec64Bits(bytes, j);
    XorComp(a[j], w, Out(j), false);
  }

  lemma EncodedLane(s: Lanes, k: nat)
    requires k < 8
    ensures Joined(s[..k]) + BitsOf(Enc64(s[k])) == Joined(s[..k + 1])
  {
    hide Enc64;
    EncDec(s[k]);
    assert s[..k + 1][..k] == s[..k];
  }

  /** After the padding the sponge holds the state the digest is read from. */
  lemma Padded(msg: seq<Byte>, ub: Byte, n: nat)
    requires n <= 7
    ensures var all := msg + PadBytes(|msg| % LIM, ub, n);
            Keccak512(BitsOf(msg) + Extra(ub, n)) == Joined(StateAfter(all)[..8])
  {
    hide KeccakF, AbsorbBits, AbsorbAll, Pad, PadBytes, BitsOf, Extra;
    var q, ptr := |msg| / LIM, |msg| % LIM;
    var all := msg + PadBytes(ptr, ub, n);
    PadBytesArePad(ptr, q, ub, n);
    BitsOfAppend(msg, PadBytes(ptr, ub, n));
    var bits := BitsOf(msg) + Extra(ub, n);
    assert |bits| == 8 * (LIM * q + ptr) + n;
    assert bits + Pad(|bits|) == BitsOf(all);
    assert 8 * |all| / RATE == |all| / LIM;
  }

  function Cycled4(w: seq<Word>): (r: seq<Word>)
    requires Full(w)
    ensures Full(r)
  {
    Cycled(Cycled(Cycled(Cycled(w, 5, 6, 19), 10, 12, 8), 15, 18, 22), 20, 24, 11)
  }

  function Last4(v: seq<Word>): (r: seq<Word>)
    requires Full(v)
    ensures Full(r)
  {
    Cycled(Cycled(Cycled(Cycled(v, 1, 13, 16), 21, 7, 2), 17, 14, 4), 3, 9, 23)
  }

  lemma Last4At(v: seq<Word>, i: nat)
    requires Full(v) && i < 25
    ensures Last4(v)[i] == if i == 1 || i == 21 || i == 17 || i == 3 || i == 13 || i == 7 || i == 14 || i == 9 || i == 16 || i == 2 || i == 4 || i == 23
                           then At(v, 8, i) else v[i]
  {
  }

  lemma Cycled4At(w: seq<Word>, i: nat)
    requires Full(w) && i < 25
    ensures Cycled4(w)[i] == if i == 5 || i == 10 || i == 15 || i == 20 || i == 6 || i == 12 || i == 18 || i == 24 || i == 19 || i == 8 || i == 22 || i == 11
                             then At(w, 8, i) else w[i]
  {
  }

  /** The moves put every lane back under its first name. */
  lemma P8Undone(w: seq<Word>)
    requires Full(w)
    ensures View(Last4(Cycled4(w)), 0) == View(w, 8)
  {
    hide Cycled4, Last4;
    forall i: nat | i < 25
      ensures Last4(Cycled4(w))[i] == At(w, 8, i)
    {
      Last4At(Cycled4(w), i);
      PlaceInRange(8, i);
      Cycled4At(w, Place(8, i));
      Cycled4At(w, i);
    }
    FirstView(Last4(Cycled4(w)));
  }

  lemma RoundsStart(a: Lanes)
    ensures Rounds(a, 0) == a
  {
  }

  lemma RoundsAgree(a: Lanes, j: nat)
    ensures FastRound(Masked(Rounds(a, j), Out), j) == Masked(Rounds(a, j + 1), Out)
  {
    hide FastRound, Masked, KeccakSpec.Round;
    FastRoundIsRound(Rounds(a, j), j);
  }

  lemma {:induction false} PlaceOfFirst(r: nat)
    requires r <= 8
    ensures Place(r, 0) == 0
  {
    hide Place;
    if r == 0 { PlaceZero(0); }
    else {
      PlaceOfFirst(r - 1);
      PlaceStep(r - 1, 0);
    }
  }
}

/** The rounds as the optimised code computes them: some lanes are held complemented, which spares
    most of chi's complements (src/keccak.c:958-1137). */
module KeccakLanes {
  import opened KeccakSpec
  import opened Words
  import opened KeccakNames

  type Mask = nat -> bool

  /** The lanes of `a`, complemented where the mask says so. */
  function Masked(a: Lanes, m: Mask): Lanes {
    seq(25, (i: nat) requires i < 25 => MaskedLane(a, m, i))
  }

  function MaskedLane(a: Lanes, m: Mask, i: nat): Word
    requires i < 25
  {
    Comp(a[i], m(i))
  }

  /** Complemented between rounds: a10, a20, a31, a22, a23, a04. */
  predicate Out(i: nat) { i == 1 || i == 2 || i == 8 || i == 12 || i == 17 || i == 20 }

  /** Complemented when chi starts: a00, a20, a30, a01, a21, a02, a22, a13, a33, a43, a04, a34. */
  predicate In(i: nat) {
    i == 0 || i == 2 || i == 3 || i == 5 || i == 7 || i == 10 || i == 12 || i == 16 || i == 18 || i == 19 || i == 20 || i == 23
  }

  // --- Theta ----------------------------------------------------------------------------------

  /** The macro TH_ELT (src/keccak.c:958-972). */
  function ThElt(c0: Word, c1: Word, c2: Word, c3: Word, c4: Word, d0: Word, d1: Word, d2: Word, d3: Word, d4: Word): Word {
    var tt0, tt1 := Xor(d0, d1), Xor(d2, d3);
    var rolled := Rol(Xor(Xor(tt0, d4), tt1), 1);
    Xor(Xor(rolled, c4), Xor(Xor(c0, c1), Xor(c2, c3)))
  }

  lemma ThEltIsMix(a: Lanes, x: nat)
    requires x < 5
    ensures var c, d := (x + 4) % 5, (x + 1) % 5;
            ThElt(a[c], a[c + 5], a[c + 10], a[c + 15], a[c + 20], a[d], a[d + 5], a[d + 10], a[d + 15], a[d + 20]) == Mix(a, x)
  {
    hide Rol;
    var c, d := (x + 4) % 5, (x + 1) % 5;
    Regroup(a[d], a[d + 5], a[d + 10], a[d + 15], a[d + 20]);
    Collect(Rol(Column(a, d), 1), a[c], a[c + 5], a[c + 10], a[c + 15], a[c + 20]);
  }

  lemma Regroup(d0: Word, d1: Word, d2: Word, d3: Word, d4: Word)
    ensures Xor(Xor(Xor(d0, d1), d4), Xor(d2, d3)) == Xor(Xor(Xor(Xor(d0, d1), d2), d3), d4)
  {
  }

  lemma Collect(r: Word, c0: Word, c1: Word, c2: Word, c3: Word, c4: Word)
    ensures Xor(Xor(r, c4), Xor(Xor(c0, c1), Xor(c2, c3))) == Xor(Xor(Xor(Xor(Xor(c0, c1), c2), c3), c4), r)
  {
  }

  function ColumnMask(m: Mask, x: nat): bool {
    Differ(Differ(Differ(Differ(m(x), m(x + 5)), m(x + 10)), m(x + 15)), m(x + 20))
  }

  function MixMask(m: Mask, x: nat): bool { Differ(ColumnMask(m, (x + 4) % 5), ColumnMask(m, (x + 1) % 5)) }

  lemma ColumnComp(a: Lanes, m: Mask, x: nat)
    requires x < 5
    ensures Column(Masked(a, m), x) == Comp(Column(a, x), ColumnMask(m, x))
  {
    hide Xor, Comp, Differ;
    var a0, a1, a2, a3, a4 := a[x], a[x + 5], a[x + 10], a[x + 15], a[x + 20];
    var p0, p1, p2, p3, p4 := m(x), m(x + 5), m(x + 10), m(x + 15), m(x + 20);
    XorComp(a0, a1, p0, p1);
    XorComp(Xor(a0, a1), a2, Differ(p0, p1), p2);
    XorComp(Xor(Xor(a0, a1), a2), a3, Differ(Differ(p0, p1), p2), p3);
    XorComp(Xor(Xor(Xor(a0, a1), a2), a3), a4, Differ(Differ(Differ(p0, p1), p2), p3), p4);
  }

  lemma MixComp(a: Lanes, m: Mask, x: nat)
    requires x < 5
    ensures Mix(Masked(a, m), x) == Comp(Mix(a, x), MixMask(m, x))
  {
    hide Xor, Comp, Differ, Rol, Column, ColumnMask;
    var c, d := (x + 4) % 5, (x + 1) % 5;
    ColumnComp(a, m, c);
    ColumnComp(a, m, d);
    RolComp(Column(a, d), 1, ColumnMask(m, d));
    XorComp(Column(a, c), Rol(Column(a, d), 1), ColumnMask(m, c), ColumnMask(m, d));
  }

  /** Theta acts on the complements as it does on the bits. */
  lemma ThetaMasked(a: Lanes, m: Mask, n: Mask)
    requires forall i: nat :: i < 25 ==> n(i) == Differ(m(i), MixMask(m, i % 5))
    ensures Theta(Masked(a, m)) == Masked(Theta(a), n)
  {
    hide Xor, Comp, Differ, Mix, MixMask;
    forall i: nat | i < 25
      ensures Theta(Masked(a, m))[i] == Masked(Theta(a), n)[i]
    {
      MixComp(a, m, i % 5);
      XorComp(a[i], Mix(a, i % 5), m(i), MixMask(m, i % 5));
    }
  }

  // --- Rho and pi -----------------------------------------------------------------------------

  lemma RhoMasked(a: Lanes, m: Mask)
    ensures Rho(Masked(a, m)) == Masked(Rho(a), m)
  {
    hide Rol, Offset, Comp;
    forall i: nat | i < 25
      ensures Rho(Masked(a, m))[i] == Masked(Rho(a), m)[i]
    {
      RolComp(a[i], Offset(i), m(i));
    }
  }

  lemma PiMasked(a: Lanes, m: Mask, n: Mask)
    requires forall i: nat :: i < 25 ==> n(i) == m(PiFrom(i))
    ensures Pi(Masked(a, m)) == Masked(Pi(a), n)
  {
    hide Comp, PiFrom;
  }

  // --- Chi ------------------------------------------------------------------------------------

  function XO(a: Word, b: Word, c: Word): Word { Xor(a, Or(b, c)) }

  function XA(a: Word, b: Word, c: Word): Word { Xor(a, And(b, c)) }

  /** The macro KHI, row by row (src/keccak.c:1058-1135). */
  function Row0(b0: Word, b1: Word, b2: Word, b3: Word, b4: Word): seq<Word> {
    [XO(b0, b1, b2), XO(b1, Not(b2), b3), XA(b2, b3, b4), XO(b3, b4, b0), XA(b4, b0, b1)]
  }

  function Row1(b0: Word, b1: Word, b2: Word, b3: Word, b4: Word): seq<Word> {
    [XO(b0, b1, b2), XA(b1, b2, b3), XO(b2, b3, Not(b4)), XO(b3, b4, b0), XA(b4, b0, b1)]
  }

  function Row2(b0: Word, b1: Word, b2: Word, b3: Word, b4: Word): seq<Word> {
    [XO(b0, b1, b2), XA(b1, b2, b3), XA(b2, Not(b3), b4), XO(Not(b3), b4, b0), XA(b4, b0, b1)]
  }

  function Row3(b0: Word, b1: Word, b2: Word, b3: Word, b4: Word): seq<Word> {
    [XA(b0, b1, b2), XO(b1, b2, b3), XO(b2, Not(b3), b4), XA(Not(b3), b4, b0), XO(b4, b0, b1)]
  }

  function Row4(b0: Word, b1: Word, b2: Word, b3: Word, b4: Word): seq<Word> {
    [XA(b0, Not(b1), b2), XO(Not(b1), b2, b3), XA(b2, b3, b4), XO(b3, b4, b0), XA(b4, b0, b1)]
  }

  function Khi(b: Lanes): Lanes {
    Row0(b[0], b[1], b[2], b[3], b[4]) + Row1(b[5], b[6], b[7], b[8], b[9]) + Row2(b[10], b[11], b[12], b[13], b[14])
    + Row3(b[15], b[16], b[17], b[18], b[19]) + Row4(b[20], b[21], b[22], b[23], b[24])
  }

  lemma Row0Is(a: Word, b: Word, c: Word, d: Word, e: Word)
    ensures Row0(Not(a), b, Not(c), Not(d), e)
         == [ChiLane(a, b, c), Not(ChiLane(b, c, d)), Not(ChiLane(c, d, e)), ChiLane(d, e, a), ChiLane(e, a, b)]
  {
    assert XO(Not(a), b, Not(c)) == ChiLane(a, b, c);
    assert XO(b, Not(Not(c)), Not(d)) == Not(ChiLane(b, c, d));
    assert XA(Not(c), Not(d), e) == Not(ChiLane(c, d, e));
    assert XO(Not(d), e, Not(a)) == ChiLane(d, e, a);
    assert XA(e, Not(a), b) == ChiLane(e, a, b);
  }

  lemma Row1Is(a: Word, b: Word, c: Word, d: Word, e: Word)
    ensures Row1(Not(a), b, Not(c), d, e)
         == [ChiLane(a, b, c), ChiLane(b, c, d), ChiLane(c, d, e), Not(ChiLane(d, e, a)), ChiLane(e, a, b)]
  {
    assert XO(Not(a), b, Not(c)) == ChiLane(a, b, c);
    assert XA(b, Not(c), d) == ChiLane(b, c, d);
    assert XO(Not(c), d, Not(e)) == ChiLane(c, d, e);
    assert XO(d, e, Not(a)) == Not(ChiLane(d, e, a));
    assert XA(e, Not(a), b) == ChiLane(e, a, b);
  }

  lemma Row2Is(a: Word, b: Word, c: Word, d: Word, e: Word)
    ensures Row2(Not(a), b, Not(c), d, e)
         == [ChiLane(a, b, c), ChiLane(b, c, d), Not(ChiLane(c, d, e)), ChiLane(d, e, a), ChiLane(e, a, b)]
  {
    assert XO(Not(a), b, Not(c)) == ChiLane(a, b, c);
    assert XA(b, Not(c), d) == ChiLane(b, c, d);
    assert XA(Not(c), Not(d), e) == Not(ChiLane(c, d, e));
    assert XO(Not(d), e, Not(a)) == ChiLane(d, e, a);
    assert XA(e, Not(a), b) == ChiLane(e, a, b);
  }

  lemma Row3Is(a: Word, b: Word, c: Word, d: Word, e: Word)
    ensures Row3(a, Not(b), c, Not(d), Not(e))
         == [ChiLane(a, b, c), ChiLane(b, c, d), Not(ChiLane(c, d, e)), ChiLane(d, e, a), ChiLane(e, a, b)]
  {
    assert XA(a, Not(b), c) == ChiLane(a, b, c);
    assert XO(Not(b), c, Not(d)) == ChiLane(b, c, d);
    assert XO(c, Not(Not(d)), Not(e)) == Not(ChiLane(c, d, e));
    assert XA(Not(Not(d)), Not(e), a) == ChiLane(d, e, a);
    assert XO(Not(e), a, Not(b)) == ChiLane(e, a, b);
  }

  lemma Row4Is(a: Word, b: Word, c: Word, d: Word, e: Word)
    ensures Row4(Not(a), b, c, Not(d), e)
         == [Not(ChiLane(a, b, c)), ChiLane(b, c, d), ChiLane(c, d, e), ChiLane(d, e, a), ChiLane(e, a, b)]
  {
    assert XA(Not(a), Not(b), c) == Not(ChiLane(a, b, c));
    assert XO(Not(b), c, Not(d)) == ChiLane(b, c, d);
    assert XA(c, Not(d), e) == ChiLane(c, d, e);
    assert XO(Not(d), e, Not(a)) == ChiLane(d, e, a);
    assert XA(e, Not(a), b) == ChiLane(e, a, b);
  }

  function ChiRow(a: Word, b: Word, c: Word, d: Word, e: Word): seq<Word> {
    [ChiLane(a, b, c), ChiLane(b, c, d), ChiLane(c, d, e), ChiLane(d, e, a), ChiLane(e, a, b)]
  }

  /** Row `y` of the lanes, complemented where the mask says so. */
  function MaskedRow(r: seq<Word>, y: nat, m: Mask): seq<Word>
    requires |r| == 5
  {
    [Comp(r[0], m(5 * y)), Comp(r[1], m(5 * y + 1)), Comp(r[2], m(5 * y + 2)), Comp(r[3], m(5 * y + 3)), Comp(r[4], m(5 * y + 4))]
  }

  lemma Row0Masked(a: Lanes)
    ensures var b := Masked(a, In);
            Row0(b[0], b[1], b[2], b[3], b[4]) == MaskedRow(ChiRow(a[0], a[1], a[2], a[3], a[4]), 0, Out)
  {
    hide Row0, ChiLane, Not;
    Row0Is(a[0], a[1], a[2], a[3], a[4]);
  }

  lemma Row1Masked(a: Lanes)
    ensures var b := Masked(a, In);
            Row1(b[5], b[6], b[7], b[8], b[9]) == MaskedRow(ChiRow(a[5], a[6], a[7], a[8], a[9]), 1, Out)
  {
    hide Row1, ChiLane, Not;
    Row1Is(a[5], a[6], a[7], a[8], a[9]);
  }

  lemma Row2Masked(a: Lanes)
    ensures var b := Masked(a, In);
            Row2(b[10], b[11], b[12], b[13], b[14]) == MaskedRow(ChiRow(a[10], a[11], a[12], a[13], a[14]), 2, Out)
  {
    hide Row2, ChiLane, Not;
    Row2Is(a[10], a[11], a[12], a[13], a[14]);
  }

  lemma Row3Masked(a: Lanes)
    ensures var b := Masked(a, In);
            Row3(b[15], b[16], b[17], b[18], b[19]) == MaskedRow(ChiRow(a[15], a[16], a[17], a[18], a[19]), 3, Out)
  {
    hide Row3, ChiLane, Not;
    Row3Is(a[15], a[16], a[17], a[18], a[19]);
  }

  lemma Row4Masked(a: Lanes)
    ensures var b := Masked(a, In);
            Row4(b[20], b[21], b[22], b[23], b[24]) == MaskedRow(ChiRow(a[20], a[21], a[22], a[23], a[24]), 4, Out)
  {
    hide Row4, ChiLane, Not;
    Row4Is(a[20], a[21], a[22], a[23], a[24]);
  }

  lemma ChiRowAt(a: Lanes, y: nat)
    requires y < 5
    ensures Chi(a)[5 * y..5 * y + 5] == ChiRow(a[5 * y], a[5 * y + 1], a[5 * y + 2], a[5 * y + 3], a[5 * y + 4])
  {
    hide ChiLane, Chi;
    ChiAt(a, y, 0, 1, 2);
    ChiAt(a, y, 1, 2, 3);
    ChiAt(a, y, 2, 3, 4);
    ChiAt(a, y, 3, 4, 0);
    ChiAt(a, y, 4, 0, 1);
  }

  lemma ChiAt(a: Lanes, y: nat, x: nat, x1: nat, x2: nat)
    requires y < 5 && x < 5 && x1 == (x + 1) % 5 && x2 == (x + 2) % 5
    ensures Chi(a)[5 * y + x] == ChiLane(a[5 * y + x], a[5 * y + x1], a[5 * y + x2])
  {
    hide ChiLane, Right;
    RightIs(y, x, 1);
    RightIs(y, x, 2);
  }

  lemma RightIs(y: nat, x: nat, d: nat)
    requires y < 5 && x < 5
    ensures Right(5 * y + x, d) == (x + d) % 5 + 5 * y
  {
    assert (5 * y + x) % 5 == x && (5 * y + x) / 5 == y;
  }

  lemma MaskedSlice(a: Lanes, m: Mask, y: nat)
    requires y < 5
    ensures Masked(a, m)[5 * y..5 * y + 5] == MaskedRow(a[5 * y..5 * y + 5], y, m)
  {
    hide Comp;
  }

  lemma MaskedRows(a: Lanes, m: Mask)
    ensures Masked(a, m) == MaskedRow(a[0..5], 0, m) + MaskedRow(a[5..10], 1, m) + MaskedRow(a[10..15], 2, m)
                          + MaskedRow(a[15..20], 3, m) + MaskedRow(a[20..25], 4, m)
  {
    hide Masked, MaskedRow;
    MaskedSlice(a, m, 0);
    MaskedSlice(a, m, 1);
    MaskedSlice(a, m, 2);
    MaskedSlice(a, m, 3);
    MaskedSlice(a, m, 4);
    var b := Masked(a, m);
    assert b == b[0..5] + b[5..10] + b[10..15] + b[15..20] + b[20..25];
  }

  lemma KhiMasked(a: Lanes)
    ensures Khi(Masked(a, In)) == Masked(Chi(a), Out)
  {
    hide Row0, Row1, Row2, Row3, Row4, ChiLane, Chi, MaskedRow, Masked;
    Row0Masked(a);
    Row1Masked(a);
    Row2Masked(a);
    Row3Masked(a);
    Row4Masked(a);
    ChiRowAt(a, 0);
    ChiRowAt(a, 1);
    ChiRowAt(a, 2);
    ChiRowAt(a, 3);
    ChiRowAt(a, 4);
    MaskedRows(Chi(a), Out);
  }

  // --- A round --------------------------------------------------------------------------------

  /** Complemented after theta: columns 0 and 3 have changed over. */
  predicate Mid(i: nat) {
    i == 0 || i == 5 || i == 10 || i == 15 || i == 1 || i == 2 || i == 12 || i == 17 || i == 3 || i == 13 || i == 18 || i == 23
  }

  lemma MixTable()
    ensures MixMask(Out, 0) && !MixMask(Out, 1) && !MixMask(Out, 2) && MixMask(Out, 3) && !MixMask(Out, 4)
  {
  }

  lemma MidIsTheta(i: nat)
    requires i < 25
    ensures Mid(i) == Differ(Out(i), MixMask(Out, i % 5))
  {
    hide MixMask;
    MixTable();
    var x := i % 5;
    assert x == 0 || x == 1 || x == 2 || x == 3 || x == 4;
  }

  lemma InIsPi(i: nat)
    requires i < 25
    ensures In(i) == Mid(PiFrom(i))
  {
    hide PiFrom;
    PiTable(i);
  }

  function FastRound(v: Lanes, k: nat): Lanes { Iota(Khi(Pi(Rho(Theta(v)))), k) }

  /** A round on lanes held complemented is a plain round on the lanes themselves. */
  lemma FastRoundIsRound(a: Lanes, k: nat)
    ensures FastRound(Masked(a, Out), k) == Masked(Round(a, k), Out)
  {
    hide Theta, Rho, Pi, Chi, Khi, Mid, In, RC, Xor, PiFrom, MixMask;
    forall i: nat | i < 25
      ensures Mid(i) == Differ(Out(i), MixMask(Out, i % 5)) && In(i) == Mid(PiFrom(i))
    {
      MidIsTheta(i);
      InIsPi(i);
    }
    ThetaMasked(a, Out, Mid);
    RhoMasked(Theta(a), Mid);
    PiMasked(Rho(Theta(a)), Mid, In);
    KhiMasked(Pi(Rho(Theta(a))));
  }
}

/** Where the round constants come from: the feedback register of FIPS 202, section 3.2.5. */
module KeccakConstants {
  import opened Words
  import opened KeccakSpec

  /** Eight bits. */
  datatype Register = Register(r0: bool, r1: bool, r2: bool, r3: bool, r4: bool, r5: bool, r6: bool, r7: bool)

  /** A zero is put in front; the bit that falls out is added to bits 0, 4, 5 and 6. */
  function Fed(r: Register): Register {
    Register(r.r7, r.r0, r.r1, r.r2, r.r3 != r.r7, r.r4 != r.r7, r.r5 != r.r7, r.r6)
  }

  function Fed7(r: Register): Register { Fed(Fed(Fed(Fed(Fed(Fed(Fed(r))))))) }

  /** The register after `t` steps. */
  function After(t: nat): Register {
    if t == 0 then Register(true, false, false, false, false, false, false, false) else Fed(After(t - 1))
  }

  predicate Rc(t: nat) { After(t % 255).r0 }

  /** What the register holds when the bits of round `k` are taken. */
  function BeforeRound(k: nat): Register {
    match k
    case 0 => Register(true, false, false, false, false, false, false, false)
    case 1 => Register(false, false, false, false, false, false, false, true)
    case 2 => Register(false, false, false, true, true, false, true, true)
    case 3 => Register(false, true, false, true, true, false, false, false)
    case 4 => Register(true, true, true, true, true, false, true, true)
    case 5 => Register(true, false, false, true, false, false, false, false)
    case 6 => Register(true, false, true, false, true, true, false, false)
    case 7 => Register(true, true, true, true, false, false, true, false)
    case 8 => Register(false, true, false, true, false, false, true, true)
    case 9 => Register(false, false, false, false, true, true, true, false)
    case 10 => Register(true, false, false, false, false, false, true, false)
    case 11 => Register(false, false, true, true, false, true, true, true)
    case 12 => Register(true, false, true, false, true, false, true, true)
    case 13 => Register(true, false, true, true, false, false, true, true)
    case 14 => Register(true, true, false, false, false, true, true, false)
    case 15 => Register(true, true, false, true, false, true, false, true)
    case 16 => Register(false, true, false, true, false, true, false, true)
    case 17 => Register(false, true, false, true, false, true, false, false)
    case 18 => Register(false, true, false, false, true, true, true, true)
    case 19 => Register(false, false, false, true, false, true, true, true)
    case 20 => Register(true, true, true, false, true, true, false, false)
    case 21 => Register(false, true, true, true, true, true, false, false)
    case 22 => Register(true, true, false, true, false, false, false, false)
    case _ => Register(false, false, true, false, false, false, true, false)
  }

  lemma StepsOn(t: nat)
    ensures After(t + 1) == Fed(After(t)) && After(t + 2) == Fed(Fed(After(t))) && After(t + 3) == Fed(Fed(Fed(After(t))))
    ensures After(t + 4) == Fed(Fed(Fed(Fed(After(t))))) && After(t + 5) == Fed(Fed(Fed(Fed(Fed(After(t))))))
    ensures After(t + 6) == Fed(Fed(Fed(Fed(Fed(Fed(After(t))))))) && After(t + 7) == Fed7(After(t))
  {
    hide Fed;
    assert After(t + 1) == Fed(After(t));
    assert After(t + 2) == Fed(After(t + 1));
    assert After(t + 3) == Fed(After(t + 2));
    assert After(t + 4) == Fed(After(t + 3));
    assert After(t + 5) == Fed(After(t + 4));
    assert After(t + 6) == Fed(After(t + 5));
    assert After(t + 7) == Fed(After(t + 6));
  }

  lemma NextRound(k: nat)
    requires k < 23
    ensures BeforeRound(k + 1) == Fed7(BeforeRound(k))
  {
    if k == 0 { assert Fed7(BeforeRound(0)) == BeforeRound(1); }
    if k == 1 { assert Fed7(BeforeRound(1)) == BeforeRound(2); }
    if k == 2 { assert Fed7(BeforeRound(2)) == BeforeRound(3); }
    if k == 3 { assert Fed7(BeforeRound(3)) == BeforeRound(4); }
    if k == 4 { assert Fed7(BeforeRound(4)) == BeforeRound(5); }
    if k == 5 { assert Fed7(BeforeRound(5)) == BeforeRound(6); }
    if k == 6 { assert Fed7(BeforeRound(6)) == BeforeRound(7); }
    if k == 7 { assert Fed7(BeforeRound(7)) == BeforeRound(8); }
    if k == 8 { assert Fed7(BeforeRound(8)) == BeforeRound(9); }
    if k == 9 { assert Fed7(BeforeRound(9)) == BeforeRound(10); }
    if k == 10 { assert Fed7(BeforeRound(10)) == BeforeRound(11); }
    if k == 11 { assert Fed7(BeforeRound(11)) == BeforeRound(12); }
    if k == 12 { assert Fed7(BeforeRound(12)) == BeforeRound(13); }
    if k == 13 { assert Fed7(BeforeRound(13)) == BeforeRound(14); }
    if k == 14 { assert Fed7(BeforeRound(14)) == BeforeRound(15); }
    if k == 15 { assert Fed7(BeforeRound(15)) == BeforeRound(16); }
    if k == 16 { assert Fed7(BeforeRound(16)) == BeforeRound(17); }
    if k == 17 { assert Fed7(BeforeRound(17)) == BeforeRound(18); }
    if k == 18 { assert Fed7(BeforeRound(18)) == BeforeRound(19); }
    if k == 19 { assert Fed7(BeforeRound(19)) == BeforeRound(20); }
    if k == 20 { assert Fed7(BeforeRound(20)) == BeforeRound(21); }
    if k == 21 { assert Fed7(BeforeRound(21)) == BeforeRound(22); }
    if k == 22 { assert Fed7(BeforeRound(22)) == BeforeRound(23); }
  }

  lemma {:induction false} BeforeRoundIs(k: nat)
    requires k < 24
    ensures After(7 * k) == BeforeRound(k)
  {
    hide After, Fed7, BeforeRound;
    if k == 0 {
      StartIs();
    } else {
      BeforeRoundIs(k - 1);
      NextRound(k - 1);
      StepsOn(7 * (k - 1));
      assert 7 * (k - 1) + 7 == 7 * k;
    }
  }

  lemma StartIs()
    ensures After(0) == BeforeRound(0)
  {
  }

  /** Seven bits in a row. */
  datatype Seven = Seven(b0: bool, b1: bool, b2: bool, b3: bool, b4: bool, b5: bool, b6: bool)

  function Emitted(r: Register): Seven {
    Seven(r.r0, Fed(r).r0, Fed(Fed(r)).r0, Fed(Fed(Fed(r))).r0, Fed(Fed(Fed(Fed(r)))).r0, Fed(Fed(Fed(Fed(Fed(r))))).r0,
          Fed(Fed(Fed(Fed(Fed(Fed(r)))))).r0)
  }

  /** The bits of round `k`. */
  function OfRound(k: nat): Seven {
    match k
    case 0 => Seven(true, false, false, false, false, false, false)
    case 1 => Seven(false, true, false, true, true, false, false)
    case 2 => Seven(false, true, true, true, true, false, true)
    case 3 => Seven(false, false, false, false, true, true, true)
    case 4 => Seven(true, true, true, true, true, false, false)
    case 5 => Seven(true, false, false, false, false, true, false)
    case 6 => Seven(true, false, false, true, true, true, true)
    case 7 => Seven(true, false, true, false, true, false, true)
    case 8 => Seven(false, true, true, true, false, false, false)
    case 9 => Seven(false, false, true, true, false, false, false)
    case 10 => Seven(true, false, true, false, true, true, false)
    case 11 => Seven(false, true, true, false, false, true, false)
    case 12 => Seven(true, true, true, true, true, true, false)
    case 13 => Seven(true, true, true, true, false, false, true)
    case 14 => Seven(true, false, true, true, true, false, true)
    case 15 => Seven(true, true, false, false, true, false, true)
    case 16 => Seven(false, true, false, false, true, false, true)
    case 17 => Seven(false, false, false, true, false, false, true)
    case 18 => Seven(false, true, true, false, true, false, false)
    case 19 => Seven(false, true, true, false, false, true, true)
    case 20 => Seven(true, false, false, true, true, true, true)
    case 21 => Seven(false, false, false, true, true, false, true)
    case 22 => Seven(true, false, false, false, false, true, false)
    case _ => Seven(false, false, true, false, true, true, true)
  }

  lemma OfRoundIs(k: nat)
    requires k < 24
    ensures Emitted(BeforeRound(k)) == OfRound(k)
  {
    if k == 0 { assert Emitted(BeforeRound(0)) == OfRound(0); }
    if k == 1 { assert Emitted(BeforeRound(1)) == OfRound(1); }
    if k == 2 { assert Emitted(BeforeRound(2)) == OfRound(2); }
    if k == 3 { assert Emitted(BeforeRound(3)) == OfRound(3); }
    if k == 4 { assert Emitted(BeforeRound(4)) == OfRound(4); }
    if k == 5 { assert Emitted(BeforeRound(5)) == OfRound(5); }
    if k == 6 { assert Emitted(BeforeRound(6)) == OfRound(6); }
    if k == 7 { assert Emitted(BeforeRound(7)) == OfRound(7); }
    if k == 8 { assert Emitted(BeforeRound(8)) == OfRound(8); }
    if k == 9 { assert Emitted(BeforeRound(9)) == OfRound(9); }
    if k == 10 { assert Emitted(BeforeRound(10)) == OfRound(10); }
    if k == 11 { assert Emitted(BeforeRound(11)) == OfRound(11); }
    if k == 12 { assert Emitted(BeforeRound(12)) == OfRound(12); }
    if k == 13 { assert Emitted(BeforeRound(13)) == OfRound(13); }
    if k == 14 { assert Emitted(BeforeRound(14)) == OfRound(14); }
    if k == 15 { assert Emitted(BeforeRound(15)) == OfRound(15); }
    if k == 16 { assert Emitted(BeforeRound(16)) == OfRound(16); }
    if k == 17 { assert Emitted(BeforeRound(17)) == OfRound(17); }
    if k == 18 { assert Emitted(BeforeRound(18)) == OfRound(18); }
    if k == 19 { assert Emitted(BeforeRound(19)) == OfRound(19); }
    if k == 20 { assert Emitted(BeforeRound(20)) == OfRound(20); }
    if k == 21 { assert Emitted(BeforeRound(21)) == OfRound(21); }
    if k == 22 { assert Emitted(BeforeRound(22)) == OfRound(22); }
    if k == 23 { assert Emitted(BeforeRound(23)) == OfRound(23); }
  }

  function One(b: bool): nat { if b then 1 else 0 }

  /** The number with these bits at the places 0, 1, 3, 7, 15, 31 and 63. */
  function Sparse(s: Seven): nat {
    One(s.b0) + 2 * One(s.b1) + 8 * One(s.b2) + 0x80 * One(s.b3) + 0x8000 * One(s.b4) + 0x8000_0000 * One(s.b5)
    + 0x8000_0000_0000_0000 * One(s.b6)
  }

  /** The table of the program holds these bits. */
  lemma TableIs(k: nat)
    requires k < 24
    ensures Sparse(OfRound(k)) == Constant(k)
  {
    hide Sparse, OfRound, Constant;
    if k < 3 { Table0(k); }
    else if k < 6 { Table3(k); }
    else if k < 9 { Table6(k); }
    else if k < 12 { Table9(k); }
    else if k < 15 { Table12(k); }
    else if k < 18 { Table15(k); }
    else if k < 21 { Table18(k); }
    else { Table21(k); }
  }

  lemma Table0(k: nat)
    requires k < 3
    ensures Sparse(OfRound(k)) == Constant(k)
  {
    if k == 0 { assert Sparse(OfRound(0)) == 0x1; }
    if k == 1 { assert Sparse(OfRound(1)) == 0x8082; }
    if k == 2 { assert Sparse(OfRound(2)) == 0x800000000000808A; }
  }

  lemma Table3(k: nat)
    requires 3 <= k < 6
    ensures Sparse(OfRound(k)) == Constant(k)
  {
    if k == 3 { assert Sparse(OfRound(3)) == 0x8000000080008000; }
    if k == 4 { assert Sparse(OfRound(4)) == 0x808B; }
    if k == 5 { assert Sparse(OfRound(5)) == 0x80000001; }
  }

  lemma Table6(k: nat)
    requires 6 <= k < 9
    ensures Sparse(OfRound(k)) == Constant(k)
  {
    if k == 6 { assert Sparse(OfRound(6)) == 0x8000000080008081; }
    if k == 7 { assert Sparse(OfRound(7)) == 0x8000000000008009; }
    if k == 8 { assert Sparse(OfRound(8)) == 0x8A; }
  }

  lemma Table9(k: nat)
    requires 9 <= k < 12
    ensures Sparse(OfRound(k)) == Constant(k)
  {
    if k == 9 { assert Sparse(OfRound(9)) == 0x88; }
    if k == 10 { assert Sparse(OfRound(10)) == 0x80008009; }
    if k == 11 { assert Sparse(OfRound(11)) == 0x8000000A; }
  }

  lemma Table12(k: nat)
    requires 12 <= k < 15
    ensures Sparse(OfRound(k)) == Constant(k)
  {
    if k == 12 { assert Sparse(OfRound(12)) == 0x8000808B; }
    if k == 13 { assert Sparse(OfRound(13)) == 0x800000000000008B; }
    if k == 14 { assert Sparse(OfRound(14)) == 0x8000000000008089; }
  }

  lemma Table15(k: nat)
    requires 15 <= k < 18
    ensures Sparse(OfRound(k)) == Constant(k)
  {
    if k == 15 { assert Sparse(OfRound(15)) == 0x8000000000008003; }
    if k == 16 { assert Sparse(OfRound(16)) == 0x8000000000008002; }
    if k == 17 { assert Sparse(OfRound(17)) == 0x8000000000000080; }
  }

  lemma Table18(k: nat)
    requires 18 <= k < 21
    ensures Sparse(OfRound(k)) == Constant(k)
  {
    if k == 18 { assert Sparse(OfRound(18)) == 0x800A; }
    if k == 19 { assert Sparse(OfRound(19)) == 0x800000008000000A; }
    if k == 20 { assert Sparse(OfRound(20)) == 0x8000000080008081; }
  }

  lemma Table21(k: nat)
    requires 21 <= k < 24
    ensures Sparse(OfRound(k)) == Constant(k)
  {
    if k == 21 { assert Sparse(OfRound(21)) == 0x8000000000008080; }
    if k == 22 { assert Sparse(OfRound(22)) == 0x80000001; }
    if k == 23 { assert Sparse(OfRound(23)) == 0x8000000080008008; }
  }

  /** A number with `gap` - 1 zeros above its lowest bit. */
  lemma {:induction false} ZerosThen(gap: nat, c: nat, z: nat)
    ensures Bit(Pow2(gap) * c, z) <==> z >= gap && Bit(c, z - gap)
    decreases z
  {
    if gap > 0 {
      assert Pow2(gap) * c == 2 * (Pow2(gap - 1) * c);
      if z > 0 { ZerosThen(gap - 1, c, z - 1); }
    }
  }

  lemma LowBit(b: bool, gap: nat, p: nat, c: nat, z: nat)
    requires gap > 0 && p == Pow2(gap)
    ensures Bit(One(b) + p * c, z) <==> if z == 0 then b else z >= gap && Bit(c, z - gap)
  {
    var half := Pow2(gap - 1) * c;
    assert Pow2(gap) * c == 2 * half;
    assert (One(b) + 2 * half) / 2 == half;
    if z > 0 { ZerosThen(gap - 1, c, z - 1); }
  }

  lemma Powers()
    ensures Pow2(1) == 2 && Pow2(2) == 4 && Pow2(4) == 0x10 && Pow2(8) == 0x100 && Pow2(16) == 0x1_0000 && Pow2(32) == 0x1_0000_0000
  {
    assert Pow2(8) == 0x100;
    assert Pow2(16) == 0x1_0000;
    assert Pow2(24) == 0x100_0000;
  }

  lemma SparseBits(s: Seven, z: nat)
    ensures Bit(Sparse(s), z) <==>
            || (z == 0 && s.b0) || (z == 1 && s.b1) || (z == 3 && s.b2) || (z == 7 && s.b3)
            || (z == 15 && s.b4) || (z == 31 && s.b5) || (z == 63 && s.b6)
  {
    hide Bit, Pow2;
    Powers();
    var c6 := One(s.b6);
    var c5 := One(s.b5) + 0x1_0000_0000 * c6;
    var c4 := One(s.b4) + 0x1_0000 * c5;
    var c3 := One(s.b3) + 0x100 * c4;
    var c2 := One(s.b2) + 0x10 * c3;
    var c1 := One(s.b1) + 4 * c2;
    assert Sparse(s) == One(s.b0) + 2 * c1;
    hide One;
    LowBit(s.b0, 1, 2, c1, z);
    if z >= 1 { LowBit(s.b1, 2, 4, c2, z - 1); }
    if z >= 3 { LowBit(s.b2, 4, 0x10, c3, z - 3); }
    if z >= 7 { LowBit(s.b3, 8, 0x100, c4, z - 7); }
    if z >= 15 { LowBit(s.b4, 16, 0x1_0000, c5, z - 15); }
    if z >= 31 { LowBit(s.b5, 32, 0x1_0000_0000, c6, z - 31); }
    if z >= 63 { SingleBit(s.b6, z - 63); }
  }

  lemma SingleBit(b: bool, z: nat)
    ensures Bit(One(b), z) <==> z == 0 && b
  {
    if z > 0 { NoBits(z - 1); }
  }

  function Power(j: nat): nat { if j == 0 then 1 else 2 * Power(j - 1) }

  /** Bit 2^j - 1 of the constant of round `k` is bit j + 7k of the register's output, for j up to
      6, and every other bit is clear. */
  lemma RoundConstantsAreFed(k: nat, z: nat)
    requires k < 24 && z < 64
    ensures RC(k)[z] <==> exists j: nat :: j <= 6 && z == Power(j) - 1 && Rc(j + 7 * k)
  {
    hide RC, Constant, After, BeforeRound, Bit, Fed, Fed7, Rc, Sparse, OfRound, Power;
    TableIs(k);
    BeforeRoundIs(k);
    Outputs(k);
    ConstantBit(k, z);
    SparseBits(OfRound(k), z);
    Places();
    if RC(k)[z] {
      var j := if z == 0 then 0 else if z == 1 then 1 else if z == 3 then 2 else if z == 7 then 3
               else if z == 15 then 4 else if z == 31 then 5 else 6;
      assert z == Power(j) - 1 && Rc(j + 7 * k);
    }
    if j: nat :| j <= 6 && z == Power(j) - 1 && Rc(j + 7 * k) {
      assert j == 0 || j == 1 || j == 2 || j == 3 || j == 4 || j == 5 || j == 6;
    }
  }

  lemma ConstantBit(k: nat, z: nat)
    requires z < 64
    ensures RC(k)[z] == Bit(Constant(k), z)
  {
  }

  lemma Outputs(k: nat)
    requires k < 24 && After(7 * k) == BeforeRound(k)
    ensures OfRound(k) == Seven(Rc(0 + 7 * k), Rc(1 + 7 * k), Rc(2 + 7 * k), Rc(3 + 7 * k), Rc(4 + 7 * k), Rc(5 + 7 * k), Rc(6 + 7 * k))
  {
    hide After, BeforeRound, Fed, OfRound, Rc;
    var t := 7 * k;
    OfRoundIs(k);
    StepsOn(t);
    RcIs(0 + t);
    RcIs(1 + t);
    RcIs(2 + t);
    RcIs(3 + t);
    RcIs(4 + t);
    RcIs(5 + t);
    RcIs(6 + t);
  }

  lemma RcIs(t: nat)
    requires t < 255
    ensures Rc(t) == After(t).r0
  {
    hide After;
    assert t % 255 == t;
  }

  lemma Places()
    ensures Power(0) == 1 && Power(1) == 2 && Power(2) == 4 && Power(3) == 8
    ensures Power(4) == 16 && Power(5) == 32 && Power(6) == 64
  {
    assert Power(3) == 8;
  }
}

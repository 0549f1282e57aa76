/** Plain KECCAK: the permutation KECCAK-f[1600] on 25 lanes of 64 bits, lane (x, y) at index
    x + 5y (FIPS 202, section 3.2). */
module KeccakSpec {
  import opened Words

  predicate Full<T>(a: seq<T>) { |a| == 25 }

  type Lanes = a: seq<Word> | Full(a) witness Empty()

  function Empty(): seq<Word> { seq(25, _ => Zero()) }

  // --- Theta ----------------------------------------------------------------------------------

  function Column(a: Lanes, x: nat): Word
    requires x < 5
  {
    Xor(Xor(Xor(Xor(a[x], a[x + 5]), a[x + 10]), a[x + 15]), a[x + 20])
  }

  function Mix(a: Lanes, x: nat): Word
    requires x < 5
  {
    Xor(Column(a, (x + 4) % 5), Rol(Column(a, (x + 1) % 5), 1))
  }

  function Theta(a: Lanes): Lanes {
    seq(25, i requires 0 <= i < 25 => Xor(a[i], Mix(a, i % 5)))
  }

  // --- Rho and pi -----------------------------------------------------------------------------

  /** By how much lane `i` is rotated. */
  function Offset(i: nat): (r: nat)
    ensures r < 64
  {
    match i
    case 0 => 0
    case 1 => 1
    case 2 => 62
    case 3 => 28
    case 4 => 27
    case 5 => 36
    case 6 => 44
    case 7 => 6
    case 8 => 55
    case 9 => 20
    case 10 => 3
    case 11 => 10
    case 12 => 43
    case 13 => 25
    case 14 => 39
    case 15 => 41
    case 16 => 45
    case 17 => 15
    case 18 => 21
    case 19 => 8
    case 20 => 18
    case 21 => 2
    case 22 => 61
    case 23 => 56
    case _ => 14
  }

  function Rho(a: Lanes): Lanes {
    seq(25, i requires 0 <= i < 25 => Rol(a[i], Offset(i)))
  }

  /** The lane that pi moves to position `i`: lane (x + 3y, x) goes to (x, y). */
  function PiFrom(i: nat): (r: nat)
    requires i < 25
    ensures r < 25
  {
    (i % 5 + 3 * (i / 5)) % 5 + 5 * (i % 5)
  }

  function Pi<T>(a: seq<T>): (r: seq<T>)
    requires Full(a)
    ensures Full(r)
  {
    seq(25, i requires 0 <= i < 25 => a[PiFrom(i)])
  }

  // --- Chi and iota ---------------------------------------------------------------------------

  function ChiLane(a: Word, b: Word, c: Word): Word { Xor(a, And(Not(b), c)) }

  /** The lane `d` places to the right of lane `i` in its row. */
  function Right(i: nat, d: nat): (r: nat)
    requires i < 25
    ensures r < 25
  {
    (i % 5 + d) % 5 + 5 * (i / 5)
  }

  function Chi(a: Lanes): Lanes {
    seq(25, i requires 0 <= i < 25 => ChiLane(a[i], a[Right(i, 1)], a[Right(i, 2)]))
  }

  /** The round constants (src/keccak.c:136-149). */
  function Constant(k: nat): nat {
    match k
    case 0 => 0x0000000000000001
    case 1 => 0x0000000000008082
    case 2 => 0x800000000000808A
    case 3 => 0x8000000080008000
    case 4 => 0x000000000000808B
    case 5 => 0x0000000080000001
    case 6 => 0x8000000080008081
    case 7 => 0x8000000000008009
    case 8 => 0x000000000000008A
    case 9 => 0x0000000000000088
    case 10 => 0x0000000080008009
    case 11 => 0x000000008000000A
    case 12 => 0x000000008000808B
    case 13 => 0x800000000000008B
    case 14 => 0x8000000000008089
    case 15 => 0x8000000000008003
    case 16 => 0x8000000000008002
    case 17 => 0x8000000000000080
    case 18 => 0x000000000000800A
    case 19 => 0x800000008000000A
    case 20 => 0x8000000080008081
    case 21 => 0x8000000000008080
    case 22 => 0x0000000080000001
    case _ => 0x8000000080008008
  }

  function RC(k: nat): Word { WordOf(Constant(k)) }

  function Iota(a: Lanes, k: nat): Lanes { a[0 := Xor(a[0], RC(k))] }

  // --- The permutation ------------------------------------------------------------------------

  function Round(a: Lanes, k: nat): Lanes { Iota(Chi(Pi(Rho(Theta(a)))), k) }

  /** The first `n` rounds. */
  function Rounds(a: Lanes, n: nat): Lanes { if n == 0 then a else Round(Rounds(a, n - 1), n - 1) }

  function Log2(w: nat): nat { if w <= 1 then 0 else 1 + Log2(w / 2) }

  /** Twelve rounds and two more for every doubling of the width of a lane. */
  function KeccakF(a: Lanes): Lanes { Rounds(a, 12 + 2 * Log2(|a[0]|)) }

  lemma KeccakFIs24Rounds(a: Lanes)
    ensures KeccakF(a) == Rounds(a, 24)
  {
    hide Rounds;
    assert Log2(4) == 2;
    assert Log2(64) == 6;
  }

  // --- Where the rotations come from ----------------------------------------------------------

  /** The step of the walk that orders the rotations: from lane (x, y) to (y, 2x + 3y). */
  function Next(p: nat): nat { p / 5 + 5 * ((2 * (p % 5) + 3 * (p / 5)) % 5) }

  function Walk(t: nat): nat { if t == 0 then 1 else Next(Walk(t - 1)) }

  /** Where the walk is after `t` steps. */
  function Lane(t: nat): nat {
    match t
    case 0 => 1
    case 1 => 10
    case 2 => 7
    case 3 => 11
    case 4 => 17
    case 5 => 18
    case 6 => 3
    case 7 => 5
    case 8 => 16
    case 9 => 8
    case 10 => 21
    case 11 => 24
    case 12 => 4
    case 13 => 15
    case 14 => 23
    case 15 => 19
    case 16 => 13
    case 17 => 12
    case 18 => 2
    case 19 => 20
    case 20 => 14
    case 21 => 22
    case 22 => 9
    case _ => 6
  }

  lemma {:induction false} WalkIsLane(t: nat)
    requires t < 24
    ensures Walk(t) == Lane(t)
    decreases t
  {
    hide Lane, Next;
    if t == 0 { FirstLane(); }
    else {
      WalkIsLane(t - 1);
      LaneStep(t);
    }
  }

  lemma FirstLane()
    ensures Lane(0) == 1
  {
  }

  lemma LaneStep(t: nat)
    requires 0 < t < 24
    ensures Next(Lane(t - 1)) == Lane(t)
  {
    if t == 1 { assert Next(1) == 10; }
    if t == 2 { assert Next(10) == 7; }
    if t == 3 { assert Next(7) == 11; }
    if t == 4 { assert Next(11) == 17; }
    if t == 5 { assert Next(17) == 18; }
    if t == 6 { assert Next(18) == 3; }
    if t == 7 { assert Next(3) == 5; }
    if t == 8 { assert Next(5) == 16; }
    if t == 9 { assert Next(16) == 8; }
    if t == 10 { assert Next(8) == 21; }
    if t == 11 { assert Next(21) == 24; }
    if t == 12 { assert Next(24) == 4; }
    if t == 13 { assert Next(4) == 15; }
    if t == 14 { assert Next(15) == 23; }
    if t == 15 { assert Next(23) == 19; }
    if t == 16 { assert Next(19) == 13; }
    if t == 17 { assert Next(13) == 12; }
    if t == 18 { assert Next(12) == 2; }
    if t == 19 { assert Next(2) == 20; }
    if t == 20 { assert Next(20) == 14; }
    if t == 21 { assert Next(14) == 22; }
    if t == 22 { assert Next(22) == 9; }
    if t == 23 { assert Next(9) == 6; }
  }

  /** The triangular number 1 + 2 + ... + (t + 1), modulo the width of a lane. */
  function Triangle(t: nat): nat { if t == 0 then 1 else (Triangle(t - 1) + t + 1) % 64 }

  lemma OffsetStep(t: nat)
    requires 0 < t < 24
    ensures Offset(Lane(t)) == (Offset(Lane(t - 1)) + t + 1) % 64
  {
  }

  /** The lane reached after `t` steps is rotated by the `t`-th triangular number. */
  lemma {:induction false} OffsetsAreTriangular(t: nat)
    requires t < 24
    ensures Offset(Walk(t)) == Triangle(t)
    decreases t
  {
    hide Offset, Walk;
    WalkIsLane(t);
    if t == 0 { FirstOffset(); }
    else {
      WalkIsLane(t - 1);
      OffsetsAreTriangular(t - 1);
      OffsetStep(t);
    }
  }

  lemma FirstOffset()
    ensures Offset(Lane(0)) == 1
  {
  }
}

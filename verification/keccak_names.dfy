/** Where the optimised code keeps its lanes: instead of moving them, every round gives them new
    names (src/keccak.c:1139-1156). Lane a_xy is written x + 5y, and the arguments of each list
    are given row by row. */
module KeccakNames {
  import opened KeccakSpec

  function P0(i: nat): nat {
    match i
    case 0 => 0 case 1 => 1 case 2 => 2 case 3 => 3 case 4 => 4
    case 5 => 5 case 6 => 6 case 7 => 7 case 8 => 8 case 9 => 9
    case 10 => 10 case 11 => 11 case 12 => 12 case 13 => 13 case 14 => 14
    case 15 => 15 case 16 => 16 case 17 => 17 case 18 => 18 case 19 => 19
    case 20 => 20 case 21 => 21 case 22 => 22 case 23 => 23 case _ => 24
  }

  function P1(i: nat): nat {
    match i
    case 0 => 0 case 1 => 6 case 2 => 12 case 3 => 18 case 4 => 24
    case 5 => 3 case 6 => 9 case 7 => 10 case 8 => 16 case 9 => 22
    case 10 => 1 case 11 => 7 case 12 => 13 case 13 => 19 case 14 => 20
    case 15 => 4 case 16 => 5 case 17 => 11 case 18 => 17 case 19 => 23
    case 20 => 2 case 21 => 8 case 22 => 14 case 23 => 15 case _ => 21
  }

  function P2(i: nat): nat {
    match i
    case 0 => 0 case 1 => 9 case 2 => 13 case 3 => 17 case 4 => 21
    case 5 => 18 case 6 => 22 case 7 => 1 case 8 => 5 case 9 => 14
    case 10 => 6 case 11 => 10 case 12 => 19 case 13 => 23 case 14 => 2
    case 15 => 24 case 16 => 3 case 17 => 7 case 18 => 11 case 19 => 15
    case 20 => 12 case 21 => 16 case 22 => 20 case 23 => 4 case _ => 8
  }

  function P3(i: nat): nat {
    match i
    case 0 => 0 case 1 => 22 case 2 => 19 case 3 => 11 case 4 => 8
    case 5 => 17 case 6 => 14 case 7 => 6 case 8 => 3 case 9 => 20
    case 10 => 9 case 11 => 1 case 12 => 23 case 13 => 15 case 14 => 12
    case 15 => 21 case 16 => 18 case 17 => 10 case 18 => 7 case 19 => 4
    case 20 => 13 case 21 => 5 case 22 => 2 case 23 => 24 case _ => 16
  }

  function P4(i: nat): nat {
    match i
    case 0 => 0 case 1 => 14 case 2 => 23 case 3 => 7 case 4 => 16
    case 5 => 11 case 6 => 20 case 7 => 9 case 8 => 18 case 9 => 2
    case 10 => 22 case 11 => 6 case 12 => 15 case 13 => 4 case 14 => 13
    case 15 => 8 case 16 => 17 case 17 => 1 case 18 => 10 case 19 => 24
    case 20 => 19 case 21 => 3 case 22 => 12 case 23 => 21 case _ => 5
  }

  function P5(i: nat): nat {
    match i
    case 0 => 0 case 1 => 20 case 2 => 15 case 3 => 10 case 4 => 5
    case 5 => 7 case 6 => 2 case 7 => 22 case 8 => 17 case 9 => 12
    case 10 => 14 case 11 => 9 case 12 => 4 case 13 => 24 case 14 => 19
    case 15 => 16 case 16 => 11 case 17 => 6 case 18 => 1 case 19 => 21
    case 20 => 23 case 21 => 18 case 22 => 13 case 23 => 8 case _ => 3
  }

  function P6(i: nat): nat {
    match i
    case 0 => 0 case 1 => 2 case 2 => 4 case 3 => 1 case 4 => 3
    case 5 => 10 case 6 => 12 case 7 => 14 case 8 => 11 case 9 => 13
    case 10 => 20 case 11 => 22 case 12 => 24 case 13 => 21 case 14 => 23
    case 15 => 5 case 16 => 7 case 17 => 9 case 18 => 6 case 19 => 8
    case 20 => 15 case 21 => 17 case 22 => 19 case 23 => 16 case _ => 18
  }

  function P7(i: nat): nat {
    match i
    case 0 => 0 case 1 => 12 case 2 => 24 case 3 => 6 case 4 => 18
    case 5 => 1 case 6 => 13 case 7 => 20 case 8 => 7 case 9 => 19
    case 10 => 2 case 11 => 14 case 12 => 21 case 13 => 8 case 14 => 15
    case 15 => 3 case 16 => 10 case 17 => 22 case 18 => 9 case 19 => 16
    case 20 => 4 case 21 => 11 case 22 => 23 case 23 => 5 case _ => 17
  }

  function P8(i: nat): nat {
    match i
    case 0 => 0 case 1 => 13 case 2 => 21 case 3 => 9 case 4 => 17
    case 5 => 6 case 6 => 19 case 7 => 2 case 8 => 10 case 9 => 23
    case 10 => 12 case 11 => 20 case 12 => 8 case 13 => 16 case 14 => 4
    case 15 => 18 case 16 => 1 case 17 => 14 case 18 => 22 case 19 => 5
    case 20 => 24 case 21 => 7 case 22 => 15 case 23 => 3 case _ => 11
  }

  /** The stored lane that is lane `i` under list `r`. */
  function Place(r: nat, i: nat): nat {
    match r
    case 0 => P0(i) case 1 => P1(i) case 2 => P2(i) case 3 => P3(i) case 4 => P4(i)
    case 5 => P5(i) case 6 => P6(i) case 7 => P7(i) case _ => P8(i)
  }

  lemma PiTable(i: nat)
    requires i < 25
    ensures PiFrom(i) == P1(i)
  {
    if i == 0 { assert PiFrom(0) == 0; }
    if i == 1 { assert PiFrom(1) == 6; }
    if i == 2 { assert PiFrom(2) == 12; }
    if i == 3 { assert PiFrom(3) == 18; }
    if i == 4 { assert PiFrom(4) == 24; }
    if i == 5 { assert PiFrom(5) == 3; }
    if i == 6 { assert PiFrom(6) == 9; }
    if i == 7 { assert PiFrom(7) == 10; }
    if i == 8 { assert PiFrom(8) == 16; }
    if i == 9 { assert PiFrom(9) == 22; }
    if i == 10 { assert PiFrom(10) == 1; }
    if i == 11 { assert PiFrom(11) == 7; }
    if i == 12 { assert PiFrom(12) == 13; }
    if i == 13 { assert PiFrom(13) == 19; }
    if i == 14 { assert PiFrom(14) == 20; }
    if i == 15 { assert PiFrom(15) == 4; }
    if i == 16 { assert PiFrom(16) == 5; }
    if i == 17 { assert PiFrom(17) == 11; }
    if i == 18 { assert PiFrom(18) == 17; }
    if i == 19 { assert PiFrom(19) == 23; }
    if i == 20 { assert PiFrom(20) == 2; }
    if i == 21 { assert PiFrom(21) == 8; }
    if i == 22 { assert PiFrom(22) == 14; }
    if i == 23 { assert PiFrom(23) == 15; }
    if i == 24 { assert PiFrom(24) == 21; }
  }

  lemma P1Step(i: nat)
    requires i < 25
    ensures P1(i) == P0(PiFrom(i))
  {
    hide PiFrom;
    PiTable(i);
  }

  lemma P2Step(i: nat)
    requires i < 25
    ensures P2(i) == P1(PiFrom(i))
  {
    hide PiFrom;
    PiTable(i);
  }

  lemma P3Step(i: nat)
    requires i < 25
    ensures P3(i) == P2(PiFrom(i))
  {
    hide PiFrom;
    PiTable(i);
  }

  lemma P4Step(i: nat)
    requires i < 25
    ensures P4(i) == P3(PiFrom(i))
  {
    hide PiFrom;
    PiTable(i);
  }

  lemma P5Step(i: nat)
    requires i < 25
    ensures P5(i) == P4(PiFrom(i))
  {
    hide PiFrom;
    PiTable(i);
  }

  lemma P6Step(i: nat)
    requires i < 25
    ensures P6(i) == P5(PiFrom(i))
  {
    hide PiFrom;
    PiTable(i);
  }

  lemma P7Step(i: nat)
    requires i < 25
    ensures P7(i) == P6(PiFrom(i))
  {
    hide PiFrom;
    PiTable(i);
  }

  lemma P8Step(i: nat)
    requires i < 25
    ensures P8(i) == P7(PiFrom(i))
  {
    hide PiFrom;
    PiTable(i);
  }

  /** Each list is the one before it with pi applied. */
  lemma PlaceStep(r: nat, i: nat)
    requires r < 8 && i < 25
    ensures Place(r + 1, i) == Place(r, PiFrom(i))
  {
    hide P0, P1, P2, P3, P4, P5, P6, P7, P8, PiFrom;
    match r
    case 0 => P1Step(i);
    case 1 => P2Step(i);
    case 2 => P3Step(i);
    case 3 => P4Step(i);
    case 4 => P5Step(i);
    case 5 => P6Step(i);
    case 6 => P7Step(i);
    case _ => P8Step(i);
  }

  lemma PlaceZero(i: nat)
    requires i < 25
    ensures Place(0, i) == i
  {
  }

  function PiTo(i: nat): nat {
    match i
    case 0 => 0 case 1 => 10 case 2 => 20 case 3 => 5 case 4 => 15
    case 5 => 16 case 6 => 1 case 7 => 11 case 8 => 21 case 9 => 6
    case 10 => 7 case 11 => 17 case 12 => 2 case 13 => 12 case 14 => 22
    case 15 => 23 case 16 => 8 case 17 => 18 case 18 => 3 case 19 => 13
    case 20 => 14 case 21 => 24 case 22 => 9 case 23 => 19 case _ => 4
  }

  lemma PiInverse(i: nat)
    requires i < 25
    ensures PiTo(PiFrom(i)) == i
  {
    hide PiFrom;
    PiTable(i);
  }

  /** No list uses a lane twice. */
  lemma {:induction false} PlaceInjective(r: nat, i: nat, j: nat)
    requires r <= 8 && i < 25 && j < 25 && Place(r, i) == Place(r, j)
    ensures i == j
    decreases r
  {
    hide PiFrom, PiTo, Place;
    if r == 0 {
      PlaceZero(i);
      PlaceZero(j);
    } else {
      PlaceStep(r - 1, i);
      PlaceStep(r - 1, j);
      PlaceInjective(r - 1, PiFrom(i), PiFrom(j));
      PiInverse(i);
      PiInverse(j);
    }
  }

  lemma {:induction false} PlaceInRange(r: nat, i: nat)
    requires r <= 8 && i < 25
    ensures Place(r, i) < 25
    decreases r
  {
    hide PiFrom, Place;
    if r == 0 { PlaceZero(i); }
    else {
      PlaceStep(r - 1, i);
      PlaceInRange(r - 1, PiFrom(i));
    }
  }
}

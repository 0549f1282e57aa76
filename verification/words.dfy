/** Words of 64 bits, least significant bit first, with the operations of the C type. */
module Words {
  predicate Wide(w: seq<bool>) { |w| == 64 }

  type Word = w: seq<bool> | Wide(w) witness Blank()

  function Blank(): seq<bool> { seq(64, _ => false) }

  /** Padding: a run of clear bits. */
  function Zeros(n: nat): (r: seq<bool>)
    ensures |r| == n
  {
    seq(n, _ => false)
  }

  function Zero(): Word { Blank() }

  function Xor(a: Word, b: Word): (r: Word)
    ensures forall z: nat :: z < 64 ==> r[z] == (a[z] != b[z])
  {
    seq(64, z requires 0 <= z < 64 => a[z] != b[z])
  }

  function And(a: Word, b: Word): (r: Word)
    ensures forall z: nat :: z < 64 ==> r[z] == (a[z] && b[z])
  {
    seq(64, z requires 0 <= z < 64 => a[z] && b[z])
  }

  function Or(a: Word, b: Word): (r: Word)
    ensures forall z: nat :: z < 64 ==> r[z] == (a[z] || b[z])
  {
    seq(64, z requires 0 <= z < 64 => a[z] || b[z])
  }

  function Not(a: Word): (r: Word)
    ensures forall z: nat :: z < 64 ==> r[z] == !a[z]
  {
    seq(64, z requires 0 <= z < 64 => !a[z])
  }

  function Shl(a: Word, n: nat): Word { seq(64, z requires 0 <= z < 64 => z >= n && a[z - n]) }

  function Shr(a: Word, n: nat): Word { seq(64, z requires 0 <= z < 64 => z + n < 64 && a[z + n]) }

  /** The macro SPH_ROTL64 (src/sph_types.h:939). */
  function Rol(a: Word, n: nat): (r: Word)
    requires n < 64
    ensures forall z: nat :: z < 64 ==> r[z] == if z >= n then a[z - n] else a[z + 64 - n]
  {
    Or(Shl(a, n), Shr(a, 64 - n))
  }

  /** Bit `z` of a number. */
  predicate Bit(n: nat, z: nat) { if z == 0 then n % 2 == 1 else Bit(n / 2, z - 1) }

  /** The word that holds a number below 2^64. */
  function WordOf(n: nat): Word { seq(64, z requires 0 <= z < 64 => Bit(n, z)) }

  function Comp(a: Word, m: bool): Word { if m then Not(a) else a }

  function Differ(p: bool, q: bool): bool { p != q }

  lemma XorComp(a: Word, b: Word, p: bool, q: bool)
    ensures Xor(Comp(a, p), Comp(b, q)) == Comp(Xor(a, b), Differ(p, q))
  {
  }

  lemma RolComp(a: Word, n: nat, m: bool)
    requires n < 64
    ensures Rol(Comp(a, m), n) == Comp(Rol(a, n), m)
  {
  }

  /** A number shifted right. */
  function Halved(x: nat, k: nat): nat
    decreases k
  {
    if k == 0 then x else Halved(x / 2, k - 1)
  }

  lemma {:induction false} HalvedBit(x: nat, k: nat, i: nat)
    ensures Bit(Halved(x, k), i) == Bit(x, k + i)
    decreases k
  {
    if k > 0 { HalvedBit(x / 2, k - 1, i); }
  }

  lemma {:induction false} NoBits(i: nat)
    ensures !Bit(0, i)
    decreases i
  {
    if i > 0 { NoBits(i - 1); }
  }

  function Pow2(k: nat): (r: nat)
    ensures r > 0
  {
    if k == 0 then 1 else 2 * Pow2(k - 1)
  }
}

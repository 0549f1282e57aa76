/** The unspent outputs of one transaction and the byte format that stores them
    (src/coins.h:15-240, src/coins.cpp:9-28). */
module CoinsFormat {
  import opened Common
  import opened VarInt
  import opened Words
  import Amount

  type Script = seq<Byte>

  datatype TxOut = TxOut(nValue: int, scriptPubKey: Script) {
    predicate IsNull() { nValue == -1 }
  }

  const Null := TxOut(-1, [])

  datatype State = State(fCoinBase: bool, vout: seq<TxOut>, nHeight: int, nVersion: int)

  /** What a spend leaves behind so that it can be undone. */
  datatype Undo = Undo(txout: TxOut, fCoinBase: bool, nHeight: int, nVersion: int)

  const U32: nat := 0x1_0000_0000

  /** Output `k` exists and is unspent. */
  predicate Avail(vout: seq<TxOut>, k: nat) { k < |vout| && !vout[k].IsNull() }

  predicate Pruned(vout: seq<TxOut>) { forall k: nat :: k < |vout| ==> !Avail(vout, k) }

  /** Spent outputs at the end are dropped. */
  function Trimmed(vout: seq<TxOut>): (r: seq<TxOut>)
    ensures r <= vout
  {
    if |vout| > 0 && vout[|vout| - 1].IsNull() then Trimmed(vout[..|vout| - 1]) else vout
  }

  /** Output `n` has been spent. */
  function Spent(vout: seq<TxOut>, n: nat): seq<TxOut>
    requires n < |vout|
  {
    Trimmed(vout[n := Null])
  }

  lemma SpentAvail(vout: seq<TxOut>, n: nat)
    requires n < |vout|
    ensures forall k: nat :: Avail(Spent(vout, n), k) <==> Avail(vout, k) && k != n
    ensures forall k: nat :: Avail(Spent(vout, n), k) && k < |vout| ==> Spent(vout, n)[k] == vout[k]
  {
    TrimmedAvail(vout[n := Null]);
    forall k: nat
      ensures Avail(vout[n := Null], k) <==> Avail(vout, k) && k != n
    {
    }
  }

  lemma {:induction false} TrimmedAvail(vout: seq<TxOut>)
    ensures forall k: nat :: Avail(Trimmed(vout), k) == Avail(vout, k)
    ensures Trimmed(vout) != [] ==> Avail(vout, |Trimmed(vout)| - 1)
    ensures Pruned(vout) <==> Trimmed(vout) == []
    decreases |vout|
  {
    if |vout| > 0 && vout[|vout| - 1].IsNull() {
      var shorter := vout[..|vout| - 1];
      TrimmedAvail(shorter);
      forall k: nat
        ensures Avail(Trimmed(vout), k) == Avail(vout, k)
      {
        assert Avail(shorter, k) == Avail(vout, k);
      }
    } else if |vout| > 0 {
      assert Avail(vout, |vout| - 1);
    }
  }

  /** Two lists that offer the same outputs are the same once trimmed, if all their spent outputs
      look alike. */
  lemma TrimmedUnique(v: seq<TxOut>, w: seq<TxOut>)
    requires Canonical(v) && Canonical(w)
    requires forall k: nat :: Avail(v, k) == Avail(w, k)
    requires forall k: nat :: Avail(v, k) && Avail(w, k) ==> v[k] == w[k]
    ensures Trimmed(v) == Trimmed(w)
  {
    TrimmedAvail(v);
    TrimmedAvail(w);
    hide Trimmed, Canonical;
    var t, u := Trimmed(v), Trimmed(w);
    if t != [] { assert Avail(t, |t| - 1) && Avail(w, |t| - 1) && Avail(u, |t| - 1); }
    if u != [] { assert Avail(u, |u| - 1) && Avail(v, |u| - 1) && Avail(t, |u| - 1); }
    forall k: nat | k < |t|
      ensures t[k] == u[k]
    {
      assert t[k] == v[k] && u[k] == w[k] && Avail(v, k) == Avail(w, k);
      if !Avail(v, k) { CanonicalAt(v, w, k); }
    }
  }

  lemma CanonicalAt(v: seq<TxOut>, w: seq<TxOut>, k: nat)
    requires Canonical(v) && Canonical(w) && k < |v| && k < |w| && !Avail(v, k) && !Avail(w, k)
    ensures v[k] == w[k]
  {
  }

  /** Spent outputs have no script left (src/core.h: SetNull). */
  predicate Canonical(vout: seq<TxOut>) {
    forall k: nat :: k < |vout| && vout[k].IsNull() ==> vout[k] == Null
  }

  const OP_RETURN: Byte := 0x6a

  predicate Unspendable(script: Script) { |script| > 0 && script[0] == OP_RETURN }

  /** Scripts that begin with OP_RETURN, whatever follows, and no others. */
  lemma UnspendableAre(rest: Script, script: Script)
    ensures Unspendable([0x6a] + rest) && (Unspendable(script) ==> script == [0x6a] + script[1..])
  {
  }

  /** The outputs that can never be spent are marked as spent. */
  function Blanked(vout: seq<TxOut>): (r: seq<TxOut>)
    ensures |r| == |vout|
    ensures forall k: nat :: k < |r| ==> r[k] == if Unspendable(vout[k].scriptPubKey) then Null else vout[k]
  {
    seq(|vout|, k requires 0 <= k < |vout| => if Unspendable(vout[k].scriptPubKey) then Null else vout[k])
  }

  // --- Mask bytes -----------------------------------------------------------------------------

  function Flag(b: bool): nat { if b then 1 else 0 }

  /** The number whose low `n` bits tell which of the outputs `k`, `k + 1`, ... are unspent. */
  function Bits(vout: seq<TxOut>, k: nat, n: nat): (r: nat)
    ensures r < Pow2(n)
    decreases n
  {
    if n == 0 then 0 else Flag(Avail(vout, k)) + 2 * Bits(vout, k + 1, n - 1)
  }

  lemma NoBitsYet(vout: seq<TxOut>, k: nat)
    ensures Bits(vout, k, 0) == 0
  {
  }

  lemma {:induction false} BitOfBits(vout: seq<TxOut>, k: nat, n: nat, p: nat)
    ensures Bit(Bits(vout, k, n), p) <==> p < n && Avail(vout, k + p)
    decreases p + n
  {
    if n == 0 {
      if p > 0 { BitOfBits(vout, k, 0, p - 1); }
    } else if p > 0 {
      BitOfBits(vout, k + 1, n - 1, p - 1);
      assert Bits(vout, k, n) / 2 == Bits(vout, k + 1, n - 1);
    }
  }

  lemma {:induction false} BitsExtend(vout: seq<TxOut>, k: nat, n: nat)
    ensures Bits(vout, k, n + 1) == Bits(vout, k, n) + (if Avail(vout, k + n) then Pow2(n) else 0)
    decreases n
  {
    if n > 0 { BitsExtend(vout, k + 1, n - 1); }
  }

  lemma {:induction false} BitsZero(vout: seq<TxOut>, k: nat, n: nat)
    ensures Bits(vout, k, n) == 0 <==> forall j: nat :: k <= j < k + n ==> !Avail(vout, j)
    decreases n
  {
    if n > 0 { BitsZero(vout, k + 1, n - 1); }
  }

  /** Byte `b` of the mask; the first two outputs are kept elsewhere. */
  function MaskByte(vout: seq<TxOut>, b: nat): Byte {
    assert Pow2(8) == 256;
    Bits(vout, 2 + b * 8, 8)
  }

  lemma MaskByteBits(vout: seq<TxOut>, b: nat)
    ensures Bits(vout, 2 + b * 8, 8) == MaskByte(vout, b)
  {
  }

  /** How many mask bytes it takes to reach every output. */
  function Chunks(vout: seq<TxOut>): nat { if |vout| <= 2 then 0 else (|vout| + 5) / 8 }

  /** The last of the first `b` mask bytes that is not zero, counted from one. */
  function LastUsed(vout: seq<TxOut>, b: nat): (r: nat)
    ensures r <= b
    ensures r > 0 ==> MaskByte(vout, r - 1) != 0
    ensures forall j: nat :: r <= j < b ==> MaskByte(vout, j) == 0
  {
    hide MaskByte;
    if b == 0 then 0 else if MaskByte(vout, b - 1) != 0 then b else LastUsed(vout, b - 1)
  }

  /** How many of the mask bytes `b`, ..., `e - 1` are not zero. */
  function Nonzero(vout: seq<TxOut>, b: nat, e: nat): (r: nat)
    ensures r <= if b <= e then e - b else 0
    decreases e - b
  {
    if b >= e then 0 else Flag(MaskByte(vout, b) != 0) + Nonzero(vout, b + 1, e)
  }

  lemma {:induction false} NonzeroSplit(vout: seq<TxOut>, b: nat, m: nat, e: nat)
    requires b <= m <= e
    ensures Nonzero(vout, b, e) == Nonzero(vout, b, m) + Nonzero(vout, m, e)
    decreases m - b
  {
    if b < m { NonzeroSplit(vout, b + 1, m, e); }
  }

  /** Bytes past the last one used are all zero. */
  lemma {:induction false} NonzeroTail(vout: seq<TxOut>, b: nat, e: nat)
    requires forall j: nat :: b <= j < e ==> MaskByte(vout, j) == 0
    ensures Nonzero(vout, b, e) == 0
    decreases e - b
  {
    if b < e { NonzeroTail(vout, b + 1, e); }
  }

  function MaskSize(vout: seq<TxOut>): nat { LastUsed(vout, Chunks(vout)) }

  function MaskCode(vout: seq<TxOut>): nat { Nonzero(vout, 0, Chunks(vout)) }

  /** Outputs past the mask are all spent. */
  lemma BeyondMask(vout: seq<TxOut>, k: nat)
    requires k >= 2 + 8 * MaskSize(vout)
    ensures !Avail(vout, k)
  {
    if k < |vout| {
      var b := (k - 2) / 8;
      assert b < Chunks(vout);
      assert MaskByte(vout, b) == 0;
      BitsZero(vout, 2 + b * 8, 8);
    }
  }

  lemma MaskCodeReach(vout: seq<TxOut>)
    ensures MaskCode(vout) == Nonzero(vout, 0, MaskSize(vout))
    ensures MaskCode(vout) == 0 <==> MaskSize(vout) == 0
  {
    var L, C := MaskSize(vout), Chunks(vout);
    NonzeroSplit(vout, 0, L, C);
    NonzeroTail(vout, L, C);
    if L > 0 {
      NonzeroSplit(vout, 0, L - 1, L);
    }
  }

  /** Something is unspent exactly when one of the three parts of the header says so. */
  lemma PrunedParts(vout: seq<TxOut>)
    ensures !Pruned(vout) <==> Avail(vout, 0) || Avail(vout, 1) || MaskCode(vout) != 0
  {
    MaskCodeReach(vout);
    if MaskCode(vout) != 0 {
      var b := MaskSize(vout) - 1;
      BitsZero(vout, 2 + b * 8, 8);
    } else {
      forall k: nat | k >= 2
        ensures !Avail(vout, k)
      {
        BeyondMask(vout, k);
      }
    }
  }

  // --- Header ---------------------------------------------------------------------------------

  /** The header code: coinbase flag, the first two outputs, and the number of mask bytes that are
      not zero, less one when the first two outputs are both spent. */
  ghost function Code(c: State): nat
    requires !Pruned(c.vout)
  {
    PrunedParts(c.vout);
    var fFirst, fSecond := Avail(c.vout, 0), Avail(c.vout, 1);
    8 * (MaskCode(c.vout) - (if fFirst || fSecond then 0 else 1)) + Flag(c.fCoinBase) + 2 * Flag(fFirst) + 4 * Flag(fSecond)
  }

  /** Number of nonzero mask bytes that a header code announces. */
  function CodeMask(nCode: nat): nat { nCode / 8 + (if Bit(nCode, 1) || Bit(nCode, 2) then 0 else 1) }

  lemma MaskCodeBound(vout: seq<TxOut>)
    ensures |vout| <= U32 - 8 ==> MaskCode(vout) < U32 / 8
  {
  }

  /** The header code keeps all that went into it. */
  lemma CodeParts(c: State)
    requires !Pruned(c.vout)
    ensures Bit(Code(c), 0) == c.fCoinBase
    ensures Bit(Code(c), 1) == Avail(c.vout, 0) && Bit(Code(c), 2) == Avail(c.vout, 1)
    ensures CodeMask(Code(c)) == MaskCode(c.vout)
    ensures |c.vout| <= U32 - 8 ==> Code(c) < U32
  {
    hide MaskCode, Pruned, Avail;
    PrunedParts(c.vout);
    MaskCodeBound(c.vout);
    var a, p, q := Flag(c.fCoinBase), Flag(Avail(c.vout, 0)), Flag(Avail(c.vout, 1));
    var m := MaskCode(c.vout) - (if Avail(c.vout, 0) || Avail(c.vout, 1) then 0 else 1);
    var code := 8 * m + a + 2 * p + 4 * q;
    assert code % 2 == a && code / 2 == 4 * m + p + 2 * q;
    assert (code / 2) % 2 == p && code / 2 / 2 == 2 * m + q;
    assert (code / 2 / 2) % 2 == q;
    assert Bit(code / 2, 0) == (p == 1) && Bit(code / 2 / 2, 0) == (q == 1);
    assert Bit(code / 2, 1) == Bit(code / 2 / 2, 0);
  }

  // --- Outputs --------------------------------------------------------------------------------

  /** How scripts are stored: any format that can tell where a script ends. */
  datatype Codec = Codec(write: Script -> seq<Byte>, read: seq<Byte> -> Option<(Script, seq<Byte>)>) {
    ghost predicate SelfDelimiting() {
      forall s: Script, rest: seq<Byte> {:trigger write(s) + rest} :: read(write(s) + rest) == Some((s, rest))
    }
  }

  /** A signed 64-bit number read as unsigned. */
  function Unsigned64(n: int): (r: nat)
    ensures r < Amount.U64
    ensures 0 <= n < Amount.U64 ==> r == n
  {
    n % Amount.U64
  }

  function WrittenOut(codec: Codec, out: TxOut): seq<Byte> {
    Encoded(Amount.Wrapped(Amount.Compressed(Unsigned64(out.nValue)))) + codec.write(out.scriptPubKey)
  }

  /** A 64-bit word read as a signed number. */
  function Signed64(n: nat): int { if n >= Amount.U64 / 2 then n - Amount.U64 else n }

  function ReadOut(codec: Codec, stream: seq<Byte>): Option<(TxOut, seq<Byte>)> {
    match Decoded(Amount.U64, stream)
    case None => None
    case Some((nVal, rest)) =>
      if nVal < 0 then None
      else
        match codec.read(rest)
        case None => None
        case Some((script, left)) => Some((TxOut(Signed64(Amount.Wrapped(Amount.Decompressed(nVal))), script), left))
  }

  /** An amount that can be stored is one whose compact form fits 64 bits; every amount of money is. */
  ghost predicate Storable(vout: seq<TxOut>) {
    forall k: nat :: Avail(vout, k) ==> 0 <= vout[k].nValue < Amount.U64 / 2 && Amount.Compressed(vout[k].nValue) < Amount.U64
  }

  lemma StorableOut(vout: seq<TxOut>, k: nat)
    requires Storable(vout) && Avail(vout, k)
    ensures 0 <= vout[k].nValue < Amount.U64 / 2 && Amount.Compressed(vout[k].nValue) < Amount.U64
  {
  }

  lemma MoneyStorable(vout: seq<TxOut>)
    requires forall k: nat :: Avail(vout, k) ==> 0 <= vout[k].nValue <= Amount.MAX_MONEY
    ensures Storable(vout)
  {
    forall k: nat | Avail(vout, k)
      ensures Amount.Compressed(vout[k].nValue) < Amount.U64
    {
      Amount.MoneyFits(vout[k].nValue);
    }
  }

  lemma OutRoundTrip(codec: Codec, out: TxOut, rest: seq<Byte>)
    requires codec.SelfDelimiting() && 0 <= out.nValue < Amount.U64 / 2 && Amount.Compressed(out.nValue) < Amount.U64
    ensures ReadOut(codec, WrittenOut(codec, out) + rest) == Some((out, rest))
  {
    var x := Amount.Compressed(out.nValue);
    var script := codec.write(out.scriptPubKey);
    RoundTrip(x, Amount.U64, script + rest);
    assert WrittenOut(codec, out) + rest == Encoded(x) + (script + rest);
    Amount.CompressThenDecompress(out.nValue);
  }

  /** The bytes of the unspent outputs among `k`, ..., `e - 1`. */
  ghost function WrittenOuts(codec: Codec, vout: seq<TxOut>, k: nat, e: nat): seq<Byte>
    decreases e - k
  {
    if k >= e then []
    else if Avail(vout, k) then WrittenOut(codec, vout[k]) + WrittenOuts(codec, vout, k + 1, e)
    else WrittenOuts(codec, vout, k + 1, e)
  }

  lemma {:induction false} WrittenSnoc(codec: Codec, vout: seq<TxOut>, k: nat, e: nat)
    requires k <= e
    ensures WrittenOuts(codec, vout, k, e + 1)
         == WrittenOuts(codec, vout, k, e) + (if Avail(vout, e) then WrittenOut(codec, vout[e]) else [])
    decreases e - k
  {
    if k < e { WrittenSnoc(codec, vout, k + 1, e); }
    else { assert WrittenOuts(codec, vout, e + 1, e + 1) == []; }
  }

  lemma {:induction false} WrittenReach(codec: Codec, vout: seq<TxOut>, k: nat, a: nat, b: nat)
    requires k <= a <= b
    requires forall j: nat :: a <= j < b ==> !Avail(vout, j)
    ensures WrittenOuts(codec, vout, k, a) == WrittenOuts(codec, vout, k, b)
    decreases b - k
  {
    if k < b { WrittenReach(codec, vout, k + 1, if k < a then a else k + 1, b); }
  }

  /** Read one output for each flag that is set. */
  function ReadOuts(codec: Codec, avail: seq<bool>, stream: seq<Byte>): Option<(seq<TxOut>, seq<Byte>)>
    decreases |avail|
  {
    if avail == [] then Some(([], stream))
    else if avail[0] then
      match ReadOut(codec, stream)
      case None => None
      case Some((out, rest)) =>
        (match ReadOuts(codec, avail[1..], rest)
         case None => None
         case Some((outs, left)) => Some(([out] + outs, left)))
    else
      match ReadOuts(codec, avail[1..], stream)
      case None => None
      case Some((outs, left)) => Some(([Null] + outs, left))
  }

  /** `avail` tells for each of its indices which of the outputs from `k` on are unspent. */
  predicate Flags(vout: seq<TxOut>, k: nat, avail: seq<bool>) {
    forall i: nat :: i < |avail| ==> avail[i] == Avail(vout, k + i)
  }

  /** The outputs from `k` on, blank where spent. */
  predicate Shows(vout: seq<TxOut>, k: nat, outs: seq<TxOut>) {
    forall i: nat :: i < |outs| ==> outs[i] == if Avail(vout, k + i) then vout[k + i] else Null
  }

  lemma {:induction false} OutsRoundTrip(codec: Codec, vout: seq<TxOut>, k: nat, avail: seq<bool>, rest: seq<Byte>)
    requires codec.SelfDelimiting() && Storable(vout) && Flags(vout, k, avail)
    ensures var r := ReadOuts(codec, avail, WrittenOuts(codec, vout, k, k + |avail|) + rest);
            r.Some? && r.value.1 == rest && |r.value.0| == |avail| && Shows(vout, k, r.value.0)
    decreases |avail|
  {
    hide ReadOut, WrittenOut, Shows, Storable;
    if avail == [] {
      NothingShown(vout, k);
    } else {
      assert Flags(vout, k + 1, avail[1..]) by {
        forall i: nat | i < |avail| - 1
          ensures avail[1..][i] == Avail(vout, k + 1 + i)
        {
          assert avail[i + 1] == Avail(vout, k + (i + 1));
        }
      }
      OutsRoundTrip(codec, vout, k + 1, avail[1..], rest);
      var tail := WrittenOuts(codec, vout, k + 1, k + |avail|) + rest;
      var outs := ReadOuts(codec, avail[1..], tail).value.0;
      assert avail[0] == Avail(vout, k + 0);
      var first := if avail[0] then vout[k] else Null;
      if avail[0] {
        StorableOut(vout, k);
        OutRoundTrip(codec, vout[k], tail);
        assert WrittenOuts(codec, vout, k, k + |avail|) + rest == WrittenOut(codec, vout[k]) + tail;
      }
      ShowsCons(vout, k, first, outs);
    }
  }

  lemma NothingShown(vout: seq<TxOut>, k: nat)
    ensures Shows(vout, k, [])
  {
  }

  lemma ShowsCons(vout: seq<TxOut>, k: nat, first: TxOut, outs: seq<TxOut>)
    requires first == if Avail(vout, k) then vout[k] else Null
    requires Shows(vout, k + 1, outs)
    ensures Shows(vout, k, [first] + outs)
  {
    forall i: nat | i < |outs| + 1
      ensures ([first] + outs)[i] == if Avail(vout, k + i) then vout[k + i] else Null
    {
      if i > 0 { assert outs[i - 1] == if Avail(vout, k + 1 + (i - 1)) then vout[k + 1 + (i - 1)] else Null; }
    }
  }

  // --- Mask -----------------------------------------------------------------------------------

  function MaskFrom(vout: seq<TxOut>, b: nat, e: nat): (r: seq<Byte>)
    ensures |r| == if b <= e then e - b else 0
    decreases e - b
  {
    if b >= e then [] else [MaskByte(vout, b)] + MaskFrom(vout, b + 1, e)
  }

  lemma {:induction false} MaskSnoc(vout: seq<TxOut>, b: nat, e: nat)
    requires b <= e
    ensures MaskFrom(vout, b, e + 1) == MaskFrom(vout, b, e) + [MaskByte(vout, e)]
    decreases e - b
  {
    if b < e { MaskSnoc(vout, b + 1, e); }
  }

  /** The flags held in a mask byte. */
  function FlagsOf(ch: Byte): (r: seq<bool>)
    ensures |r| == 8
    ensures forall p: nat :: p < 8 ==> r[p] == Bit(ch, p)
  {
    seq(8, p requires 0 <= p < 8 => Bit(ch, p))
  }

  /** Read mask bytes until `nMaskCode` of them were not zero. */
  function ReadMask(nMaskCode: nat, avail: seq<bool>, stream: seq<Byte>): Option<(seq<bool>, seq<Byte>)>
    decreases |stream|
  {
    if nMaskCode == 0 then Some((avail, stream))
    else if stream == [] then None
    else ReadMask(nMaskCode - Flag(stream[0] != 0), avail + FlagsOf(stream[0]), stream[1..])
  }

  lemma LastByteUsed(vout: seq<TxOut>)
    ensures MaskSize(vout) > 0 ==> MaskByte(vout, MaskSize(vout) - 1) != 0
  {
  }

  lemma {:induction false} MaskRoundTrip(vout: seq<TxOut>, b: nat, avail: seq<bool>, rest: seq<Byte>)
    requires b <= MaskSize(vout) && |avail| == 2 + 8 * b && Flags(vout, 0, avail)
    ensures var r := ReadMask(Nonzero(vout, b, MaskSize(vout)), avail, MaskFrom(vout, b, MaskSize(vout)) + rest);
            r.Some? && r.value.1 == rest && |r.value.0| == 2 + 8 * MaskSize(vout) && Flags(vout, 0, r.value.0)
    decreases MaskSize(vout) - b
  {
    hide MaskByte, Flags, FlagsOf, MaskSize;
    var L := MaskSize(vout);
    LastByteUsed(vout);
    if b < L {
      var ch := MaskByte(vout, b);
      MoreFlags(vout, b, avail);
      MaskRoundTrip(vout, b + 1, avail + FlagsOf(ch), rest);
      NonzeroSplit(vout, b, L - 1, L);
      assert Nonzero(vout, L - 1, L) == 1;
      assert (MaskFrom(vout, b, L) + rest)[1..] == MaskFrom(vout, b + 1, L) + rest;
    } else {
      assert MaskFrom(vout, b, L) + rest == rest;
    }
  }

  lemma MoreFlags(vout: seq<TxOut>, b: nat, avail: seq<bool>)
    requires |avail| == 2 + 8 * b && Flags(vout, 0, avail)
    ensures Flags(vout, 0, avail + FlagsOf(MaskByte(vout, b)))
  {
    var ch := MaskByte(vout, b);
    forall i: nat | i < |avail| + 8
      ensures (avail + FlagsOf(ch))[i] == Avail(vout, 0 + i)
    {
      if i < |avail| { assert avail[i] == Avail(vout, 0 + i); }
      else { BitOfBits(vout, 2 + b * 8, 8, i - |avail|); }
    }
  }

  // --- The whole record -----------------------------------------------------------------------

  /** Something is unspent, as the source asserts, and the number of outputs fits its type. */
  predicate Writable(c: State) { !Pruned(c.vout) && |c.vout| <= U32 - 8 }

  ghost predicate Savable(c: State) { Writable(c) && Storable(c.vout) }

  ghost function Serialized(codec: Codec, c: State): seq<Byte>
    requires Writable(c)
  {
    Encoded(c.nVersion) + Encoded(Code(c)) + MaskFrom(c.vout, 0, MaskSize(c.vout))
    + WrittenOuts(codec, c.vout, 0, |c.vout|) + Encoded(c.nHeight)
  }

  /** A 32-bit word read as a signed number. */
  function Signed(n: int): int { if n >= 0x8000_0000 then n - U32 else n }

  function Parsed(codec: Codec, stream: seq<Byte>): Option<(State, seq<Byte>)> {
    match Decoded(U32, stream)
    case None => None
    case Some((version, s1)) =>
      match Decoded(U32, s1)
      case None => None
      case Some((nCode, s2)) =>
        if nCode < 0 then None else ParsedBody(codec, Signed(version), nCode, s2)
  }

  function ParsedBody(codec: Codec, version: int, nCode: nat, s2: seq<Byte>): Option<(State, seq<Byte>)> {
    match ReadMask(CodeMask(nCode), [Bit(nCode, 1), Bit(nCode, 2)], s2)
    case None => None
    case Some((avail, s3)) =>
      match ReadOuts(codec, avail, s3)
      case None => None
      case Some((outs, s4)) =>
        match Decoded(U32, s4)
        case None => None
        case Some((height, s5)) =>
          Some((State(Bit(nCode, 0), Trimmed(outs), Signed(height), version), s5))
  }

  /** What a record is read back as: trailing spent outputs are gone, and a negative version or
      height has lost all but its low seven bits. */
  function Restored(c: State): State {
    State(c.fCoinBase, Trimmed(c.vout), Kept(c.nHeight), Kept(c.nVersion))
  }

  lemma BodyRoundTrip(codec: Codec, c: State, version: int, rest: seq<Byte>)
    requires codec.SelfDelimiting() && Savable(c) && Canonical(c.vout) && Int32(c.nHeight)
    ensures ParsedBody(codec, version, Code(c),
              MaskFrom(c.vout, 0, MaskSize(c.vout)) + (WrittenOuts(codec, c.vout, 0, |c.vout|) + (Encoded(c.nHeight) + rest)))
         == Some((State(c.fCoinBase, Trimmed(c.vout), Kept(c.nHeight), version), rest))
  {
    hide Bit, Code, CodeMask, MaskFrom, MaskSize, MaskCode, Nonzero, ReadMask, ReadOuts, WrittenOuts, Flags, Shows;
    hide Trimmed, Decoded, Encoded, Storable, Canonical, Pruned;
    var v, tail := c.vout, Encoded(c.nHeight) + rest;
    var outBytes := WrittenOuts(codec, v, 0, |v|);
    CodeParts(c);
    MaskCodeReach(v);
    var start := [Bit(Code(c), 1), Bit(Code(c), 2)];
    StartFlags(v, start);
    MaskRoundTrip(v, 0, start, outBytes + tail);
    var avail := ReadMask(MaskCode(v), start, MaskFrom(v, 0, MaskSize(v)) + (outBytes + tail)).value.0;
    OutsReach(codec, v);
    OutsRoundTrip(codec, v, 0, avail, tail);
    var outs := ReadOuts(codec, avail, outBytes + tail).value.0;
    ShownTrimmed(v, outs);
    RoundTrip(c.nHeight, U32, rest);
  }

  lemma StartFlags(vout: seq<TxOut>, start: seq<bool>)
    requires start == [Avail(vout, 0), Avail(vout, 1)]
    ensures Flags(vout, 0, start)
  {
  }

  lemma OutsReach(codec: Codec, vout: seq<TxOut>)
    ensures WrittenOuts(codec, vout, 0, |vout|) == WrittenOuts(codec, vout, 0, 2 + 8 * MaskSize(vout))
  {
    var n := 2 + 8 * MaskSize(vout);
    if n <= |vout| {
      forall k: nat | n <= k < |vout|
        ensures !Avail(vout, k)
      {
        BeyondMask(vout, k);
      }
      WrittenReach(codec, vout, 0, n, |vout|);
    } else {
      WrittenReach(codec, vout, 0, |vout|, n);
    }
  }

  lemma ShownTrimmed(vout: seq<TxOut>, outs: seq<TxOut>)
    requires Canonical(vout) && Shows(vout, 0, outs) && |outs| == 2 + 8 * MaskSize(vout)
    ensures Trimmed(outs) == Trimmed(vout)
  {
    forall k: nat
      ensures Avail(outs, k) == Avail(vout, k) && (Avail(outs, k) ==> outs[k] == vout[k])
    {
      if k < |outs| { assert outs[k] == if Avail(vout, 0 + k) then vout[0 + k] else Null; }
      else { BeyondMask(vout, k); }
    }
    assert Canonical(outs) by {
      forall k: nat | k < |outs|
        ensures outs[k].IsNull() ==> outs[k] == Null
      {
        assert outs[k] == if Avail(vout, 0 + k) then vout[0 + k] else Null;
      }
    }
    TrimmedUnique(outs, vout);
  }

  /** Reading back what was written gives the record without its trailing spent outputs, and leaves
      whatever follows in the stream. */
  lemma RecordRoundTrip(codec: Codec, c: State, rest: seq<Byte>)
    requires codec.SelfDelimiting() && Savable(c) && Canonical(c.vout) && Int32(c.nHeight) && Int32(c.nVersion)
    ensures Parsed(codec, Serialized(codec, c) + rest) == Some((Restored(c), rest))
  {
    hide Decoded, Encoded, Code, MaskFrom, WrittenOuts, ParsedBody, Trimmed, CodeMask, Bit, Storable, Canonical, Pruned, MaskCode, MaskSize;
    var body := MaskFrom(c.vout, 0, MaskSize(c.vout)) + (WrittenOuts(codec, c.vout, 0, |c.vout|) + (Encoded(c.nHeight) + rest));
    assert Serialized(codec, c) + rest == Encoded(c.nVersion) + (Encoded(Code(c)) + body);
    RoundTrip(c.nVersion, U32, Encoded(Code(c)) + body);
    CodeParts(c);
    RoundTrip(Code(c), U32, body);
    BodyRoundTrip(codec, c, Kept(c.nVersion), rest);
  }

  /** A record comes back unchanged exactly when it has no trailing spent outputs and neither its
      version nor its height is negative. */
  lemma UnchangedIff(codec: Codec, c: State, rest: seq<Byte>)
    requires codec.SelfDelimiting() && Savable(c) && Canonical(c.vout) && Int32(c.nHeight) && Int32(c.nVersion)
    ensures Parsed(codec, Serialized(codec, c) + rest) == Some((c, rest))
       <==> c.nVersion >= 0 && c.nHeight >= 0 && Avail(c.vout, |c.vout| - 1)
  {
    hide Parsed, Serialized, Trimmed, Savable, Canonical;
    RecordRoundTrip(codec, c, rest);
    TrimmedAvail(c.vout);
    SavableUsed(c);
    TrimmedWhole(c.vout);
  }

  lemma SavableUsed(c: State)
    requires Savable(c)
    ensures c.vout != []
  {
  }

  lemma TrimmedWhole(vout: seq<TxOut>)
    requires vout != []
    ensures Trimmed(vout) == vout <==> Avail(vout, |vout| - 1)
  {
  }

  /** A record of version -1 comes back with version 127. */
  lemma NegativeVersionLost(codec: Codec, script: Script)
    requires codec.SelfDelimiting()
    ensures var c := State(false, [TxOut(1, script)], 0, -1);
            Writable(c) && Parsed(codec, Serialized(codec, c)) == Some((c.(nVersion := 127), []))
  {
    var c := State(false, [TxOut(1, script)], 0, -1);
    OneOutput(TxOut(1, script));
    hide Serialized, Parsed, Trimmed, Storable, Canonical, Pruned;
    RecordRoundTrip(codec, c, []);
    assert Serialized(codec, c) + [] == Serialized(codec, c);
  }

  lemma OneOutput(out: TxOut)
    requires out.nValue == 1
    ensures !Pruned([out]) && Storable([out]) && Canonical([out]) && Trimmed([out]) == [out]
  {
    assert Avail([out], 0);
    MoneyStorable([out]);
  }

  predicate Int32(n: int) { -0x8000_0000 <= n < 0x8000_0000 }
}

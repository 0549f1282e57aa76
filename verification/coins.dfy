/** The record of one transaction's unspent outputs, changed in place (src/coins.h:68-240,
    src/coins.cpp:9-53). */
module Coins {
  import opened Common
  import opened VarInt
  import opened CoinsFormat
  import opened Words
  import Amount

  /** The list that offers exactly the spendable outputs, at their old positions, and no more. */
  ghost predicate OffersSpendable(vout: seq<TxOut>, outs: seq<TxOut>) {
    && (forall k: nat :: Avail(vout, k) <==> Avail(outs, k) && !Unspendable(outs[k].scriptPubKey))
    && (forall k: nat :: Avail(vout, k) && Avail(outs, k) ==> vout[k] == outs[k])
    && (vout != [] ==> Avail(vout, |vout| - 1))
  }

  class Record {
    var fCoinBase: bool
    var vout: seq<TxOut>
    var nHeight: int
    var nVersion: int

    ghost function Abs(): State
      reads this
    {
      State(fCoinBase, vout, nHeight, nVersion)
    }

    // src/coins.h:85-87
    constructor FromTransaction(coinBase: bool, outs: seq<TxOut>, height: int, version: int)
      ensures vout == Trimmed(Blanked(outs)) && OffersSpendable(vout, outs)
      ensures Abs() == State(coinBase, vout, height, version)
      ensures Canonical(outs) ==> Canonical(vout)
    {
      fCoinBase, vout, nHeight, nVersion := coinBase, outs, height, version;
      new;
      ClearUnspendable();
    }

    // src/coins.h:90
    constructor ()
      ensures Abs() == State(false, [], 0, 0)
    {
      fCoinBase, vout, nHeight, nVersion := false, [], 0, 0;
    }

    // src/coins.h:93-98
    method Cleanup()
      modifies this`vout
      ensures vout == Trimmed(old(vout))
    {
      while |vout| > 0 && vout[|vout| - 1].IsNull()
        invariant Trimmed(vout) == Trimmed(old(vout))
        decreases |vout|
      {
        vout := vout[..|vout| - 1];
      }
    }

    // src/coins.h:100-106
    method ClearUnspendable()
      modifies this`vout
      ensures vout == Trimmed(Blanked(old(vout)))
      ensures OffersSpendable(vout, old(vout))
      ensures Canonical(old(vout)) ==> Canonical(vout)
    {
      ghost var outs := vout;
      var i := 0;
      while i < |vout|
        invariant i <= |vout| == |outs|
        invariant forall k :: 0 <= k < i ==> vout[k] == if Unspendable(outs[k].scriptPubKey) then Null else outs[k]
        invariant forall k :: i <= k < |outs| ==> vout[k] == outs[k]
      {
        if Unspendable(vout[i].scriptPubKey) { vout := vout[i := Null]; }
        i := i + 1;
      }
      TrimmedAvail(vout);
      assert vout == Blanked(outs);
      Cleanup();
    }

    // src/coins.cpp:15-21
    method MaskByteIsZero(b: nat) returns (fZero: bool)
      ensures fZero <==> MaskByte(vout, b) == 0
    {
      var i := 0;
      fZero := true;
      while i < 8 && 2 + b * 8 + i < |vout|
        invariant i <= 8
        invariant fZero <==> forall j: nat :: 2 + b * 8 <= j < 2 + b * 8 + i ==> !Avail(vout, j)
      {
        assert Avail(vout, 2 + b * 8 + i) == !vout[2 + b * 8 + i].IsNull();
        if !vout[2 + b * 8 + i].IsNull() { fZero := false; }
        i := i + 1;
      }
      BitsZero(vout, 2 + b * 8, 8);
    }

    // src/coins.cpp:12-28; the two counts are added to what the caller passes in
    method CalcMaskSize(bytesSoFar: nat, nonzeroSoFar: nat) returns (nBytes: nat, nNonzeroBytes: nat)
      ensures nBytes == bytesSoFar + MaskSize(vout)
      ensures nNonzeroBytes == nonzeroSoFar + MaskCode(vout)
    {
      hide MaskByte;
      nBytes, nNonzeroBytes := bytesSoFar, nonzeroSoFar;
      var nLastUsedByte, b := 0, 0;
      while 2 + b * 8 < |vout|
        invariant b <= Chunks(vout)
        invariant nLastUsedByte == LastUsed(vout, b)
        invariant nBytes == bytesSoFar && nNonzeroBytes == nonzeroSoFar + Nonzero(vout, 0, b)
      {
        var fZero := MaskByteIsZero(b);
        NonzeroSplit(vout, 0, b, b + 1);
        assert Nonzero(vout, b + 1, b + 1) == 0;
        if !fZero {
          nLastUsedByte := b + 1;
          nNonzeroBytes := nNonzeroBytes + 1;
        }
        b := b + 1;
      }
      nBytes := nBytes + nLastUsedByte;
    }

    // src/coins.h:135-156
    method GetSerializeSize(codec: Codec) returns (nSize: nat)
      requires Writable(Abs())
      ensures nSize == |Serialized(codec, Abs())|
    {
      hide Code, MaskCode, MaskSize, Pruned, Encoded;
      var nMaskSize, nMaskCode := CalcMaskSize(0, 0);
      var nCode := HeaderCode(nMaskCode);
      nSize := GetSizeOfVarInt(nVersion);
      var size := GetSizeOfVarInt(nCode);
      nSize := nSize + size + nMaskSize;
      ghost var head := nSize;
      var i := 0;
      while i < |vout|
        invariant i <= |vout| && nSize == head + |WrittenOuts(codec, vout, 0, i)|
      {
        WrittenSnoc(codec, vout, 0, i);
        if !vout[i].IsNull() {
          assert Avail(vout, i);
          var amount := Amount.CompressAmount(Unsigned64(vout[i].nValue));
          size := GetSizeOfVarInt(amount);
          nSize := nSize + size + |codec.write(vout[i].scriptPubKey)|;
        }
        i := i + 1;
      }
      size := GetSizeOfVarInt(nHeight);
      nSize := nSize + size;
    }

    // src/coins.h:138-142 and 161-165
    method HeaderCode(nMaskCode: nat) returns (nCode: nat)
      requires Writable(Abs()) && nMaskCode == MaskCode(vout)
      ensures nCode == Code(Abs())
    {
      var fFirst := |vout| > 0 && !vout[0].IsNull();
      var fSecond := |vout| > 1 && !vout[1].IsNull();
      PrunedParts(vout);
      assert fFirst || fSecond || nMaskCode != 0;
      nCode := 8 * (nMaskCode - (if fFirst || fSecond then 0 else 1))
               + (if fCoinBase then 1 else 0) + (if fFirst then 2 else 0) + (if fSecond then 4 else 0);
    }

    // src/coins.h:159-185
    method Serialize(codec: Codec) returns (s: seq<Byte>)
      requires Writable(Abs())
      ensures s == Serialized(codec, Abs())
    {
      var nMaskSize, nMaskCode := CalcMaskSize(0, 0);
      var nCode := HeaderCode(nMaskCode);
      s := WriteVarInt(nVersion);
      var bytes := WriteVarInt(nCode);
      s := s + bytes;
      bytes := SerializeMask(nMaskSize);
      s := s + bytes;
      bytes := SerializeOuts(codec);
      s := s + bytes;
      bytes := WriteVarInt(nHeight);
      s := s + bytes;
    }

    // src/coins.h:170-177
    method SerializeMask(nMaskSize: nat) returns (s: seq<Byte>)
      ensures s == MaskFrom(vout, 0, nMaskSize)
    {
      s := [];
      var b := 0;
      while b < nMaskSize
        invariant b <= nMaskSize && s == MaskFrom(vout, 0, b)
      {
        var chAvail := MaskByteNow(b);
        MaskSnoc(vout, 0, b);
        s := s + [chAvail];
        b := b + 1;
      }
    }

    // src/coins.h:178-182
    method SerializeOuts(codec: Codec) returns (s: seq<Byte>)
      ensures s == WrittenOuts(codec, vout, 0, |vout|)
    {
      s := [];
      var i := 0;
      while i < |vout|
        invariant i <= |vout| && s == WrittenOuts(codec, vout, 0, i)
      {
        WrittenSnoc(codec, vout, 0, i);
        if !vout[i].IsNull() {
          assert Avail(vout, i);
          var amount := Amount.CompressAmount(Unsigned64(vout[i].nValue));
          var bytes := WriteVarInt(amount);
          s := s + (bytes + codec.write(vout[i].scriptPubKey));
        }
        i := i + 1;
      }
    }

    // src/coins.h:171-174
    method MaskByteNow(b: nat) returns (chAvail: Byte)
      ensures chAvail == MaskByte(vout, b)
    {
      hide Pow2, MaskByte, Bit, Bits;
      NoBitsYet(vout, 2 + b * 8);
      var ch: nat, i := 0, 0;
      while i < 8 && 2 + b * 8 + i < |vout|
        invariant i <= 8 && ch == Bits(vout, 2 + b * 8, i)
      {
        BitsExtend(vout, 2 + b * 8, i);
        BitOfBits(vout, 2 + b * 8, i, i);
        assert !Bit(ch, i);
        if !vout[2 + b * 8 + i].IsNull() { ch := ch + Pow2(i); }
        i := i + 1;
      }
      BitsPadded(vout, 2 + b * 8, i, 8);
      MaskByteBits(vout, b);
      chAvail := ch;
    }

    // src/coins.h:188-219; a stream that ends too early leaves None
    method Unserialize(codec: Codec, s: seq<Byte>) returns (rest: Option<seq<Byte>>)
      modifies this
      ensures match Parsed(codec, s)
              case None => rest == None
              case Some((c, left)) => rest == Some(left) && Abs() == c
    {
      hide Decoded, ReadMask, ReadOuts;
      var word := ReadVarInt(U32, s);
      if word == None { return None; }
      nVersion := Signed(word.value.0);
      word := ReadVarInt(U32, word.value.1);
      if word == None { return None; }
      var nCode := word.value.0;
      if nCode < 0 { return None; }
      fCoinBase := Bit(nCode, 0);
      var mask := UnserializeMask(nCode, word.value.1);
      if mask == None { return None; }
      var left := UnserializeOuts(codec, mask.value.0, mask.value.1);
      if left == None { return None; }
      word := ReadVarInt(U32, left.value);
      if word == None { return None; }
      nHeight := Signed(word.value.0);
      Cleanup();
      rest := Some(word.value.1);
    }

    // src/coins.h:195-209
    method UnserializeMask(nCode: nat, s: seq<Byte>) returns (r: Option<(seq<bool>, seq<Byte>)>)
      ensures r == ReadMask(CodeMask(nCode), [Bit(nCode, 1), Bit(nCode, 2)], s)
    {
      var vAvail, rest := [Bit(nCode, 1), Bit(nCode, 2)], s;
      var nMaskCode := nCode / 8 + (if Bit(nCode, 1) || Bit(nCode, 2) then 0 else 1);
      while nMaskCode > 0
        invariant nMaskCode >= 0
        invariant ReadMask(nMaskCode, vAvail, rest) == ReadMask(CodeMask(nCode), [Bit(nCode, 1), Bit(nCode, 2)], s)
        decreases |rest|
      {
        if rest == [] { return None; }
        var chAvail := rest[0];
        rest := rest[1..];
        ghost var before := vAvail;
        var p := 0;
        while p < 8
          invariant p <= 8 && vAvail == before + FlagsOf(chAvail)[..p]
        {
          vAvail := vAvail + [Bit(chAvail, p)];
          p := p + 1;
        }
        assert FlagsOf(chAvail)[..8] == FlagsOf(chAvail);
        if chAvail != 0 { nMaskCode := nMaskCode - 1; }
      }
      return Some((vAvail, rest));
    }

    // src/coins.h:210-215
    method UnserializeOuts(codec: Codec, vAvail: seq<bool>, s: seq<Byte>) returns (rest: Option<seq<Byte>>)
      modifies this`vout
      ensures match ReadOuts(codec, vAvail, s)
              case None => rest == None
              case Some((outs, left)) => rest == Some(left) && vout == outs
    {
      hide ReadOut;
      vout := seq(|vAvail|, _ => Null);
      var left, i := s, 0;
      AfterNothing(ReadOuts(codec, vAvail, s));
      assert vAvail[0..] == vAvail && vout[..0] == [];
      while i < |vAvail|
        invariant i <= |vAvail| == |vout|
        invariant forall k :: i <= k < |vout| ==> vout[k] == Null
        invariant ReadOuts(codec, vAvail, s) == After(vout[..i], ReadOuts(codec, vAvail[i..], left))
      {
        ghost var before := vout[..i];
        if vAvail[i] {
          var out := TakeOut(codec, left);
          if out == None { return None; }
          vout := vout[i := out.value.0];
          left := out.value.1;
        }
        assert vAvail[i..][1..] == vAvail[i + 1..];
        assert vout[..i + 1] == before + [vout[i]];
        AfterStep(before, vout[i], ReadOuts(codec, vAvail[i + 1..], left));
        i := i + 1;
      }
      assert vout[..i] == vout;
      rest := Some(left);
    }

    // src/coins.cpp:30-45
    method Spend(n: nat) returns (undo: Option<Undo>)
      modifies this`vout
      ensures undo.Some? == Avail(old(vout), n)
      ensures undo.Some? ==> vout == Spent(old(vout), n)
      ensures undo == None ==> vout == old(vout)
      ensures undo.Some? ==> !Avail(vout, n) && undo.value.txout == old(vout)[n]
      ensures undo.Some? ==> forall k: nat :: k != n ==> Avail(vout, k) == Avail(old(vout), k)
      ensures undo.Some? ==> forall k: nat :: Avail(vout, k) && k < |old(vout)| ==> vout[k] == old(vout)[k]
      ensures undo.Some? && vout != [] ==> Avail(vout, |vout| - 1)
      ensures undo.Some? && Pruned(vout) ==> undo.value == Undo(old(vout)[n], fCoinBase, nHeight, nVersion)
      ensures undo.Some? && !Pruned(vout) ==> undo.value == Undo(old(vout)[n], false, 0, 0)
      ensures Canonical(old(vout)) ==> Canonical(vout)
    {
      if n >= |vout| || vout[n].IsNull() { return None; }
      var u := Undo(vout[n], false, 0, 0);
      vout := vout[n := Null];
      TrimmedAvail(vout);
      Cleanup();
      if |vout| == 0 { u := u.(nHeight := nHeight, fCoinBase := fCoinBase, nVersion := nVersion); }
      undo := Some(u);
    }
  }

  // src/core.h: the read half of CTxOutCompressor
  method TakeOut(codec: Codec, s: seq<Byte>) returns (r: Option<(TxOut, seq<Byte>)>)
    ensures r == ReadOut(codec, s)
  {
    var word := ReadVarInt(Amount.U64, s);
    if word == None || word.value.0 < 0 { return None; }
    var script := codec.read(word.value.1);
    if script == None { return None; }
    DecodedBound(Amount.U64, s);
    var nValue := Amount.DecompressAmount(word.value.0);
    r := Some((TxOut(Signed64(nValue), script.value.0), script.value.1));
  }

  lemma DecodedBound(modulus: int, s: seq<Byte>)
    requires modulus > 0
    ensures Decoded(modulus, s).Some? ==> 0 <= Decoded(modulus, s).value.0 < modulus
  {
    ReadFromBound(0, modulus, s);
  }

  lemma {:induction false} ReadFromBound(n: int, modulus: int, s: seq<Byte>)
    requires modulus > 0
    ensures ReadFrom(n, modulus, s).Some? ==> 0 <= ReadFrom(n, modulus, s).value.0 < modulus
    decreases |s|
  {
    if s != [] && s[0] >= 128 { ReadFromBound((n * 128 + s[0] % 128 + 1) % modulus, modulus, s[1..]); }
  }

  /** What reading the remaining outputs adds to those already read. */
  function After(done: seq<TxOut>, r: Option<(seq<TxOut>, seq<Byte>)>): Option<(seq<TxOut>, seq<Byte>)> {
    match r
    case None => None
    case Some((outs, left)) => Some((done + outs, left))
  }

  lemma AfterNothing(r: Option<(seq<TxOut>, seq<Byte>)>)
    ensures After([], r) == r
  {
    if r.Some? { assert [] + r.value.0 == r.value.0; }
  }

  lemma AfterStep(done: seq<TxOut>, next: TxOut, r: Option<(seq<TxOut>, seq<Byte>)>)
    ensures After(done + [next], r) == After(done, After([next], r))
  {
    if r.Some? { assert done + [next] + r.value.0 == done + ([next] + r.value.0); }
  }

  lemma {:induction false} BitsPadded(vout: seq<TxOut>, k: nat, n: nat, m: nat)
    requires n <= m && (n < m ==> k + n >= |vout|)
    ensures Bits(vout, k, n) == Bits(vout, k, m)
    decreases m - n
  {
    if n < m {
      BitsExtend(vout, k, n);
      BitsPadded(vout, k, n + 1, m);
    }
  }
}

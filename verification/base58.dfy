/** Base58 (src/base58.cpp:18-179): big numbers in digit arrays, against plain arithmetic
    (scripts/build_portal_indexes.py:72-83). */
module Base58 {
  import opened Common
  import opened Radix

  /** All alphanumeric characters except 0, I, O and l. */
  function Alphabet(): string { Digits9() + AtoH() + JtoN() + PtoZ() + LowerAtoK() + LowerMtoZ() }

  function Digits9(): string { "123456789" }
  function AtoH(): string { "ABCDEFGH" }
  function JtoN(): string { "JKLMN" }
  function PtoZ(): string { "PQRSTUVWXYZ" }
  function LowerAtoK(): string { "abcdefghijk" }
  function LowerMtoZ(): string { "mnopqrstuvwxyz" }

  predicate Run(s: string, first: char, n: nat) {
    |s| == n && forall k :: 0 <= k < n ==> s[k] as int == first as int + k
  }

  lemma Runs()
    ensures Run(Digits9(), '1', 9) && Run(AtoH(), 'A', 8) && Run(JtoN(), 'J', 5)
    ensures Run(PtoZ(), 'P', 11) && Run(LowerAtoK(), 'a', 11) && Run(LowerMtoZ(), 'm', 14)
  {
  }

  /** The same alphabet as ranges of characters. */
  function Char(i: nat): char
    requires i < 58
  {
    if i < 9 then '1' + i as char
    else if i < 17 then 'A' + (i - 9) as char
    else if i < 22 then 'J' + (i - 17) as char
    else if i < 33 then 'P' + (i - 22) as char
    else if i < 44 then 'a' + (i - 33) as char
    else 'm' + (i - 44) as char
  }

  lemma AlphabetIs(i: nat)
    requires i < 58
    ensures |Alphabet()| == 58 && Alphabet()[i] == Char(i)
  {
    hide Digits9, AtoH, JtoN, PtoZ, LowerAtoK, LowerMtoZ;
    Runs();
  }

  /** Where a character stands in the alphabet, if it does. */
  function Index(c: char): Option<nat> {
    if '1' <= c <= '9' then Some((c - '1') as nat)
    else if 'A' <= c <= 'H' then Some(9 + (c - 'A') as nat)
    else if 'J' <= c <= 'N' then Some(17 + (c - 'J') as nat)
    else if 'P' <= c <= 'Z' then Some(22 + (c - 'P') as nat)
    else if 'a' <= c <= 'k' then Some(33 + (c - 'a') as nat)
    else if 'm' <= c <= 'z' then Some(44 + (c - 'm') as nat)
    else None
  }

  lemma IndexOfChar(i: nat)
    requires i < 58
    ensures Index(Char(i)) == Some(i)
  {
  }

  lemma CharOfIndex(c: char)
    ensures Index(c).Some? ==> Index(c).value < 58 && Char(Index(c).value) == c
  {
  }

  // --- What is encoded ------------------------------------------------------------------------

  function Ones(k: nat): (r: string)
    ensures |r| == k && forall i :: 0 <= i < k ==> r[i] == '1'
  {
    seq(k, _ => '1')
  }

  /** Digits as characters. */
  function Chars(d: seq<nat>): (r: string)
    requires Below(d, 58)
    ensures |r| == |d| && forall i :: 0 <= i < |d| ==> r[i] == Char(d[i])
  {
    seq(|d|, i requires 0 <= i < |d| => Char(d[i]))
  }

  /** The plain form: as many ones as there are leading zero bytes, then the big number in base 58. */
  function Encoded(b: seq<Byte>): string {
    Ones(LeadingZeros(b)) + Chars(Digits(Num(b, 256), 58))
  }

  // src/base58.cpp:55-57, 68-72 and 88-90, scripts/build_portal_indexes.py:79-82
  method CountLeadingZeros(d: seq<nat>) returns (k: nat)
    ensures k == LeadingZeros(d)
  {
    k := 0;
    while k < |d| && d[k] == 0
      invariant k <= |d| && forall i :: 0 <= i < k ==> d[i] == 0
    {
      k := k + 1;
    }
  }

  // scripts/build_portal_indexes.py:72-83
  method B58Encode(b: seq<Byte>) returns (s: string)
    ensures s == Encoded(b)
  {
    hide Num, Digits;
    DigitsOfZero();
    var n, out := Num(b, 256), "";
    assert Digits(n, 58) + [] == Digits(n, 58);
    ghost var done: seq<nat> := [];
    while n > 0
      invariant Below(done, 58) && out == Chars(done)
      invariant Digits(n, 58) + done == Digits(Num(b, 256), 58)
      decreases n
    {
      var r := n % 58;
      DigitsStep(n);
      AlphabetIs(r);
      assert Digits(n, 58) + done == Digits(n / 58, 58) + ([r] + done);
      n := n / 58;
      out := [Alphabet()[r]] + out;
      done := [r] + done;
    }
    assert [] + done == done;
    var pad := CountLeadingZeros(b);
    s := Ones(pad) + out;
  }

  lemma DigitsOfZero()
    ensures Digits(0, 58) == []
  {
  }

  lemma DigitsStep(n: nat)
    requires n > 0
    ensures n / 58 < n && Digits(n, 58) == Digits(n / 58, 58) + [n % 58]
  {
  }

  // src/base58.cpp:87-97
  method Translate(d: seq<nat>, zeroes: nat) returns (str: string)
    requires Below(d, 58)
    ensures str == Ones(zeroes) + Chars(Significant(d))
  {
    var start := CountLeadingZeros(d);
    str := Ones(zeroes);
    var it := start;
    while it < |d|
      invariant start <= it <= |d| && str == Ones(zeroes) + Chars(d[start..it])
    {
      AlphabetIs(d[it]);
      assert d[start..it + 1] == d[start..it] + [d[it]];
      str := str + [Alphabet()[d[it]]];
      it := it + 1;
    }
    assert d[start..it] == Significant(d);
  }

  // src/base58.cpp:66-98
  method EncodeBase58(b: seq<Byte>) returns (str: string)
    ensures str == Encoded(b)
  {
    hide Num, Pow, Below, Digits;
    var zeroes := CountLeadingZeros(b);
    var rest := b[zeroes..];
    var b58 := new nat[|rest| * 138 / 100 + 1](_ => 0);
    AllZero(b58[..], 58);
    Room58(|rest|);
    Empty(256);
    var k := 0;
    while k < |rest|
      invariant 0 <= k <= |rest| && Below(b58[..], 58) && Num(b58[..], 58) == Num(rest[..k], 256)
    {
      BytesBelow(rest);
      NumSnoc(rest, k, 256);
      PrefixFits(rest, k + 1, 256, Pow(58, b58.Length));
      MultiplyAdd(b58, 58, 256, rest[k]);
      k := k + 1;
    }
    assert rest[..k] == rest;
    BytesBelow(b);
    LeadingZerosMeanNothing(b, 256);
    SignificantIsDigits(b58[..], 58);
    str := Translate(b58[..], zeroes);
  }

  lemma BytesBelow(b: seq<Byte>)
    ensures Below(b, 256)
  {
  }

  lemma {:induction false} AllZero(d: seq<nat>, base: nat)
    requires base > 0 && forall i :: 0 <= i < |d| ==> d[i] == 0
    ensures Num(d, base) == 0 && Below(d, base)
    decreases |d|
  {
    if d != [] { AllZero(d[..|d| - 1], base); }
  }

  lemma NumSnoc(d: seq<nat>, k: nat, base: nat)
    requires k < |d|
    ensures Num(d[..k + 1], base) == Num(d[..k], base) * base + d[k]
  {
    assert d[..k + 1][..k] == d[..k];
  }

  /** Every prefix stays below a bound that the whole stays below. */
  lemma PrefixFits(d: seq<nat>, k: nat, base: nat, bound: nat)
    requires base > 1 && Below(d, base) && k <= |d| && Pow(base, |d|) <= bound
    ensures Num(d[..k], base) < bound
  {
    NumBound(d[..k], base);
    if k < |d| { PowGrows(base, k, |d|); }
  }

  // --- What is decoded ------------------------------------------------------------------------

  /** isspace in the C locale. */
  predicate Space(c: char) { c == ' ' || 9 as char <= c <= 13 as char }

  /** Blank, tab, line feed, vertical tab, form feed and carriage return; no digit is among them. */
  lemma SpacesAre(c: char)
    ensures Space(c) <==> c in {' ', '\t', '\n', '\U{0B}', '\U{0C}', '\r'}
    ensures Space(c) ==> c !in Alphabet()
  {
    forall i: nat | i < |Alphabet()| ensures !Space(Alphabet()[i]) {
      hide Alphabet;
      AlphabetIs(0);
      AlphabetIs(i);
    }
  }

  function LeadingSpaces(s: string): (k: nat)
    ensures k <= |s| && (forall i :: 0 <= i < k ==> Space(s[i])) && (k < |s| ==> !Space(s[k]))
  {
    if s != [] && Space(s[0]) then 1 + LeadingSpaces(s[1..]) else 0
  }

  function TrimRight(s: string): (r: string)
    ensures r <= s && (r != [] ==> !Space(r[|r| - 1])) && forall i :: |r| <= i < |s| ==> Space(s[i])
  {
    if s != [] && Space(s[|s| - 1]) then TrimRight(s[..|s| - 1]) else s
  }

  /** A string without the white space around it. */
  function Core(s: string): string { TrimRight(s[LeadingSpaces(s)..]) }

  predicate Plain(s: string) { forall i :: 0 <= i < |s| ==> Index(s[i]).Some? }

  function Values(s: string): (v: seq<nat>)
    requires Plain(s)
    ensures |v| == |s| && Below(v, 58) && forall i :: 0 <= i < |s| ==> v[i] == Index(s[i]).value
  {
    seq(|s|, i requires 0 <= i < |s| => Index(s[i]).value)
  }

  function AsBytes(d: seq<nat>): (r: seq<Byte>)
    requires Below(d, 256)
    ensures r == d
  {
    d
  }

  /** What a string decodes to: as many zero bytes as there are leading ones, then the number. */
  function Decoded(s: string): Option<seq<Byte>> {
    if Plain(Core(s)) then Some(Meaning(Values(Core(s)))) else None
  }

  function Meaning(v: seq<nat>): seq<Byte>
    requires Below(v, 58)
  {
    ZeroBytes(LeadingZeros(v)) + AsBytes(Digits(Num(v, 58), 256))
  }

  predicate AllSpaces(s: string, i: nat, j: nat) { forall k :: i <= k < j && k < |s| ==> Space(s[k]) }

  predicate NoSpaces(s: string, i: nat, j: nat) { forall k :: i <= k < j && k < |s| ==> !Space(s[k]) }

  predicate AllOnes(s: string, i: nat, j: nat) { forall k :: i <= k < j && k < |s| ==> s[k] == '1' }

  // src/base58.cpp:22-24 and 49-51
  method SkipSpaces(s: string, start: nat) returns (p: nat)
    requires start <= |s|
    ensures start <= p <= |s| && AllSpaces(s, start, p) && (p < |s| ==> !Space(s[p]))
  {
    p := start;
    while p < |s| && Space(s[p])
      invariant start <= p <= |s| && AllSpaces(s, start, p)
    {
      p := p + 1;
    }
  }

  // src/base58.cpp:25-30
  method SkipOnes(s: string, start: nat) returns (p: nat, zeroes: nat)
    requires start <= |s|
    ensures start <= p <= |s| && zeroes == p - start
    ensures AllOnes(s, start, p) && (p < |s| ==> s[p] != '1')
  {
    p, zeroes := start, 0;
    while p < |s| && s[p] == '1'
      invariant start <= p <= |s| && zeroes == p - start && AllOnes(s, start, p)
    {
      zeroes := zeroes + 1;
      p := p + 1;
    }
  }

  // src/base58.cpp:31-48; stops at white space, the end, or a character outside the alphabet
  method ReadDigits(s: string, start: nat) returns (p: nat, d: seq<nat>)
    requires start <= |s|
    ensures start <= p <= |s| && Plain(s[start..p]) && NoSpaces(s, start, p)
    ensures p < |s| ==> Space(s[p]) || Index(s[p]) == None
    ensures Below(d, 256) && Num(d, 256) == Num(Values(s[start..p]), 58)
  {
    hide Num, Pow, Below, Values;
    var b256 := new nat[(|s| - start) * 733 / 1000 + 1](_ => 0);
    AllZero(b256[..], 256);
    Room256(|s| - start);
    NoValues(s[start..start]);
    p := start;
    while p < |s| && !Space(s[p])
      invariant start <= p <= |s| && Plain(s[start..p]) && Below(b256[..], 256)
      invariant Num(b256[..], 256) == Num(Values(s[start..p]), 58)
      invariant NoSpaces(s, start, p)
    {
      var ch := Index(s[p]);
      if ch == None { break; }
      ValuesSnoc(s, start, p);
      ValuesFit(s, start, p + 1, Pow(256, b256.Length));
      MultiplyAdd(b256, 256, 58, ch.value);
      p := p + 1;
    }
    d := b256[..];
  }

  lemma NoValues(s: string)
    requires s == []
    ensures Plain(s) && Num(Values(s), 58) == 0
  {
  }

  // src/base58.cpp:21-64
  method DecodeBase58(psz: string, before: seq<Byte>) returns (ok: bool, vch: seq<Byte>)
    ensures ok <==> Decoded(psz).Some?
    ensures if ok then Decoded(psz) == Some(vch) else vch == before
  {
    hide Num, Pow, Below, Digits, Decoded, Meaning, Values, Plain, Space, Core, LeadingSpaces, LeadingZeros;
    hide AllSpaces, NoSpaces, AllOnes, SpacesFrom, Index;
    var a := SkipSpaces(psz, 0);
    var start, zeroes := SkipOnes(psz, a);
    var p, b256 := ReadDigits(psz, start);
    NotSpaces(psz, a, start, p);
    if p < |psz| && !Space(psz[p]) {
      NotPlain(psz, p, p);
      return false, before;
    }
    var e := p;
    p := SkipSpaces(psz, p);
    if p < |psz| {
      NotPlain(psz, e, p);
      return false, before;
    }
    RestSpaces(psz, e);
    CoreIs(psz, e);
    OnesFirst(psz, a, start, e);
    SignificantIsDigits(b256, 256);
    DecodedIs(psz, a, start, e, b256);
    var it := CountLeadingZeros(b256);
    return true, ZeroBytes(zeroes) + AsBytes(b256[it..]);
  }

  lemma NotSpaces(s: string, a: nat, start: nat, p: nat)
    requires a <= start <= p <= |s| && AllSpaces(s, 0, a) && (a < |s| ==> !Space(s[a]))
    requires AllOnes(s, a, start) && NoSpaces(s, start, p)
    ensures LeadingSpaces(s) == a && (p > a ==> !Space(s[p - 1]))
    ensures p < |s| && Space(s[p]) ==> Index(s[p]) == None
  {
  }

  /** A character outside the alphabet, with something other than white space at or after it. */
  lemma NotPlain(s: string, i: nat, j: nat)
    requires LeadingSpaces(s) <= i <= j < |s| && Index(s[i]) == None && !Space(s[j])
    ensures Decoded(s) == None
  {
    hide Space, LeadingSpaces, TrimRight, Index, Meaning, Values;
    var k := LeadingSpaces(s);
    var t, r := s[k..], Core(s);
    assert t[j - k] == s[j];
    assert j - k < |r|;
    assert r[i - k] == t[i - k] == s[i];
  }

  predicate SpacesFrom(s: string, e: nat) { forall i :: e <= i < |s| ==> Space(s[i]) }

  lemma {:induction false} TrimmedAt(t: string, m: nat)
    requires m <= |t| && SpacesFrom(t, m) && (m > 0 ==> !Space(t[m - 1]))
    ensures TrimRight(t) == t[..m]
    decreases |t|
  {
    if m < |t| {
      var u := t[..|t| - 1];
      TrimmedAt(u, m);
    }
  }

  lemma SpacesShift(s: string, k: nat, e: nat)
    requires k <= e <= |s| && SpacesFrom(s, e)
    ensures SpacesFrom(s[k..], e - k)
  {
  }

  lemma CoreIs(s: string, e: nat)
    requires LeadingSpaces(s) <= e <= |s| && SpacesFrom(s, e)
    requires e > LeadingSpaces(s) ==> !Space(s[e - 1])
    ensures Core(s) == s[LeadingSpaces(s)..e]
  {
    hide Space, TrimRight, LeadingSpaces, SpacesFrom;
    var k := LeadingSpaces(s);
    SpacesShift(s, k, e);
    TrimmedAt(s[k..], e - k);
  }

  lemma RestSpaces(s: string, e: nat)
    requires AllSpaces(s, e, |s|)
    ensures SpacesFrom(s, e)
  {
  }

  lemma ValuesSnoc(s: string, start: nat, p: nat)
    requires start <= p < |s| && Plain(s[start..p]) && Index(s[p]).Some?
    ensures Plain(s[start..p + 1])
    ensures Num(Values(s[start..p + 1]), 58) == Num(Values(s[start..p]), 58) * 58 + Index(s[p]).value
  {
    assert s[start..p + 1] == s[start..p] + [s[p]];
    var v := Values(s[start..p + 1]);
    assert v[..p - start] == Values(s[start..p]);
  }

  lemma ValuesFit(s: string, start: nat, p: nat, bound: nat)
    requires start <= p <= |s| && Plain(s[start..p]) && Pow(58, |s| - start) <= bound
    ensures Num(Values(s[start..p]), 58) < bound
  {
    NumBound(Values(s[start..p]), 58);
    if p < |s| { PowGrows(58, p - start, |s| - start); }
  }

  /** The leading ones are the leading zeros of the value. */
  lemma OnesFirst(s: string, a: nat, start: nat, e: nat)
    requires a <= start <= e <= |s| && Plain(s[start..e])
    requires AllOnes(s, a, start)
    requires start < e ==> s[start] != '1'
    ensures Plain(s[a..e]) && LeadingZeros(Values(s[a..e])) == start - a
    ensures Significant(Values(s[a..e])) == Values(s[start..e])
  {
    hide Index, AllOnes, LeadingZeros;
    var x, y := s[a..start], s[start..e];
    assert s[a..e] == x + y;
    OnesAt(s, a, start);
    OnesThen(x, y);
    if start < e {
      assert y[0] == s[start];
      NotOne(y[0]);
    }
  }

  lemma OnesAt(s: string, a: nat, start: nat)
    requires a <= start <= |s| && AllOnes(s, a, start)
    ensures forall i :: 0 <= i < start - a ==> s[a..start][i] == '1'
  {
  }

  lemma NotOne(c: char)
    requires c != '1' && Index(c).Some?
    ensures Index(c).value != 0
  {
  }

  lemma OnesThen(x: string, y: string)
    requires Plain(y) && forall i :: 0 <= i < |x| ==> x[i] == '1'
    ensures Plain(x + y) && Values(x + y) == ZeroBytes(|x|) + Values(y)
  {
    hide Index;
    assert Index('1') == Some(0) by { OneIsZero(); }
  }

  lemma OneIsZero()
    ensures Index('1') == Some(0)
  {
  }

  lemma DecodedIs(s: string, a: nat, start: nat, e: nat, b: seq<nat>)
    requires a <= start <= e <= |s| && Core(s) == s[a..e] && Plain(s[start..e]) && Plain(s[a..e])
    requires LeadingZeros(Values(s[a..e])) == start - a && Significant(Values(s[a..e])) == Values(s[start..e])
    requires Below(b, 256) && Num(b, 256) == Num(Values(s[start..e]), 58)
    requires Significant(b) == Digits(Num(b, 256), 256)
    ensures Decoded(s) == Some(ZeroBytes(start - a) + AsBytes(Significant(b)))
  {
    LeadingZerosMeanNothing(Values(s[a..e]), 58);
  }

  // --- Round trips ----------------------------------------------------------------------------

  lemma ZerosThenDigits(k: nat, d: seq<nat>, base: nat)
    requires base > 1 && Below(d, base) && (d != [] ==> d[0] != 0)
    ensures Below(ZeroBytes(k) + d, base) && LeadingZeros(ZeroBytes(k) + d) == k && Num(ZeroBytes(k) + d, base) == Num(d, base)
  {
    var all := ZeroBytes(k) + d;
    assert LeadingZeros(all) <= k by { if d != [] { assert all[k] == d[0]; } }
    assert Significant(all) == d;
    LeadingZerosMeanNothing(all, base);
  }

  /** An encoded string has no white space, and its values are those of the encoding. */
  lemma EncodedValues(k: nat, d: seq<nat>)
    requires Below(d, 58)
    ensures var s := Ones(k) + Chars(d); Core(s) == s && Plain(s) && Values(s) == ZeroBytes(k) + d
  {
    var s := Ones(k) + Chars(d);
    forall i | 0 <= i < |s|
      ensures Index(s[i]) == Some((ZeroBytes(k) + d)[i]) && !Space(s[i])
    {
      if i >= k { IndexOfChar(d[i - k]); }
    }
    CoreIs(s, |s|);
  }

  /** Decoding what was encoded gives the bytes back. */
  lemma EncodeThenDecode(b: seq<Byte>)
    ensures Decoded(Encoded(b)) == Some(b)
  {
    hide Num, Below, Core;
    var k, d := LeadingZeros(b), Digits(Num(b, 256), 58);
    EncodedValues(k, d);
    ZerosThenDigits(k, d, 58);
    NumOfDigits(Num(b, 256), 58);
    BytesBelow(b);
    SignificantIsDigits(b, 256);
    assert b == ZeroBytes(k) + Significant(b);
  }

  /** Encoding what was decoded gives the string back, without the white space around it. */
  lemma DecodeThenEncode(s: string)
    requires Decoded(s).Some?
    ensures Encoded(Decoded(s).value) == Core(s)
  {
    hide Num, Below, Core, Index;
    var core := Core(s);
    var v := Values(core);
    var k, d := LeadingZeros(v), Digits(Num(v, 58), 256);
    ZerosThenDigits(k, d, 256);
    NumOfDigits(Num(v, 58), 256);
    SignificantIsDigits(v, 58);
    assert Encoded(Decoded(s).value) == Ones(k) + Chars(Significant(v));
    forall i | 0 <= i < |core|
      ensures core[i] == (Ones(k) + Chars(v[k..]))[i]
    {
      CharOfIndex(core[i]);
      CharOfIndex('1');
      assert v[i] == Index(core[i]).value;
      if i < k { ZeroIsOne(core[i]); }
    }
  }

  lemma ZeroIsOne(c: char)
    requires Index(c) == Some(0)
    ensures c == '1'
  {
  }

  // --- Checked strings ------------------------------------------------------------------------

  /** The hash behind the checksum; only that it is long enough matters. */
  datatype Hasher = Hasher(hash: seq<Byte> -> seq<Byte>) {
    ghost predicate Works() { forall s :: |hash(s)| == 32 }
  }

  function Sealed(h: Hasher, b: seq<Byte>): seq<Byte>
    requires |h.hash(b)| == 32
  {
    b + h.hash(b)[..4]
  }

  // src/base58.cpp:108-114
  method EncodeBase58Check(h: Hasher, vchIn: seq<Byte>) returns (s: string)
    requires h.Works()
    ensures s == Encoded(Sealed(h, vchIn))
  {
    var vch := vchIn + h.hash(vchIn)[..4];
    s := EncodeBase58(vch);
  }

  function DecodedCheck(h: Hasher, s: string): Option<seq<Byte>>
    requires h.Works()
  {
    match Decoded(s)
    case None => None
    case Some(v) =>
      if |v| < 4 then None
      else
        var b := v[..|v| - 4];
        if h.hash(b)[..4] == v[|v| - 4..] then Some(b) else None
  }

  // src/base58.cpp:116-133; `before` is what the caller's vector held
  method DecodeBase58Check(h: Hasher, psz: string, before: seq<Byte>) returns (ok: bool, vch: seq<Byte>)
    requires h.Works()
    ensures ok <==> DecodedCheck(h, psz).Some?
    ensures ok ==> DecodedCheck(h, psz) == Some(vch)
    ensures !ok ==> vch == if Decoded(psz).Some? then [] else before
  {
    hide Decoded;
    ok, vch := DecodeBase58(psz, before);
    if !ok { return false, vch; }
    if |vch| < 4 { return false, []; }
    if h.hash(vch[..|vch| - 4])[..4] != vch[|vch| - 4..] { return false, []; }
    return true, vch[..|vch| - 4];
  }

  /** A string passes the check exactly when it is, up to white space, the checked form of the bytes
      it yields. */
  lemma CheckedIff(h: Hasher, s: string, b: seq<Byte>)
    requires h.Works()
    ensures DecodedCheck(h, s) == Some(b) <==> Core(s) == Encoded(Sealed(h, b))
  {
    hide Core, Encoded, Decoded, Sealed;
    SealedParts(h, b);
    if DecodedCheck(h, s) == Some(b) {
      DecodeThenEncode(s);
      var v := Decoded(s).value;
      assert v == v[..|v| - 4] + v[|v| - 4..];
    }
    if Core(s) == Encoded(Sealed(h, b)) {
      EncodeThenDecode(Sealed(h, b));
      CoreOnly(s);
      EncodedCore(Sealed(h, b));
      CoreOnly(Encoded(Sealed(h, b)));
    }
  }

  lemma SealedParts(h: Hasher, b: seq<Byte>)
    requires h.Works()
    ensures var v := Sealed(h, b); |v| == |b| + 4 && v == b + h.hash(b)[..4] && v[..|v| - 4] == b && v[|v| - 4..] == h.hash(b)[..4]
  {
  }

  /** Only the string without the white space around it matters. */
  lemma CoreOnly(s: string)
    ensures Decoded(s) == if Plain(Core(s)) then Some(Meaning(Values(Core(s)))) else None
  {
  }

  lemma EncodedCore(b: seq<Byte>)
    ensures Core(Encoded(b)) == Encoded(b)
  {
    EncodedValues(LeadingZeros(b), Digits(Num(b, 256), 58));
  }

  /** A string with a version in front of its data (src/base58.h: CBase58Data). */
  class Base58Data {
    var vchVersion: seq<Byte>
    var vchData: seq<Byte>

    // src/base58.cpp:139-142
    constructor ()
      ensures vchVersion == [] && vchData == []
    {
      vchVersion, vchData := [], [];
    }

    // src/base58.cpp:155-169; the verdict of the check is not looked at, so with no version bytes every string will do
    method SetString(h: Hasher, psz: string, nVersionBytes: nat) returns (ok: bool)
      requires h.Works()
      modifies this
      ensures var v := if DecodedCheck(h, psz).Some? then DecodedCheck(h, psz).value else [];
              && (ok <==> nVersionBytes == 0 || (DecodedCheck(h, psz).Some? && |v| >= nVersionBytes))
              && (ok ==> |vchVersion| == nVersionBytes && vchVersion + vchData == v)
              && (!ok ==> vchVersion == [] && vchData == [])
    {
      hide Decoded;
      var good, vchTemp := DecodeBase58Check(h, psz, []);
      if |vchTemp| < nVersionBytes {
        vchData, vchVersion := [], [];
        return false;
      }
      vchVersion := vchTemp[..nVersionBytes];
      vchData := vchTemp[nVersionBytes..];
      return true;
    }

    // src/base58.cpp:175-179
    method ToString(h: Hasher) returns (s: string)
      requires h.Works()
      ensures s == Encoded(Sealed(h, vchVersion + vchData))
    {
      s := EncodeBase58Check(h, vchVersion + vchData);
    }
  }

  // --- Rooms ----------------------------------------------------------------------------------

  lemma Join(b: nat, m: nat, n: nat, vm: nat, vn: nat)
    requires Pow(b, m) == vm && Pow(b, n) == vn
    ensures Pow(b, m + n) == vm * vn
  {
    PowAdd(b, m, n);
  }

  const P58_2: nat := 0xD24
  const P58_4: nat := 0xACAD10
  const P58_8: nat := 0x7479027EA100
  const P58_16: nat := 0x34FDE3761DA26B26E1410000
  const P58_32: nat := 0xAF820335D9B3D9CF58B911D87035677FB7F528100000000
  const P58_64: nat := 0x7853026AE25F4CE0C69893E6F1F86F67AEF4DB69563516064ADEB967A9D66F4FE64B09EC94E5010000000000000000

  lemma Powers58()
    ensures Pow(58, 6) == P58_4 * P58_2
    ensures Pow(58, 11) == P58_8 * P58_2 * 58
    ensures Pow(58, 71) == P58_64 * P58_4 * P58_2 * 58
  {
    assert Pow(58, 1) == 58;
    hide Pow;
    Join(58, 1, 1, 58, 58);
    Join(58, 2, 2, P58_2, P58_2);
    Join(58, 4, 4, P58_4, P58_4);
    Join(58, 8, 8, P58_8, P58_8);
    Join(58, 16, 16, P58_16, P58_16);
    Join(58, 32, 32, P58_32, P58_32);
    Join(58, 4, 2, P58_4, P58_2);
    Join(58, 8, 2, P58_8, P58_2);
    Join(58, 10, 1, P58_8 * P58_2, 58);
    Join(58, 64, 4, P58_64, P58_4);
    Join(58, 68, 2, P58_64 * P58_4, P58_2);
    Join(58, 70, 1, P58_64 * P58_4 * P58_2, 58);
  }

  const P256_4: nat := 0x100000000
  const P256_8: nat := 0x10000000000000000
  const P256_16: nat := 0x100000000000000000000000000000000
  const P256_32: nat := 0x10000000000000000000000000000000000000000000000000000000000000000

  lemma Powers256()
    ensures Pow(256, 4) == P256_4 && Pow(256, 5) == P256_4 * 256 && Pow(256, 8) == P256_8
    ensures Pow(256, 52) == P256_32 * P256_16 * P256_4
  {
    assert Pow(256, 1) == 256;
    hide Pow;
    Join(256, 1, 1, 256, 256);
    Join(256, 2, 2, 0x10000, 0x10000);
    Join(256, 4, 1, P256_4, 256);
    Join(256, 4, 4, P256_4, P256_4);
    Join(256, 8, 8, P256_8, P256_8);
    Join(256, 16, 16, P256_16, P256_16);
    Join(256, 32, 16, P256_32, P256_16);
    Join(256, 48, 4, P256_32 * P256_16, P256_4);
  }

  lemma Pieces(a: nat, b: nat, m: nat, n: nat, k: nat, m': nat, n': nat)
    requires Pow(a, m) <= Pow(b, n) && Pow(a, m') <= Pow(b, n')
    ensures Pow(a, m * k + m') <= Pow(b, n * k + n')
  {
    hide Pow;
    PowMul(a, m, k);
    PowMul(b, n, k);
    PowMonotone(Pow(a, m), Pow(b, n), k);
    PowAdd(a, m * k, m');
    PowAdd(b, n * k, n');
    Product(Pow(a, m * k), Pow(b, n * k), Pow(a, m'), Pow(b, n'));
  }

  /** The inequalities behind the factors 138/100 and 733/1000. */
  lemma Powers()
    ensures Pow(256, 100) <= Pow(58, 138) && Pow(58, 1000) <= Pow(256, 733)
  {
    hide Pow;
    Powers58();
    Powers256();
    Pieces(256, 58, 8, 11, 12, 4, 6);
    Pieces(58, 256, 71, 52, 14, 6, 5);
  }

  lemma Room58(n: nat)
    ensures Pow(256, n) <= Pow(58, n * 138 / 100 + 1)
  {
    hide Pow;
    Powers();
    BufferSuffices(256, 58, 138, 100, n);
  }

  lemma Room256(n: nat)
    ensures Pow(58, n) <= Pow(256, n * 733 / 1000 + 1)
  {
    hide Pow;
    Powers();
    BufferSuffices(58, 256, 733, 1000, n);
  }
}

/** The UTF-8 decoder of input.type and the Latin-1 converter of command
    output: total on any bytes, inverse to the encoding of section 3 of
    RFC 3629 on well-formed ones. */
module Utf8 {
  import opened CTypes
  import opened Sequences

  // ---- decoding ----

  /** How many continuation bytes a lead byte asks for; 0 for ASCII and for
      bytes that lead nothing. The masks test the top bits 110, 1110, 11110. */
  function Needs(c: uint8): (n: nat)
    ensures n <= 3
  {
    if c / 0x20 == 6 then 1 else if c / 0x10 == 14 then 2 else if c / 8 == 30 then 3 else 0
  }

  /** The lead byte's own payload bits. */
  function LeadBits(c: uint8): nat {
    match Needs(c)
    case 1 => c % 0x20
    case 2 => c % 0x10
    case 3 => c % 8
    case _ => c
  }

  predicate Continues(c: uint8) {
    c / 0x40 == 2
  }

  /** s begins with a lead byte and all the continuations it asks for. */
  ghost predicate WellLed(s: seq<uint8>) {
    s != [] && Needs(s[0]) > 0 && Needs(s[0]) < |s| && forall k :: 1 <= k <= Needs(s[0]) ==> Continues(s[k])
  }

  /** Six bits from each of s[1..k]. */
  function Gather(s: seq<uint8>, k: nat): nat
    requires k < |s|
  {
    if k == 0 then LeadBits(s[0]) else Gather(s, k - 1) * 64 + s[k] % 64
  }

  /** The first character of s: its code point and its bytes. A byte that does
      not lead all the continuations it asks for is taken alone and stands for
      itself; what they spell is not looked at, so over-long forms, surrogates
      and codes above 0x10FFFF are decoded like any other. */
  ghost function First(s: seq<uint8>): (r: (nat, nat))
    requires s != []
    ensures 1 <= r.1 <= 4 && r.1 <= |s|
  {
    if WellLed(s) then (Gather(s, Needs(s[0])), Needs(s[0]) + 1) else (s[0], 1)
  }

  ghost function Decode(s: seq<uint8>): seq<nat> {
    if s == [] then [] else [First(s).0] + Decode(s[First(s).1..])
  }

  method Next(s: seq<uint8>, i: nat) returns (cp: nat, n: nat)
    requires i < |s|
    ensures (cp, n) == First(s[i..])
  {
    ghost var t := s[i..];
    var c0 := s[i];
    if c0 < 0x80 { return c0, 1; }
    var need;
    if c0 / 0x20 == 6 { need, cp := 1, c0 % 0x20; }
    else if c0 / 0x10 == 14 { need, cp := 2, c0 % 0x10; }
    else if c0 / 8 == 30 { need, cp := 3, c0 % 8; }
    else { return c0, 1; }
    if i + need >= |s| { return c0, 1; }
    for k := 1 to need + 1
      invariant cp == Gather(t, k - 1)
      invariant forall j :: 1 <= j < k ==> Continues(t[j])
    {
      var cn := s[i + k];
      assert cn == t[k];
      if cn / 0x40 != 2 { return c0, 1; }
      cp := cp * 64 + cn % 64;
    }
    return cp, need + 1;
  }

  /** The characters before byte i are cps. */
  ghost predicate DecodedTo(s: seq<uint8>, i: nat, cps: seq<nat>) {
    i <= |s| && cps + Decode(s[i..]) == Decode(s)
  }

  lemma NothingDecoded(s: seq<uint8>)
    ensures DecodedTo(s, 0, [])
  {
  }

  lemma DecodedNext(s: seq<uint8>, i: nat, cps: seq<nat>, cp: nat, k: nat)
    requires DecodedTo(s, i, cps) && i < |s| && (cp, k) == First(s[i..])
    ensures DecodedTo(s, i + k, cps + [cp])
  {
  }

  lemma AllDecoded(s: seq<uint8>, cps: seq<nat>)
    requires DecodedTo(s, |s|, cps)
    ensures cps == Decode(s)
  {
  }

  /** Counts characters. */
  method Strlen(s: seq<uint8>) returns (n: nat)
    ensures n == |Decode(s)|
  {
    n := 0;
    var i := 0;
    ghost var cps: seq<nat> := [];
    NothingDecoded(s);
    while i < |s|
      invariant 0 <= i && DecodedTo(s, i, cps) && n == |cps|
    {
      var cp, k := Next(s, i);
      DecodedNext(s, i, cps, cp, k);
      cps := cps + [cp];
      i := i + k;
      n := n + 1;
    }
    AllDecoded(s, cps);
  }

  /** The decoding loop of input.type. */
  method CodePoints(s: seq<uint8>) returns (cps: seq<nat>)
    ensures cps == Decode(s)
  {
    cps := [];
    var i := 0;
    NothingDecoded(s);
    while i < |s|
      invariant 0 <= i && DecodedTo(s, i, cps)
    {
      var cp, k := Next(s, i);
      DecodedNext(s, i, cps, cp, k);
      cps := cps + [cp];
      i := i + k;
    }
    AllDecoded(s, cps);
  }

  // ---- encoding, section 3 of RFC 3629 ----

  type CodePoint = x: int | 0 <= x <= 0x10_FFFF

  function Encode1(cp: CodePoint): seq<uint8> {
    if cp < 0x80 then [cp]
    else if cp < 0x800 then [0xC0 + cp / 0x40, 0x80 + cp % 0x40]
    else if cp < 0x1_0000 then [0xE0 + cp / 0x1000, 0x80 + cp / 0x40 % 0x40, 0x80 + cp % 0x40]
    else [0xF0 + cp / 0x4_0000, 0x80 + cp / 0x1000 % 0x40, 0x80 + cp / 0x40 % 0x40, 0x80 + cp % 0x40]
  }

  function Encode(cps: seq<CodePoint>): seq<uint8> {
    if cps == [] then [] else Encode(cps[..|cps|-1]) + Encode1(cps[|cps|-1])
  }

  function EncodeFront(cps: seq<CodePoint>): seq<uint8> {
    if cps == [] then [] else Encode1(cps[0]) + EncodeFront(cps[1..])
  }

  lemma {:induction false} FrontIsBack(cps: seq<CodePoint>, cp: CodePoint)
    ensures EncodeFront(cps + [cp]) == EncodeFront(cps) + Encode1(cp)
  {
    if cps == [] {
      assert [cp][1..] == [] && [] + [cp] == [cp];
    } else {
      FrontIsBack(cps[1..], cp);
      assert (cps + [cp])[1..] == cps[1..] + [cp];
      Associate(Encode1(cps[0]), EncodeFront(cps[1..]), Encode1(cp));
    }
  }

  lemma {:induction false} EncodeIsFront(cps: seq<CodePoint>)
    ensures Encode(cps) == EncodeFront(cps)
  {
    if cps != [] {
      var n := |cps| - 1;
      EncodeIsFront(cps[..n]);
      FrontIsBack(cps[..n], cps[n]);
      assert cps == cps[..n] + [cps[n]];
    }
  }

  lemma ShortLeads(cp: CodePoint)
    requires cp < 0x800
    ensures cp < 0x80 ==> Needs(cp) == 0
    ensures cp >= 0x80 ==> Needs(0xC0 + cp / 0x40) == 1 && LeadBits(0xC0 + cp / 0x40) == cp / 0x40
  {
  }

  lemma LongLeads(cp: CodePoint)
    ensures cp < 0x1_0000 ==> Needs(0xE0 + cp / 0x1000) == 2 && LeadBits(0xE0 + cp / 0x1000) == cp / 0x1000
    ensures Needs(0xF0 + cp / 0x4_0000) == 3 && LeadBits(0xF0 + cp / 0x4_0000) == cp / 0x4_0000
  {
  }

  lemma SplitBits(cp: CodePoint)
    ensures cp / 0x40 == cp / 0x1000 * 64 + cp / 0x40 % 0x40
    ensures cp / 0x1000 == cp / 0x4_0000 * 64 + cp / 0x1000 % 0x40
    ensures cp == cp / 0x40 * 64 + cp % 0x40
  {
  }

  lemma ContinuationBits(x: int)
    requires 0 <= x < 64
    ensures Continues(0x80 + x) && (0x80 + x) % 64 == x
  {
  }

  lemma FirstOfShort(cp: CodePoint, rest: seq<uint8>)
    requires cp < 0x800
    ensures First(Encode1(cp) + rest) == (cp, |Encode1(cp)|)
  {
    var s := Encode1(cp) + rest;
    ShortLeads(cp);
    ContinuationBits(cp % 0x40);
    if cp >= 0x80 { assert Gather(s, 1) == Gather(s, 0) * 64 + s[1] % 64; }
  }

  lemma FirstOfLong(cp: CodePoint, rest: seq<uint8>)
    requires cp >= 0x800
    ensures First(Encode1(cp) + rest) == (cp, |Encode1(cp)|)
  {
    var s := Encode1(cp) + rest;
    SplitBits(cp);
    LongLeads(cp);
    ContinuationBits(cp % 0x40);
    ContinuationBits(cp / 0x40 % 0x40);
    ContinuationBits(cp / 0x1000 % 0x40);
    assert Gather(s, 2) == (Gather(s, 0) * 64 + s[1] % 64) * 64 + s[2] % 64;
    if cp >= 0x1_0000 { assert Gather(s, 3) == Gather(s, 2) * 64 + s[3] % 64; }
  }

  /** An encoded character is decoded to itself, whatever follows. */
  lemma FirstOfEncoded(cp: CodePoint, rest: seq<uint8>)
    ensures First(Encode1(cp) + rest) == (cp, |Encode1(cp)|)
  {
    if cp < 0x800 { FirstOfShort(cp, rest); } else { FirstOfLong(cp, rest); }
  }

  lemma DecodeOne(s: seq<uint8>, e: seq<uint8>, cp: nat, rest: seq<uint8>)
    requires s == e + rest && s != [] && First(s) == (cp, |e|)
    ensures Decode(s) == [cp] + Decode(rest)
  {
  }

  lemma DecodeHead(cp: CodePoint, rest: seq<uint8>)
    ensures Decode(Encode1(cp) + rest) == [cp] + Decode(rest)
  {
    FirstOfEncoded(cp, rest);
    DecodeOne(Encode1(cp) + rest, Encode1(cp), cp, rest);
  }

  /** Decoding an encoding gives back the code points, and stays in step
      with whatever follows. */
  lemma {:induction false} DecodeEncoded(cps: seq<CodePoint>, rest: seq<uint8>)
    ensures Decode(EncodeFront(cps) + rest) == cps + Decode(rest)
  {
    if cps == [] {
      assert [] + rest == rest && [] + Decode(rest) == Decode(rest);
    } else {
      var more := EncodeFront(cps[1..]);
      Associate(Encode1(cps[0]), more, rest);
      DecodeHead(cps[0], more + rest);
      DecodeEncoded(cps[1..], rest);
      Associate([cps[0]], cps[1..], Decode(rest));
      assert [cps[0]] + cps[1..] == cps;
    }
  }

  lemma DecodeEncode(cps: seq<CodePoint>)
    ensures Decode(Encode(cps)) == cps
  {
    EncodeIsFront(cps);
    DecodeEncoded(cps, []);
    assert EncodeFront(cps) + [] == EncodeFront(cps);
  }

  /** A lone byte from 0x80 up is not well-formed, yet it decodes to the same
      code point as the properly encoded Latin-1 character. */
  lemma MalformedLooksLikeLatin1(c: uint8)
    requires c >= 0x80
    ensures !WellLed([c]) && Decode([c]) == [c] == Decode(Encode1(c))
  {
    assert [c][1..] == [] && Decode([]) == [];
    FirstOfEncoded(c, []);
    assert Encode1(c) + [] == Encode1(c) && Encode1(c)[2..] == [];
  }

  /** One character of each length: a dollar sign, a pound sign, a euro sign
      and the Gothic letter hwair. */
  lemma Examples()
    ensures Encode1(0x24) == [0x24] && Encode1(0xA3) == [0xC2, 0xA3]
    ensures Encode1(0x20AC) == [0xE2, 0x82, 0xAC] && Encode1(0x1_0348) == [0xF0, 0x90, 0x8D, 0x88]
  {
  }

  // ---- Latin-1 to UTF-8 ----

  /** Bytes of ISO-8859-1 are the first 256 code points. */
  function Latin1(src: seq<uint8>): seq<CodePoint> {
    src
  }

  method Latin1ToUtf8(src: seq<uint8>) returns (utf8: array<uint8>, outN: nat)
    ensures fresh(utf8) && utf8.Length == 2 * |src| + 1
    ensures outN <= 2 * |src| && utf8[..outN] == Encode(Latin1(src)) && utf8[outN] == 0
  {
    utf8 := new uint8[2 * |src| + 1](_ => 0);
    outN := 0;
    for i := 0 to |src|
      invariant outN <= 2 * i && utf8[..outN] == Encode(Latin1(src[..i]))
    {
      var c := src[i];
      ghost var before := utf8[..outN];
      if c < 0x80 {
        utf8[outN] := c;
        outN := outN + 1;
      } else {
        utf8[outN], utf8[outN+1] := 0xC0 + c / 64, 0x80 + c % 64;
        outN := outN + 2;
      }
      assert utf8[..outN] == before + Encode1(c);
      assert src[..i+1][..i] == src[..i];
    }
    utf8[outN] := 0;
    assert src[..|src|] == src;
  }

  /** Decoding the converter's output gives back the original bytes. */
  lemma Latin1RoundTrip(src: seq<uint8>)
    ensures Decode(Encode(Latin1(src))) == src
  {
    DecodeEncode(Latin1(src));
  }
}

/** Base64 (section 4 of RFC 4648) as the daemon encodes and decodes it:
    canonical padding on output, white space tolerated on input, and a
    32-bit accumulator that is shifted but never masked. */
module Base64 {
  import opened CTypes
  import opened Bits
  import opened Wrappers

  const PAD: uint8 := 61

  type Sextet = x: int | 0 <= x < 64

  // ---- the alphabet ----

  function EncChar(d: Sextet): uint8 {
    if d < 26 then 65 + d
    else if d < 52 then 71 + d
    else if d < 62 then d - 4
    else if d == 62 then 43
    else 47
  }

  /** The table's entry for a byte: its value, or -1. */
  function DecChar(c: uint8): (d: int)
    ensures -1 <= d < 64
  {
    if 65 <= c <= 90 then c - 65
    else if 97 <= c <= 122 then c - 71
    else if 48 <= c <= 57 then c + 4
    else if c == 43 then 62
    else if c == 47 then 63
    else -1
  }

  lemma AlphabetInverts(d: Sextet)
    ensures var c := EncChar(d);
            DecChar(c) == d && c != PAD && !IsSpace(c) && c != 0
  {
  }

  predicate IsSpace(c: uint8) {
    c == 32 || c == 10 || c == 13 || c == 9
  }

  /** The alphabet of table 1 and the characters that stand for no digit. */
  lemma AlphabetIs(d: Sextet, c: uint8)
    ensures EncChar(d) == if d < 26 then 'A' as int + d
                          else if d < 52 then 'a' as int + d - 26
                          else if d < 62 then '0' as int + d - 52
                          else if d == 62 then '+' as int else '/' as int
    ensures DecChar(c) == d <==> c == EncChar(d)
    ensures PAD == '=' as int
    ensures IsSpace(c) <==> c == ' ' as int || c == '\n' as int || c == '\r' as int || c == '\t' as int
  {
  }

  // ---- the bit string ----

  /** The number whose base-64 digits are s: its 6 * |s| bits, as one string. */
  function Value64(s: seq<Sextet>): nat {
    if s == [] then 0 else Value64(s[..|s|-1]) * 64 + s[|s|-1]
  }

  function Value256(s: seq<uint8>): nat {
    if s == [] then 0 else Value256(s[..|s|-1]) * 256 + s[|s|-1]
  }

  function ByteAbove(v: nat, low: nat): uint8 {
    Shr(v, low) % 256
  }

  /** The whole octets of the bit string: octet k is bits 8k to 8k+7. */
  function Octets(s: seq<Sextet>): (b: seq<uint8>)
    ensures |b| == 6 * |s| / 8
  {
    seq(6 * |s| / 8, k requires 0 <= k < 6 * |s| / 8 => ByteAbove(Value64(s), 6 * |s| - 8 * k - 8))
  }

  // ---- encoding ----

  // The four digits of a group of three octets.
  function Digit0(a: uint8): Sextet { a / 4 }
  function Digit1(a: uint8, b: uint8): Sextet { a % 4 * 16 + b / 16 }
  function Digit2(b: uint8, c: uint8): Sextet { b % 16 * 4 + c / 64 }
  function Digit3(c: uint8): Sextet { c % 64 }

  /** Section 4: the last group is filled up with zero bits. */
  function Sextets(d: seq<uint8>): seq<Sextet> {
    if d == [] then []
    else if |d| == 1 then [Digit0(d[0]), Digit1(d[0], 0)]
    else if |d| == 2 then [Digit0(d[0]), Digit1(d[0], d[1]), Digit2(d[1], 0)]
    else [Digit0(d[0]), Digit1(d[0], d[1]), Digit2(d[1], d[2]), Digit3(d[2])] + Sextets(d[3..])
  }

  function Chars(s: seq<Sextet>): (t: seq<uint8>)
    ensures |t| == |s| && forall i :: 0 <= i < |s| ==> t[i] == EncChar(s[i])
  {
    seq(|s|, i requires 0 <= i < |s| => EncChar(s[i]))
  }

  function Pads(n: nat): (p: seq<uint8>)
    ensures forall i :: 0 <= i < |p| ==> p[i] == PAD
  {
    if n >= 3 then Pads(n - 3) else if n == 1 then [PAD, PAD] else if n == 2 then [PAD] else []
  }

  function EncodeText(d: seq<uint8>): (t: seq<uint8>) {
    Chars(Sextets(d)) + Pads(|d|)
  }

  function Group(a: int, b: int, c: int): int {
    a * 0x1_0000 + b * 0x100 + c
  }

  /** The characters of a group. */
  function GroupChars(a: uint8, b: uint8, c: uint8): seq<uint8> {
    [EncChar(Digit0(a)), EncChar(Digit1(a, b)), EncChar(Digit2(b, c)), EncChar(Digit3(c))]
  }

  lemma EncodeGroup(d: seq<uint8>)
    requires |d| >= 3
    ensures EncodeText(d) == GroupChars(d[0], d[1], d[2]) + EncodeText(d[3..])
  {
    assert Chars(Sextets(d)) == GroupChars(d[0], d[1], d[2]) + Chars(Sextets(d[3..]));
  }

  lemma SplitGroup(a: uint8, b: uint8, c: uint8)
    ensures var v := Group(a, b, c);
            && v / 0x4_0000 == Digit0(a)
            && v / 0x1000 % 64 == Digit1(a, b)
            && v / 64 % 64 == Digit2(b, c)
            && v % 64 == Digit3(c)
  {
    var v := Group(a, b, c);
    DivMod(v, 0x4_0000, a / 4, a % 4 * 0x1_0000 + b * 0x100 + c);
    DivMod(v, 0x1000, a * 16 + b / 16, b % 16 * 0x100 + c);
    DivMod(v / 0x1000, 64, a / 4, a % 4 * 16 + b / 16);
    DivMod(v, 64, a * 0x400 + b * 4 + c / 64, c % 64);
    DivMod(v / 64, 64, a * 16 + b / 16, b % 16 * 4 + c / 64);
  }

  function EncodedSize(n: nat): nat {
    if n == 0 then 0 else if n < 3 then 4 else 4 + EncodedSize(n - 3)
  }

  lemma {:induction false} EncodedSizeIs(n: nat)
    ensures EncodedSize(n) == (n + 2) / 3 * 4
  {
    if n >= 3 { EncodedSizeIs(n - 3); }
  }

  lemma {:induction false} EncodedLength(d: seq<uint8>)
    ensures |EncodeText(d)| == EncodedSize(|d|)
    decreases |d|
  {
    if |d| >= 3 {
      EncodedLength(d[3..]);
      EncodeGroup(d);
    }
  }

  lemma EncodeStep(d: seq<uint8>, i: nat, done: seq<uint8>)
    requires i + 3 <= |d|
    ensures var g := GroupChars(d[i], d[i+1], d[i+2]);
            && g[..4] + [PAD, PAD][..0] == g
            && |EncodeText(d[i..])| == 4 + |EncodeText(d[i+3..])|
            && done + EncodeText(d[i..]) == done + g + EncodeText(d[i+3..])
  {
    EncodeGroup(d[i..]);
    assert d[i..][3..] == d[i+3..];
    var g := GroupChars(d[i], d[i+1], d[i+2]);
    assert done + (g + EncodeText(d[i+3..])) == done + g + EncodeText(d[i+3..]);
  }

  lemma EncodeLast(d: seq<uint8>)
    requires 0 < |d| < 3
    ensures var g := GroupChars(d[0], if |d| == 2 then d[1] else 0, 0);
            EncodeText(d) == g[..|d| + 1] + [PAD, PAD][..3 - |d|]
  {
  }

  /** Fills a buffer of exactly the encoded length plus a final NUL. */
  method Encode(input: seq<uint8>) returns (out: array<uint8>)
    ensures fresh(out) && out[..] == EncodeText(input) + [0]
  {
    var n := |input|;
    var size := (n + 2) / 3 * 4;
    out := new uint8[size + 1](_ => 0);
    var p, i := 0, 0;
    EncodedLength(input);
    EncodedSizeIs(n);
    assert input[0..] == input && out[..0] + EncodeText(input) == EncodeText(input);
    while i + 3 <= n
      invariant 0 <= i <= n && 0 <= p && out.Length == size + 1
      invariant p + |EncodeText(input[i..])| == size
      invariant out[..p] + EncodeText(input[i..]) == EncodeText(input)
    {
      EncodeStep(input, i, out[..p]);
      p := PutGroup(out, p, input[i], input[i+1], input[i+2], 4);
      i := i + 3;
    }
    p := EncodeRest(out, p, input, i);
    assert out[..p] == EncodeText(input);
    out[p] := 0;
  }

  /** The last one or two bytes, if there are any. */
  method EncodeRest(out: array<uint8>, p: nat, input: seq<uint8>, i: nat) returns (q: nat)
    requires i <= |input| < i + 3 && out.Length == p + |EncodeText(input[i..])| + 1
    modifies out
    ensures q == out.Length - 1 && out[..q] == old(out[..p]) + EncodeText(input[i..])
  {
    var n := |input|;
    if i == n {
      assert input[i..] == [] && EncodeText([]) == [];
      return p;
    }
    EncodeLast(input[i..]);
    q := PutGroup(out, p, input[i], if i + 1 < n then input[i+1] else 0, 0, if i + 1 < n then 3 else 2);
  }

  /** Writes the first `digits` characters of a group and pads to four. */
  method PutGroup(out: array<uint8>, p: nat, a: uint8, b: uint8, c: uint8, digits: int) returns (q: nat)
    requires p + 4 <= out.Length && 2 <= digits <= 4
    modifies out
    ensures q == p + 4
    ensures var g := GroupChars(a, b, c);
            out[..q] == old(out[..p]) + (g[..digits] + [PAD, PAD][..4 - digits])
  {
    var v := Group(a, b, c);
    SplitGroup(a, b, c);
    out[p] := EncChar(v / 0x4_0000);
    out[p+1] := EncChar(v / 0x1000 % 64);
    out[p+2] := if digits >= 3 then EncChar(v / 64 % 64) else PAD;
    out[p+3] := if digits == 4 then EncChar(v % 64) else PAD;
    q := p + 4;
  }

  // ---- decoding ----

  /** The digits before the first '=', white space skipped; None if some
      other byte stands among them. */
  function Scan(t: seq<uint8>): (r: Option<seq<Sextet>>)
    ensures r.Some? ==> |r.value| <= |t|
  {
    if t == [] || t[0] == PAD then Some([])
    else if IsSpace(t[0]) then Scan(t[1..])
    else if DecChar(t[0]) < 0 then None
    else match Scan(t[1..])
      case None => None
      case Some(s) => Some([DecChar(t[0])] + s)
  }

  function DecodeText(t: seq<uint8>): (r: Option<seq<uint8>>)
    ensures r.Some? ==> 4 * |r.value| <= 3 * |t|
  {
    match Scan(t)
    case None => None
    case Some(s) => Some(Octets(s))
  }

  /** Where decoding stands after the digits s: the accumulator holds the
      low 32 bits of the bit string, the octets before the last `bits` bits
      are written. */
  ghost predicate Decoding(s: seq<Sextet>, buf: uint32, bits: nat, out: seq<uint8>) {
    && (bits == 0 || bits == 2 || bits == 4 || bits == 6) && bits + 8 * |out| == 6 * |s|
    && buf == Value64(s) % TWO_32
    && out == Octets(s)
  }

  lemma ValueAppend(s: seq<Sextet>, d: Sextet)
    ensures Value64(s + [d]) == Value64(s) * 64 + d
  {
    assert (s + [d])[..|s|] == s;
  }

  lemma AccumulatorWraps(v: nat, d: Sextet)
    ensures (v % TWO_32 * 64 + d) % TWO_32 == (v * 64 + d) % TWO_32
  {
    var q := v / TWO_32;
    ModIgnoresMultiples(v % TWO_32 * 64 + d, q * 64);
    assert v * 64 + d == v % TWO_32 * 64 + d + TWO_32 * (q * 64);
  }

  /** The unmasked accumulator has lost nothing of the next octet. */
  lemma OctetSurvivesWrap(v: nat, low: nat)
    requires low == 0 || low == 2 || low == 4
    ensures Shr(v % TWO_32, low) % 256 == ByteAbove(v, low)
  {
    var r, q := v % TWO_32, v / TWO_32;
    assert v == r + TWO_32 * q;
    ShiftRightIsOver(v);
    ShiftRightIsOver(r);
    if low == 0 {
      LowByte(r, 0x100_0000 * q);
    } else if low == 2 {
      assert v / 4 == r / 4 + 256 * (0x40_0000 * q);
      LowByte(r / 4, 0x40_0000 * q);
    } else {
      assert v / 16 == r / 16 + 256 * (0x10_0000 * q);
      LowByte(r / 16, 0x10_0000 * q);
    }
  }

  lemma LowByte(x: nat, k: nat)
    ensures (x + 256 * k) % 256 == x % 256
  {
  }

  /** The octets already out do not change when digits follow. */
  lemma OctetsExtend(s: seq<Sextet>, d: Sextet)
    ensures Octets(s) == Octets(s + [d])[..|Octets(s)|]
  {
    forall k | 0 <= k < |Octets(s)| ensures Octets(s)[k] == Octets(s + [d])[k] { OctetStays(s, d, k); }
  }

  lemma OctetStays(s: seq<Sextet>, d: Sextet, k: nat)
    requires k < |Octets(s)|
    ensures k < |Octets(s + [d])| && Octets(s)[k] == Octets(s + [d])[k]
  {
    ValueAppend(s, d);
    DigitShiftedOut(Value64(s), d, 6 * |s| - 8 * k - 8);
  }

  lemma DigitShiftedOut(v: nat, d: Sextet, low: nat)
    ensures ByteAbove(v * 64 + d, 6 + low) == ByteAbove(v, low)
  {
    ShrAdds(v * 64 + d, 6, low);
    ShiftRightIsOver(v * 64 + d);
  }

  /** One more digit: shifts it in and, if eight bits are there, takes an
      octet out. */
  lemma NextDigit(s: seq<Sextet>, d: Sextet, buf: uint32, bits: nat, done: seq<uint8>)
    requires Decoding(s, buf, bits, done)
    ensures var next: uint32 := (buf * 64 + d) % TWO_32;
            if bits + 6 >= 8 then Decoding(s + [d], next, bits - 2, done + [Shr(next, bits - 2) % 256])
            else Decoding(s + [d], next, bits + 6, done)
  {
    ValueAppend(s, d);
    AccumulatorWraps(Value64(s), d);
    OctetsExtend(s, d);
    if bits + 6 >= 8 {
      OctetSurvivesWrap(Value64(s + [d]), bits - 2);
      assert Octets(s + [d]) == done + [ByteAbove(Value64(s + [d]), bits - 2)];
    } else {
      assert Octets(s + [d]) == done;
    }
  }

  /** Shifts a digit in and writes an octet once there are eight bits. */
  method TakeDigit(out: array<uint8>, p: nat, buf: uint32, bits: nat, d: Sextet, ghost s: seq<Sextet>)
    returns (q: nat, buf': uint32, bits': nat)
    requires p < out.Length && Decoding(s, buf, bits, out[..p])
    modifies out
    ensures q <= p + 1 && Decoding(s + [d], buf', bits', out[..q])
  {
    ghost var before := out[..p];
    NextDigit(s, d, buf, bits, before);
    q, buf', bits' := p, (buf * 64 + d) % TWO_32, bits + 6;
    if bits' >= 8 {
      bits' := bits' - 8;
      out[p] := Shr(buf', bits') % 256;
      q := p + 1;
      assert out[..q] == before + [out[p]];
    }
  }

  /** The digits before byte i are s. */
  ghost predicate ScannedTo(t: seq<uint8>, i: nat, s: seq<Sextet>) {
    i <= |t| && |s| <= i && Scan(t) == Prepended(s, Scan(t[i..]))
  }

  lemma NothingScanned(t: seq<uint8>)
    ensures ScannedTo(t, 0, [])
  {
    PrependNone(Scan(t));
    assert t[0..] == t;
  }

  lemma ScannedNext(t: seq<uint8>, i: nat, s: seq<Sextet>)
    requires ScannedTo(t, i, s) && i < |t| && t[i] != PAD
    ensures if IsSpace(t[i]) then ScannedTo(t, i + 1, s)
            else if DecChar(t[i]) < 0 then DecodeText(t) == None
            else ScannedTo(t, i + 1, s + [DecChar(t[i])])
  {
    assert t[i..][1..] == t[i+1..];
    if !IsSpace(t[i]) && DecChar(t[i]) >= 0 { PrependOne(s, DecChar(t[i]), Scan(t[i+1..])); }
  }

  lemma AllScanned(t: seq<uint8>, i: nat, s: seq<Sextet>)
    requires ScannedTo(t, i, s) && (i < |t| ==> t[i] == PAD)
    ensures DecodeText(t) == Some(Octets(s))
  {
    assert Scan(t[i..]) == Some([]) && s + [] == s;
  }

  method Decode(input: seq<uint8>) returns (r: Option<seq<uint8>>)
    ensures r == DecodeText(input)
  {
    var n := |input|;
    var out := new uint8[n + 1](_ => 0);
    var p: nat := 0;
    var buf: uint32 := 0;
    var bits: nat := 0;
    ghost var s: seq<Sextet> := [];
    var i := 0;
    NothingScanned(input);
    while i < n && input[i] != PAD
      invariant 0 <= i && ScannedTo(input, i, s) && p <= i && Decoding(s, buf, bits, out[..p])
    {
      var c := input[i];
      ScannedNext(input, i, s);
      i := i + 1;
      if IsSpace(c) { continue; }
      var d := DecChar(c);
      if d < 0 { return None; }
      p, buf, bits := TakeDigit(out, p, buf, bits, d, s);
      s := s + [d];
    }
    AllScanned(input, i, s);
    return Some(out[..p]);
  }

  function Prepended(s: seq<Sextet>, r: Option<seq<Sextet>>): Option<seq<Sextet>> {
    match r
    case None => None
    case Some(t) => Some(s + t)
  }

  lemma PrependNone(r: Option<seq<Sextet>>)
    ensures Prepended([], r) == r
  {
    if r.Some? { assert [] + r.value == r.value; }
  }

  lemma PrependOne(s: seq<Sextet>, d: Sextet, r: Option<seq<Sextet>>)
    ensures Prepended(s, Prepended([d], r)) == Prepended(s + [d], r)
  {
    if r.Some? { assert s + ([d] + r.value) == s + [d] + r.value; }
  }

  // ---- round trip ----

  /** White space removed. */
  function Strip(t: seq<uint8>): seq<uint8> {
    if t == [] then []
    else if IsSpace(t[0]) then Strip(t[1..])
    else [t[0]] + Strip(t[1..])
  }

  lemma {:induction false} ScanIgnoresSpace(t: seq<uint8>)
    ensures Scan(t) == Scan(Strip(t))
  {
    if t != [] {
      ScanIgnoresSpace(t[1..]);
      if !IsSpace(t[0]) { assert Strip(t)[1..] == Strip(t[1..]); }
    }
  }

  lemma {:induction false} ScanOfChars(s: seq<Sextet>, pads: seq<uint8>)
    requires pads == [] || pads[0] == PAD
    ensures Scan(Chars(s) + pads) == Some(s)
  {
    if s == [] {
      assert Chars(s) + pads == pads;
    } else {
      AlphabetInverts(s[0]);
      ScanOfChars(s[1..], pads);
      assert (Chars(s) + pads)[1..] == Chars(s[1..]) + pads;
      assert [s[0]] + s[1..] == s;
    }
  }

  lemma {:induction false} ValueConcat(a: seq<Sextet>, b: seq<Sextet>)
    ensures Value64(a + b) == Shl(Value64(a), 6 * |b|) + Value64(b)
  {
    if b == [] {
      assert a + b == a;
    } else {
      var n := |b| - 1;
      ValueConcat(a, b[..n]);
      assert a + b == a + b[..n] + [b[n]];
      ValueAppend(a + b[..n], b[n]);
      ShlAdds(Value64(a), 6 * n, 6);
      ShiftLeftIsTimes(Shl(Value64(a), 6 * n));
    }
  }

  lemma {:induction false} Value256Concat(a: seq<uint8>, b: seq<uint8>)
    ensures Value256(a + b) == Shl(Value256(a), 8 * |b|) + Value256(b)
  {
    if b == [] {
      assert a + b == a;
    } else {
      var n := |b| - 1;
      Value256Concat(a, b[..n]);
      assert a + b == a + b[..n] + [b[n]];
      Value256Append(a + b[..n], b[n]);
      ShlAdds(Value256(a), 8 * n, 8);
      ShiftLeftIsTimes(Shl(Value256(a), 8 * n));
    }
  }

  /** The zero bits the encoder adds to reach a multiple of six. */
  function ZeroBits(n: nat): (z: nat)
    ensures z <= 4
  {
    if n >= 3 then ZeroBits(n - 3) else if n == 1 then 4 else if n == 2 then 2 else 0
  }

  lemma {:induction false} SextetCount(d: seq<uint8>)
    ensures 6 * |Sextets(d)| == 8 * |d| + ZeroBits(|d|)
    decreases |d|
  {
    if |d| >= 3 { SextetCount(d[3..]); }
  }

  lemma ValueOf(a: Sextet, b: Sextet, c: Sextet, d: Sextet)
    ensures Value64([a, b]) == a * 64 + b
    ensures Value64([a, b, c]) == a * 4096 + b * 64 + c
    ensures Value64([a, b, c, d]) == a * 0x4_0000 + b * 4096 + c * 64 + d
  {
    assert [a, b, c, d] == [a] + [b] + [c] + [d] && [a, b, c] == [a] + [b] + [c] && [a, b] == [a] + [b];
    assert [] + [a] == [a];
    ValueAppend([], a);
    ValueAppend([a], b);
    ValueAppend([a] + [b], c);
    ValueAppend([a] + [b] + [c], d);
  }

  lemma Value256Append(s: seq<uint8>, x: uint8)
    ensures Value256(s + [x]) == Value256(s) * 256 + x
  {
    assert (s + [x])[..|s|] == s;
  }

  lemma Value256Of(a: uint8, b: uint8, c: uint8)
    ensures Value256([a]) == a
    ensures Value256([a, b]) == Group(0, a, b)
    ensures Value256([a, b, c]) == Group(a, b, c)
  {
    assert [a, b, c] == [a] + [b] + [c] && [a, b] == [a] + [b] && [] + [a] == [a];
    Value256Append([], a);
    Value256Append([a], b);
    Value256Append([a] + [b], c);
  }

  lemma DigitsSpell(a: uint8, b: uint8, c: uint8)
    ensures Digit0(a) * 64 + Digit1(a, 0) == a * 16
    ensures Digit0(a) * 4096 + Digit1(a, b) * 64 + Digit2(b, 0) == (a * 256 + b) * 4
    ensures Digit0(a) * 0x4_0000 + Digit1(a, b) * 4096 + Digit2(b, c) * 64 + Digit3(c) == Group(a, b, c)
  {
  }

  lemma GroupValue(d: seq<uint8>)
    requires |d| >= 3
    ensures Sextets(d) == Sextets(d)[..4] + Sextets(d[3..])
    ensures |Sextets(d)| >= 4 && Value64(Sextets(d)[..4]) == Value256(d[..3])
  {
    var a, b, c := d[0], d[1], d[2];
    DigitsSpell(a, b, c);
    Value256Of(a, b, c);
    ValueOf(Digit0(a), Digit1(a, b), Digit2(b, c), Digit3(c));
    assert Sextets(d)[..4] == [Digit0(a), Digit1(a, b), Digit2(b, c), Digit3(c)] && d[..3] == [a, b, c];
  }

  lemma OneOctetValue(a: uint8)
    ensures Value64(Sextets([a])) == Shl(Value256([a]), 4)
  {
    DigitsSpell(a, 0, 0);
    Value256Of(a, 0, 0);
    ValueOf(Digit0(a), Digit1(a, 0), 0, 0);
    ShiftLeftIsTimes(a);
  }

  lemma TwoOctetsValue(a: uint8, b: uint8)
    ensures Value64(Sextets([a, b])) == Shl(Value256([a, b]), 2)
  {
    DigitsSpell(a, b, 0);
    Value256Of(a, b, 0);
    ValueOf(Digit0(a), Digit1(a, b), Digit2(b, 0), 0);
    ShiftLeftIsTimes(Value256([a, b]));
  }

  /** The digits spell the octets' own bit string, followed by zero bits. */
  lemma {:induction false} SameBits(d: seq<uint8>)
    ensures Value64(Sextets(d)) == Shl(Value256(d), ZeroBits(|d|))
    decreases |d|
  {
    if |d| >= 3 {
      SameBits(d[3..]);
      SextetCount(d[3..]);
      GroupValue(d);
      PrependGroup(Sextets(d)[..4], Sextets(d[3..]), d[..3], d[3..], ZeroBits(|d|));
      assert d == d[..3] + d[3..];
    } else if |d| == 2 {
      assert d == [d[0], d[1]];
      TwoOctetsValue(d[0], d[1]);
    } else if |d| == 1 {
      assert d == [d[0]];
      OneOctetValue(d[0]);
    }
  }

  lemma PrependGroup(s: seq<Sextet>, t: seq<Sextet>, g: seq<uint8>, d: seq<uint8>, z: nat)
    requires Value64(s) == Value256(g) && Value64(t) == Shl(Value256(d), z)
    requires 6 * |t| == 8 * |d| + z
    ensures Value64(s + t) == Shl(Value256(g + d), z)
  {
    ValueConcat(s, t);
    Value256Concat(g, d);
    ShlAdds(Value256(g), 8 * |d|, z);
    ShlDistributes(Shl(Value256(g), 8 * |d|), Value256(d), z);
  }

  /** Octet k of an octet string is itself, read off its bit string. */
  lemma {:induction false} OctetOfValue(d: seq<uint8>, k: nat)
    requires k < |d|
    ensures ByteAbove(Value256(d), 8 * (|d| - 1 - k)) == d[k]
    decreases |d|
  {
    var n := |d| - 1;
    if k < n {
      OctetOfValue(d[..n], k);
      ShrAdds(Value256(d), 8, 8 * (n - 1 - k));
      ShiftRightIsOver(Value256(d));
      assert Shr(Value256(d), 8) == Value256(d[..n]);
    }
  }

  lemma OctetOfDigits(d: seq<uint8>, v: nat, z: nat, k: nat)
    requires k < |d| && v == Shl(Value256(d), z)
    ensures ByteAbove(v, z + 8 * (|d| - 1 - k)) == d[k]
  {
    ShrAdds(v, z, 8 * (|d| - 1 - k));
    ShrUndoesShl(Value256(d), z);
    OctetOfValue(d, k);
  }

  /** The octets of an encoding's digits are the encoded octets. */
  lemma OctetsOfSextets(d: seq<uint8>)
    ensures Octets(Sextets(d)) == d
  {
    var s, z := Sextets(d), ZeroBits(|d|);
    SextetCount(d);
    SameBits(d);
    OctetsAre(s, d, z);
  }

  lemma OctetsAre(s: seq<Sextet>, d: seq<uint8>, z: nat)
    requires 6 * |s| == 8 * |d| + z && z <= 4 && Value64(s) == Shl(Value256(d), z)
    ensures Octets(s) == d
  {
    WholeOctets(|d|, z);
    forall k | 0 <= k < |d| ensures Octets(s)[k] == d[k] {
      OctetOfDigits(d, Value64(s), z, k);
      LowBit(|s|, |d|, z, k);
    }
  }

  lemma WholeOctets(n: nat, z: nat)
    requires z <= 4
    ensures (8 * n + z) / 8 == n
  {
  }

  lemma LowBit(m: nat, n: nat, z: nat, k: nat)
    requires 6 * m == 8 * n + z && k < n
    ensures 6 * m - 8 * k - 8 == z + 8 * (n - 1 - k)
  {
  }

  /** Decoding an encoding gives back the bytes, wherever white space was
      put into the text. */
  lemma RoundTrip(d: seq<uint8>, t: seq<uint8>)
    requires Strip(t) == EncodeText(d)
    ensures DecodeText(t) == Some(d)
  {
    ScanIgnoresSpace(t);
    ScanOfChars(Sextets(d), Pads(|d|));
    OctetsOfSextets(d);
  }

  lemma {:induction false} NoSpaceToStrip(t: seq<uint8>)
    requires forall i :: 0 <= i < |t| ==> !IsSpace(t[i])
    ensures Strip(t) == t
  {
    if t != [] { NoSpaceToStrip(t[1..]); }
  }

  /** In particular the text as the encoder emits it. */
  lemma DecodeEncode(d: seq<uint8>)
    ensures DecodeText(EncodeText(d)) == Some(d)
  {
    forall i | 0 <= i < |Sextets(d)| ensures !IsSpace(EncChar(Sextets(d)[i])) {
      AlphabetInverts(Sextets(d)[i]);
    }
    NoSpaceToStrip(EncodeText(d));
    RoundTrip(d, EncodeText(d));
  }

  lemma VectorF()
    ensures EncodeText([102]) == [90, 103, 61, 61]
  {
    assert Sextets([102]) == [25, 32] && Pads(1) == [61, 61];
    assert Chars([25, 32]) == [90, 103];
  }

  lemma VectorFo()
    ensures EncodeText([102, 111]) == [90, 109, 56, 61]
  {
    assert Sextets([102, 111]) == [25, 38, 60] && Pads(2) == [61];
    assert Chars([25, 38, 60]) == [90, 109, 56];
  }

  lemma VectorFoo()
    ensures EncodeText([102, 111, 111]) == [90, 109, 57, 118]
  {
    var d: seq<uint8> := [102, 111, 111];
    EncodeGroup(d);
    assert d[3..] == [] && EncodeText([]) == [];
    assert GroupChars(102, 111, 111) == [90, 109, 57, 118];
  }

  /** The first test vectors of section 10: f, fo and foo. */
  lemma TestVectors()
    ensures EncodeText([102]) == [90, 103, 61, 61]
    ensures EncodeText([102, 111]) == [90, 109, 56, 61]
    ensures EncodeText([102, 111, 111]) == [90, 109, 57, 118]
  {
    VectorF();
    VectorFo();
    VectorFoo();
  }

  /** A byte outside the alphabet, before the first '='. */
  ghost predicate ForeignAt(t: seq<uint8>, i: int) {
    0 <= i < |t| && !IsSpace(t[i]) && t[i] != PAD && DecChar(t[i]) < 0 && PAD !in t[..i]
  }

  /** Decoding fails exactly on a foreign byte before the first '='. */
  lemma {:induction false} RejectsExactlyForeignBytes(t: seq<uint8>)
    ensures DecodeText(t) == None <==> exists i :: ForeignAt(t, i)
  {
    if t != [] {
      RejectsExactlyForeignBytes(t[1..]);
      assert PAD !in t[..0];
      forall i | 0 < i < |t| ensures ForeignAt(t, i) <==> t[0] != PAD && ForeignAt(t[1..], i - 1) {
        assert t[..i] == [t[0]] + t[1..][..i-1];
      }
      if t[0] != PAD && DecodeText(t[1..]) == None {
        var i :| ForeignAt(t[1..], i);
        assert ForeignAt(t, i + 1);
      }
      if !IsSpace(t[0]) && t[0] != PAD && DecChar(t[0]) < 0 { assert ForeignAt(t, 0); }
    }
  }
}

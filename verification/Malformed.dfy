/** What the UTF-8 decoder and the typing make of malformed text: the exact
    condition under which a sequence is well-formed in the sense of section 3
    of RFC 3629, under which a malformed one is taken as one raw byte, and
    under which it is reported rather than typed. */
module Malformed {
  import opened CTypes
  import opened Sequences
  import opened Typing
  import opened Utf8

  /** The characters of RFC 3629: no surrogates, nothing above 0x10FFFF. */
  predicate IsScalar(cp: nat) {
    cp < 0xD800 || 0xE000 <= cp <= 0x10_FFFF
  }

  predicate AllScalar(cps: seq<nat>) {
    forall i :: 0 <= i < |cps| ==> IsScalar(cps[i])
  }

  /** The text is the encoding of some characters. */
  ghost predicate WellFormed(s: seq<uint8>) {
    exists cps: seq<CodePoint> :: AllScalar(cps) && Encode(cps) == s
  }

  ghost predicate Leads(cp: CodePoint, s: seq<uint8>) {
    IsScalar(cp) && Encode1(cp) <= s
  }

  /** The text begins with the encoding of a character. */
  ghost predicate WellBegun(s: seq<uint8>) {
    exists cp: CodePoint :: Leads(cp, s)
  }

  /** A text is well-formed if and only if decoding it gives characters that
      encode to it again. */
  lemma WellFormedIff(s: seq<uint8>)
    ensures WellFormed(s) <==> AllScalar(Decode(s)) && Encode(AsCodePoints(Decode(s))) == s
  {
    if WellFormed(s) {
      var cps: seq<CodePoint> :| AllScalar(cps) && Encode(cps) == s;
      DecodeEncode(cps);
      assert AsCodePoints(Decode(s)) == cps;
    }
  }

  /** The code points of a list of scalar values. */
  function AsCodePoints(cps: seq<nat>): (r: seq<CodePoint>)
    ensures |r| == |cps| && (AllScalar(cps) ==> r == cps)
  {
    seq(|cps|, i requires 0 <= i < |cps| => if IsScalar(cps[i]) then cps[i] else 0)
  }

  // ---- one sequence, byte by byte ----

  lemma LeadRange(c: uint8)
    ensures Needs(c) == 1 <==> 0xC0 <= c < 0xE0
    ensures Needs(c) == 2 <==> 0xE0 <= c < 0xF0
    ensures Needs(c) == 3 <==> 0xF0 <= c < 0xF8
    ensures 0xC0 <= c < 0xE0 ==> LeadBits(c) == c - 0xC0
    ensures 0xE0 <= c < 0xF0 ==> LeadBits(c) == c - 0xE0
    ensures 0xF0 <= c < 0xF8 ==> LeadBits(c) == c - 0xF0
  {
  }

  lemma ContinuationRange(c: uint8)
    ensures Continues(c) <==> 0x80 <= c < 0xC0
    ensures Continues(c) ==> c % 64 == c - 0x80
  {
  }

  function Above(c: uint8, base: nat): nat
    requires c >= base
  {
    c - base
  }

  /** What a lead byte and its continuations spell. */
  function Spelled(s: seq<uint8>): nat
    requires WellLed(s)
  {
    LeadRange(s[0]);
    ContinuationRange(s[1]);
    if Needs(s[0]) == 1 then Above(s[0], 0xC0) * 0x40 + Above(s[1], 0x80)
    else
      ContinuationRange(s[2]);
      if Needs(s[0]) == 2 then Above(s[0], 0xE0) * 0x1000 + Above(s[1], 0x80) * 0x40 + Above(s[2], 0x80)
      else
        ContinuationRange(s[3]);
        Above(s[0], 0xF0) * 0x4_0000 + Above(s[1], 0x80) * 0x1000 + Above(s[2], 0x80) * 0x40 + Above(s[3], 0x80)
  }

  lemma FirstIsSpelled(s: seq<uint8>)
    requires WellLed(s)
    ensures First(s) == (Spelled(s), Needs(s[0]) + 1)
  {
    LeadRange(s[0]);
    ContinuationRange(s[1]);
    assert Gather(s, 1) == LeadBits(s[0]) * 64 + s[1] % 64;
    if Needs(s[0]) > 1 {
      ContinuationRange(s[2]);
      assert Gather(s, 2) == Gather(s, 1) * 64 + s[2] % 64;
      if Needs(s[0]) > 2 {
        ContinuationRange(s[3]);
        assert Gather(s, 3) == Gather(s, 2) * 64 + s[3] % 64;
      }
    }
  }

  /** Two bytes whose value asks for two are its encoding; likewise below. */
  lemma SpellsTwo(s: seq<uint8>)
    requires WellLed(s) && Needs(s[0]) == 1 && Spelled(s) >= 0x80
    ensures Encode1(Spelled(s)) == s[..2]
  {
    LeadRange(s[0]);
    ContinuationRange(s[1]);
    var cp := Spelled(s);
    assert cp / 0x40 == s[0] - 0xC0 && cp % 0x40 == s[1] - 0x80;
  }

  lemma SpellsThree(s: seq<uint8>)
    requires WellLed(s) && Needs(s[0]) == 2 && Spelled(s) >= 0x800
    ensures Encode1(Spelled(s)) == s[..3]
  {
    LeadRange(s[0]);
    ContinuationRange(s[1]);
    ContinuationRange(s[2]);
    var cp := Spelled(s);
    assert cp / 0x40 == Above(s[0], 0xE0) * 0x40 + Above(s[1], 0x80) && cp % 0x40 == s[2] - 0x80;
    assert cp / 0x1000 == s[0] - 0xE0 && cp / 0x40 % 0x40 == s[1] - 0x80;
  }

  lemma SpellsFour(s: seq<uint8>)
    requires WellLed(s) && Needs(s[0]) == 3 && 0x1_0000 <= Spelled(s) <= 0x10_FFFF
    ensures Encode1(Spelled(s)) == s[..4]
  {
    LeadRange(s[0]);
    ContinuationRange(s[1]);
    ContinuationRange(s[2]);
    ContinuationRange(s[3]);
    var cp := Spelled(s);
    var upper := Above(s[0], 0xF0) * 0x40 + Above(s[1], 0x80);
    assert cp / 0x40 == upper * 0x40 + Above(s[2], 0x80) && cp % 0x40 == s[3] - 0x80;
    assert cp / 0x1000 == upper && cp / 0x40 % 0x40 == s[2] - 0x80;
    assert cp / 0x4_0000 == s[0] - 0xF0 && cp / 0x1000 % 0x40 == s[1] - 0x80;
  }

  /** The sequences that are led and continued but are no encodings:
      over-long forms, surrogates, and codes above 0x10FFFF. */
  predicate Ill(s: seq<uint8>)
    requires |s| > 1
  {
    || s[0] == 0xC0 || s[0] == 0xC1
    || (s[0] == 0xE0 && s[1] < 0xA0)
    || (s[0] == 0xED && s[1] >= 0xA0)
    || (s[0] == 0xF0 && s[1] < 0x90)
    || (s[0] == 0xF4 && s[1] >= 0x90)
    || s[0] > 0xF4
  }

  lemma IllIff(s: seq<uint8>)
    requires WellLed(s)
    ensures Ill(s) <==> !IsScalar(Spelled(s)) || |Encode1(Spelled(s))| != Needs(s[0]) + 1
  {
    LeadRange(s[0]);
    ContinuationRange(s[1]);
    if Needs(s[0]) > 1 { ContinuationRange(s[2]); }
    if Needs(s[0]) > 2 { ContinuationRange(s[3]); }
  }

  lemma BegunIsEncoded(s: seq<uint8>)
    requires s != []
    ensures WellBegun(s) ==> s[0] < 0x80 || (WellLed(s) && !Ill(s))
  {
    if WellBegun(s) {
      var cp: CodePoint :| Leads(cp, s);
      assert s == Encode1(cp) + s[|Encode1(cp)|..];
      FirstOfEncoded(cp, s[|Encode1(cp)|..]);
      if WellLed(s) {
        FirstIsSpelled(s);
        IllIff(s);
      } else {
        assert |Encode1(cp)| == 1;
      }
    }
  }

  /** Exactly which texts begin with an encoded character. */
  lemma WellBegunIff(s: seq<uint8>)
    requires s != []
    ensures WellBegun(s) <==> s[0] < 0x80 || (WellLed(s) && !Ill(s))
  {
    LeadRange(s[0]);
    if s[0] < 0x80 {
      assert Leads(s[0], s);
    } else if WellLed(s) && !Ill(s) {
      IllIff(s);
      if Needs(s[0]) == 1 { SpellsTwo(s); } else if Needs(s[0]) == 2 { SpellsThree(s); } else { SpellsFour(s); }
      assert Leads(Spelled(s), s);
    } else {
      BegunIsEncoded(s);
    }
  }

  /** A malformed sequence is one raw byte, as promised, if and only if a
      continuation is missing; otherwise it is taken whole. */
  lemma RawByteIff(s: seq<uint8>)
    requires s != [] && !WellBegun(s)
    ensures First(s) == (s[0], 1) <==> !WellLed(s)
    ensures WellLed(s) <==> First(s).1 > 1
  {
  }

  /** Over-long forms of codes up to 0xFF. */
  predicate IllLatin1(s: seq<uint8>)
    requires WellLed(s)
  {
    || s[0] == 0xC0 || s[0] == 0xC1
    || (s[0] == 0xE0 && s[1] <= 0x83)
    || (s[0] == 0xF0 && s[1] == 0x80 && s[2] <= 0x83)
  }

  /** What a malformed sequence passes for: a character up to 0xFF if it is a
      raw byte or an over-long form of such a one, else none. */
  ghost predicate LooksLatin1(s: seq<uint8>)
    requires s != []
  {
    !WellLed(s) || IllLatin1(s)
  }

  lemma LooksLatin1Iff(s: seq<uint8>)
    requires s != [] && !WellBegun(s)
    ensures First(s).0 <= 0xFF <==> LooksLatin1(s)
  {
    WellBegunIff(s);
    if WellLed(s) {
      FirstIsSpelled(s);
      LeadRange(s[0]);
      ContinuationRange(s[1]);
      if Needs(s[0]) > 1 { ContinuationRange(s[2]); }
      if Needs(s[0]) > 2 { ContinuationRange(s[3]); }
    }
  }

  // ---- a whole text ----

  /** The sequences the decoder takes a text apart into. */
  ghost function Units(s: seq<uint8>): (us: seq<seq<uint8>>)
    ensures |us| == |Decode(s)| && forall i :: 0 <= i < |us| ==> us[i] != []
  {
    if s == [] then [] else [s[..First(s).1]] + Units(s[First(s).1..])
  }

  /** A sequence alone decodes as it does with what follows it. */
  lemma FirstAlone(s: seq<uint8>)
    requires s != []
    ensures First(s[..First(s).1]) == First(s)
  {
    var u := s[..First(s).1];
    if WellLed(s) {
      assert WellLed(u);
      GatherAlone(s, u, Needs(s[0]));
    }
  }

  lemma {:induction false} GatherAlone(s: seq<uint8>, u: seq<uint8>, k: nat)
    requires k < |u| && u <= s
    ensures Gather(u, k) == Gather(s, k)
  {
    if k > 0 { GatherAlone(s, u, k - 1); }
  }

  lemma {:induction false} UnitCode(s: seq<uint8>, i: nat)
    requires i < |Units(s)|
    ensures First(Units(s)[i]) == (Decode(s)[i], |Units(s)[i]|)
  {
    var rest := s[First(s).1..];
    if i == 0 {
      FirstAlone(s);
      assert Units(s)[0] == s[..First(s).1];
      assert First(Units(s)[0]) == (Decode(s)[0], |Units(s)[0]|);
    } else {
      UnitCode(rest, i - 1);
      assert Units(s)[i] == Units(rest)[i-1] && Decode(s)[i] == Decode(rest)[i-1];
      assert First(Units(s)[i]) == First(Units(rest)[i-1]);
    }
  }

  /** The promise: every malformed sequence of the text is reported, none is
      typed. */
  ghost predicate ReportsMalformed(map_: Keymap, s: seq<uint8>) {
    forall i :: 0 <= i < |Units(s)| ==> !TypesMalformed(map_, s, i)
  }

  ghost predicate TypesMalformed(map_: Keymap, s: seq<uint8>, i: nat)
    requires i < |Units(s)|
  {
    !WellBegun(Units(s)[i]) && Typeable(map_, Decode(s)[i])
  }

  /** The i-th sequence is malformed and passes for a character up to 0xFF. */
  ghost predicate Passes(s: seq<uint8>, i: nat)
    requires i < |Units(s)|
  {
    !WellBegun(Units(s)[i]) && LooksLatin1(Units(s)[i])
  }

  predicate Mapped(map_: Keymap, cp: nat) {
    1 <= |map_(cp)| <= 3
  }

  lemma TypesMalformedIff(map_: Keymap, s: seq<uint8>, i: nat)
    requires i < |Units(s)|
    ensures TypesMalformed(map_, s, i) <==> Passes(s, i) && Mapped(map_, Decode(s)[i])
  {
    UnitCode(s, i);
    if !WellBegun(Units(s)[i]) { LooksLatin1Iff(Units(s)[i]); }
  }

  /** It holds if and only if the keymap has no strokes for any raw byte or
      over-long form that passes for a character up to 0xFF. */
  lemma ReportsMalformedIff(map_: Keymap, s: seq<uint8>)
    ensures ReportsMalformed(map_, s) <==>
            forall i :: 0 <= i < |Units(s)| && Passes(s, i) ==> !Mapped(map_, Decode(s)[i])
  {
    forall i | 0 <= i < |Units(s)|
      ensures TypesMalformed(map_, s, i) <==> Passes(s, i) && Mapped(map_, Decode(s)[i])
    {
      TypesMalformedIff(map_, s, i);
    }
  }

  /** It holds under every keymap if and only if no malformed sequence of the
      text passes for a character up to 0xFF. */
  lemma AlwaysReportedIff(s: seq<uint8>)
    ensures (forall map_: Keymap :: ReportsMalformed(map_, s)) <==> forall i :: 0 <= i < |Units(s)| ==> !Passes(s, i)
  {
    if forall map_: Keymap :: ReportsMalformed(map_, s) {
      var every: Keymap := _ => [Stroke(0, {})];
      ReportsMalformedIff(every, s);
      assert forall cp: nat :: Mapped(every, cp);
    } else {
      var map_: Keymap :| !ReportsMalformed(map_, s);
      ReportsMalformedIff(map_, s);
    }
  }

  /** An over-long form is malformed, is taken as one character, and types
      the letter a. */
  lemma OverLongTypesLetter()
    ensures !WellFormed([0xC1, 0xA1]) && Decode([0xC1, 0xA1]) == [0x61]
  {
    var s: seq<uint8> := [0xC1, 0xA1];
    LeadRange(0xC1);
    ContinuationRange(0xA1);
    FirstIsSpelled(s);
    assert s[2..] == [] && Decode(s) == [0x61];
    assert AsCodePoints(Decode(s)) == [0x61] && [0x61][..0] == [];
    assert |Encode([0x61])| == 1;
    WellFormedIff(s);
  }
}

/** What the writer's text looks like, in character codes: when a key is bare,
    how each character of a string is escaped, which characters a document
    may hold, and one whole document. */
module TomlText {
  import opened Decimal
  import opened Wrappers
  import opened TomlWriter
  import opened TomlReader

  function Codes(s: string): (ns: seq<nat>)
    ensures |ns| == |s| && forall i :: 0 <= i < |s| ==> ns[i] == s[i] as int
  {
    seq(|s|, i requires 0 <= i < |s| => s[i] as int)
  }

  predicate IsBareKey(k: string) {
    k != "" && forall i :: 0 <= i < |k| ==> IsBare(k[i])
  }

  /** A key is written bare exactly if it is not empty and all of it may stand
      bare; else it stands between double quotes. */
  lemma KeyIsBareIff(k: string)
    ensures KeyText(k) == k <==> IsBareKey(k)
    ensures !IsBareKey(k) ==> var t := KeyText(k); |t| >= 2 && t[0] as int == 34 && t[|t|-1] as int == 34
  {
    SafeIsBare(k);
    QuotedIsLonger(k);
  }

  lemma SafeIsBare(k: string)
    ensures AllSafe(k) <==> forall i :: 0 <= i < |k| ==> IsBare(k[i])
  {
    assert forall i :: 0 <= i < |k| ==> (IsSafe(k[i]) <==> IsBare(k[i]));
  }

  lemma {:induction false} QuotedIsLonger(s: string)
    ensures |StrText(s)| >= |s| + 2
  {
    BodyIsAsLong(s);
  }

  lemma {:induction false} BodyIsAsLong(s: string)
    ensures |StrBody(s)| >= |s|
  {
    if s != "" { BodyIsAsLong(s[..|s|-1]); }
  }

  function HexCode(d: nat): nat
    requires d < 16
  {
    if d < 10 then 48 + d else 87 + d
  }

  /** How a character of a string is written: quote, backslash, newline and
      tab behind a backslash, other control characters by four hexadecimal
      digits, all others as they are. */
  lemma CharTextInCodes(c: char)
    ensures var n := c as int;
            Codes(CharText(c)) ==
              (if n == 34 then [92, 34]
               else if n == 92 then [92, 92]
               else if n == 10 then [92, 110]
               else if n == 9 then [92, 116]
               else if n < 32 then [92, 117, 48, 48, HexCode(n / 16), HexCode(n % 16)]
               else [n])
  {
    if c < ' ' && c != '\n' && c != '\t' { ControlInCodes(c as int); }
  }

  lemma ControlInCodes(n: nat)
    requires n < 32
    ensures Codes("\\u" + Hex4(n)) == [92, 117, 48, 48, HexCode(n / 16), HexCode(n % 16)]
  {
    HexDigitCode(n / 16);
    HexDigitCode(n % 16);
    HexDigitCode(0);
    assert "\\u" + Hex4(n) == ['\\', 'u', HexDigit(0), HexDigit(0), HexDigit(n / 16), HexDigit(n % 16)];
  }

  lemma HexDigitCode(d: nat)
    requires d < 16
    ensures HexDigit(d) as int == HexCode(d)
  {
  }

  /** The characters that TOML allows in a document. */
  lemma AllowedInCodes(c: char)
    ensures IsAllowed(c) <==> var n := c as int; n == 9 || n == 10 || (n >= 32 && n != 127)
  {
  }

  lemma CodesConcat(a: string, b: string)
    ensures Codes(a + b) == Codes(a) + Codes(b)
  {
  }

  /** A header is its path between square brackets; a pair is its key, an
      equals sign between blanks, and its value. */
  lemma LinesInCodes(path: seq<string>, row: Row)
    ensures Codes(HeaderLine(path)) == [91] + Codes(PathText(path)) + [93]
    ensures AssignLine(row).Some? ==>
              Codes(AssignLine(row).value) == Codes(KeyText(row.key)) + [32, 61, 32] + Codes(ValueText(row.value).value)
  {
    CodesConcat("[", PathText(path));
    CodesConcat("[" + PathText(path), "]");
    CodesConcat(KeyText(row.key), " = ");
    if ValueText(row.value).Some? { CodesConcat(KeyText(row.key) + " = ", ValueText(row.value).value); }
  }

  /** A path's keys are joined by dots. */
  lemma PathInCodes(path: seq<string>)
    requires |path| > 1
    ensures Codes(PathText(path)) == Codes(KeyText(path[0])) + [46] + Codes(PathText(path[1..]))
  {
    Dotted(KeyText(path[0]), PathText(path[1..]));
  }

  lemma Dotted(key: string, more: string)
    ensures Codes(key + "." + more) == Codes(key) + [46] + Codes(more)
  {
    CodesConcat(key, ".");
    CodesConcat(key + ".", more);
  }

  /** Decimal digits and their values. */
  lemma DigitsInCodes(c: char)
    ensures IsDigit(c) <==> 48 <= c as int <= 57
    ensures IsDigit(c) ==> DigitValue(c) == c as int - 48
  {
  }

  /** true, false and the sign. */
  lemma ValuesInCodes(i: int)
    ensures Codes(ValueText(Bool(true)).value) == [116, 114, 117, 101]
    ensures Codes(ValueText(Bool(false)).value) == [102, 97, 108, 115, 101]
    ensures i < 0 ==> Codes(ValueText(Int(i)).value) == [45] + Codes(NatText(-i))
    ensures i >= 0 ==> Codes(ValueText(Int(i)).value) == Codes(NatText(i))
  {
  }
}

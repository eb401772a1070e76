/** Reading what the TOML writer wrote gives back the nested dictionary. */
module TomlRoundTrip {
  import opened Decimal
  import opened Sequences
  import opened TomlReader
  import opened TomlWriter
  import opened Wrappers

  // ---- strings and keys ----

  lemma HexDigitValue(d: nat)
    requires d < 16
    ensures HexValue(HexDigit(d)) == Some(d)
  {
  }

  lemma ControlEscape(n: nat)
    requires n < 0x20
    ensures var h := Hex4(n); HexChar(h[0], h[1], h[2], h[3]) == Some(n as char)
  {
    HexDigitValue(0);
    HexDigitValue(n / 16);
    HexDigitValue(n % 16);
    assert n / 16 % 16 == n / 16 && n / 256 % 16 == 0 && n / 4096 == 0;
  }

  lemma ReadChar(c: char, rest: string)
    ensures ReadString(CharText(c) + rest) == Before(c, ReadString(rest))
  {
    var s := CharText(c) + rest;
    if c == '"' || c == '\\' || c == '\n' || c == '\t' {
      assert s[2..] == rest;
    } else if c < ' ' {
      ControlEscape(c as int);
      assert s[6..] == rest && s[1] == 'u';
    } else {
      assert s[1..] == rest;
    }
  }

  lemma {:induction false} ReadBody(s: string, rest: string, body: string, after: string)
    requires ReadString(rest) == Some((body, after))
    ensures ReadString(StrBody(s) + rest) == Some((s + body, after))
    decreases |s|
  {
    if s == "" {
      assert StrBody(s) + rest == rest && s + body == body;
    } else {
      var front, c := s[..|s|-1], s[|s|-1];
      ReadChar(c, rest);
      ReadBody(front, CharText(c) + rest, [c] + body, after);
      Associate(StrBody(front), CharText(c), rest);
      Associate(front, [c], body);
      assert front + [c] == s;
    }
  }

  lemma ReadStrText(s: string, rest: string)
    ensures var t := StrText(s) + rest; t[0] == '"' && ReadString(t[1..]) == Some((s, rest))
  {
    var close := "\"" + rest;
    assert close[1..] == rest;
    ReadBody(s, close, "", rest);
    Associate("\"" + StrBody(s), "\"", rest);
    Associate("\"", StrBody(s), close);
    assert ("\"" + (StrBody(s) + close))[1..] == StrBody(s) + close && s + "" == s;
  }

  lemma {:induction false} SafeAppend(s: string, rest: string)
    requires AllSafe(s) && (rest == "" || !IsBare(rest[0]))
    ensures BareLength(s + rest) == |s|
  {
    if s == "" {
      assert s + rest == rest;
    } else {
      assert (s + rest)[1..] == s[1..] + rest;
      SafeAppend(s[1..], rest);
    }
  }

  lemma ReadKeyText(k: string, rest: string)
    requires rest == "" || !IsBare(rest[0])
    ensures ReadKey(KeyText(k) + rest) == Some((k, rest))
    ensures KeyText(k) != "" && (KeyText(k)[0] == '"' || IsBare(KeyText(k)[0]))
  {
    if k != "" && AllSafe(k) {
      SafeAppend(k, rest);
      assert (k + rest)[..|k|] == k && (k + rest)[|k|..] == rest && IsBare(k[0]);
    } else {
      ReadStrText(k, rest);
    }
  }

  lemma PathStep(s: string, k: string, more: string)
    requires ReadKey(s) == Some((k, "." + more))
    ensures ReadPath(s) == Before(k, ReadPath(more))
  {
  }

  lemma {:induction false} ReadPathText(p: seq<string>, rest: string)
    requires p != [] && (rest == "" || (!IsBare(rest[0]) && rest[0] != '.'))
    ensures ReadPath(PathText(p) + rest) == Some((p, rest))
    decreases |p|
  {
    if |p| == 1 {
      ReadKeyText(p[0], rest);
      assert [p[0]] == p;
    } else {
      var more := PathText(p[1..]) + rest;
      ReadPathText(p[1..], rest);
      ReadKeyText(p[0], "." + more);
      PathStep(KeyText(p[0]) + ("." + more), p[0], more);
      Associate(KeyText(p[0]) + ".", PathText(p[1..]), rest);
      Associate(KeyText(p[0]), ".", more);
      assert [p[0]] + p[1..] == p;
    }
  }

  // ---- numbers ----

  lemma {:induction false} DigitsAppend(s: string, rest: string)
    requires AllDigits(s) && (rest == "" || !IsDigit(rest[0]))
    ensures DigitLength(s + rest) == |s|
  {
    if s == "" {
      assert s + rest == rest;
    } else {
      assert (s + rest)[1..] == s[1..] + rest;
      DigitsAppend(s[1..], rest);
    }
  }

  lemma ReadNatText(n: nat, rest: string)
    requires rest == "" || !IsDigit(rest[0])
    ensures ReadNat(NatText(n) + rest) == Some((n, rest)) && IsDigit((NatText(n) + rest)[0])
  {
    var t := NatText(n);
    NatTextIsNumber(n);
    DigitsAppend(t, rest);
    assert (t + rest)[..|t|] == t && (t + rest)[|t|..] == rest;
  }

  // ---- values ----

  /** A value as it is read back: paths have become strings. */
  function Plain(v: Value): Value
    decreases v
  {
    match v
    case FilePath(s) => Str(s)
    case List(items) => List(PlainAll(items))
    case _ => v
  }

  function PlainAll(items: seq<Value>): seq<Value>
    decreases items
  {
    if items == [] then [] else [Plain(items[0])] + PlainAll(items[1..])
  }

  predicate EndsValue(rest: string) {
    rest == "" || rest[0] == ',' || rest[0] == ']'
  }

  lemma ValueTextStarts(v: Value)
    ensures ValueText(v).Some? ==> var t := ValueText(v).value;
            t != "" && t[0] != ' ' && t[0] != '\t' && t[0] != ']'
  {
    match v
    case Int(i) =>
      NatTextIsNumber(if i < 0 then -i else i);
    case _ =>
  }

  lemma NegativeStep(s: string, n: nat, rest: string)
    requires ReadNat(s) == Some((n, rest))
    ensures ReadValue("-" + s) == Some((var i: int := n; Int(-i), rest))
  {
  }

  lemma PositiveStep(s: string, n: nat, rest: string)
    requires s != "" && IsDigit(s[0]) && ReadNat(s) == Some((n, rest))
    ensures ReadValue(s) == Some((Int(n), rest))
  {
  }

  lemma ReadIntText(i: int, rest: string)
    requires EndsValue(rest)
    ensures ReadValue(IntText(i) + rest) == Some((Int(i), rest))
  {
    if i < 0 {
      ReadNatText(-i, rest);
      NegativeStep(NatText(-i) + rest, -i, rest);
      Associate("-", NatText(-i), rest);
    } else {
      ReadNatText(i, rest);
      PositiveStep(NatText(i) + rest, i, rest);
    }
  }

  lemma ReadBoolText(b: bool, rest: string)
    ensures ReadValue((if b then "true" else "false") + rest) == Some((Bool(b), rest))
  {
  }

  lemma {:induction false} ReadValueText(v: Value, rest: string)
    requires ValueText(v).Some? && EndsValue(rest)
    ensures ReadValue(ValueText(v).value + rest) == Some((Plain(v), rest))
    decreases v, 0
  {
    match v
    case Bool(b) => ReadBoolText(b, rest);
    case Int(i) => ReadIntText(i, rest);
    case Str(s) => ReadStrText(s, rest);
    case FilePath(s) => ReadStrText(s, rest);
    case List(items) => ReadListText(items, rest);
  }

  lemma {:induction false} ReadListText(items: seq<Value>, rest: string)
    requires ItemsText(items).Some? && EndsValue(rest)
    ensures ReadValue("[" + ItemsText(items).value + "]" + rest) == Some((List(PlainAll(items)), rest))
    decreases items, 2
  {
    var s := "[" + ItemsText(items).value + "]" + rest;
    var inner := ItemsText(items).value + ("]" + rest);
    assert s[1..] == inner;
    if items == [] {
      assert inner == "]" + rest && s[2..] == rest;
    } else {
      ItemsTextStarts(items);
      ReadItemsText(items, rest);
    }
  }

  lemma ItemsTextStarts(items: seq<Value>)
    requires items != []
    ensures ItemsText(items).Some? ==> var t := ItemsText(items).value;
            t != "" && t[0] != ' ' && t[0] != '\t' && t[0] != ']'
  {
    ValueTextStarts(items[0]);
  }

  lemma LastItem(s: string, v: Value, close: string)
    requires ReadValue(s) == Some((v, close)) && close != "" && close[0] == ']'
    ensures ReadItems(s) == Some(([v], close[1..]))
  {
  }

  /** One blank before a text that starts with none. */
  lemma SkipOne(s: string)
    requires s != "" && s[0] == ' ' && (s[1..] == "" || (s[1] != ' ' && s[1] != '\t'))
    ensures SkipBlanks(s) == s[1..]
  {
  }

  lemma NextItem(s: string, v: Value, sep: string)
    requires ReadValue(s) == Some((v, sep))
    requires |sep| > 2 && sep[0] == ',' && sep[1] == ' ' && sep[2] != ' ' && sep[2] != '\t'
    ensures ReadItems(s) == Before(v, ReadItems(sep[2..]))
  {
    SkipOne(sep[1..]);
    assert sep[1..][1..] == sep[2..];
    assert SkipBlanks(sep) == sep;
  }

  lemma {:induction false} ReadItemsText(items: seq<Value>, rest: string)
    requires items != [] && ItemsText(items).Some?
    ensures ReadItems(ItemsText(items).value + ("]" + rest)) == Some((PlainAll(items), rest))
    decreases items, 1
  {
    var close := "]" + rest;
    assert close[1..] == rest;
    var first := ValueText(items[0]).value;
    if |items| == 1 {
      ReadValueText(items[0], close);
      LastItem(first + close, Plain(items[0]), close);
      assert PlainAll(items) == [Plain(items[0])];
    } else {
      ReadItemsText(items[1..], rest);
      ReadMoreItems(items, close, first, ItemsText(items[1..]).value);
    }
  }

  lemma ReadMoreItems(items: seq<Value>, close: string, first: string, others: string)
    requires |items| > 1 && ItemsText(items).Some? && close != ""
    requires ValueText(items[0]) == Some(first) && ItemsText(items[1..]) == Some(others)
    ensures ReadItems(ItemsText(items).value + close) == Before(Plain(items[0]), ReadItems(others + close))
    decreases items, 0
  {
    var sep := ", " + (others + close);
    ItemsTextStarts(items[1..]);
    ReadValueText(items[0], sep);
    assert sep[2..] == others + close;
    NextItem(first + sep, Plain(items[0]), sep);
    Associate(first + ", ", others, close);
    Associate(first, ", ", others + close);
  }

  // ---- lines ----

  lemma ReadHeaderLine(path: seq<string>)
    requires path != []
    ensures ReadLine(HeaderLine(path)) == Some(Header(path))
  {
    ReadPathText(path, "]");
    assert HeaderLine(path)[1..] == PathText(path) + "]";
  }

  lemma AssignStep(l: string, k: string, rest: string, v: Value)
    requires l != "" && l[0] != '[' && ReadPath(l) == Some(([k], rest))
    requires |rest| > 3 && rest[0] == ' ' && rest[1] == '=' && rest[2] == ' ' && rest[3] != ' ' && rest[3] != '\t'
    requires ReadValue(rest[3..]) == Some((v, ""))
    ensures ReadLine(l) == Some(Assign([k], v))
  {
    SkipOne(rest);
    assert rest[1..][1..] == rest[2..] && rest[2..][1..] == rest[3..];
    SkipOne(rest[2..]);
  }

  lemma ReadAssignLine(row: Row)
    requires AssignLine(row).Some?
    ensures ReadLine(AssignLine(row).value) == Some(Assign([row.key], Plain(row.value)))
  {
    var t := ValueText(row.value).value;
    var rest := " = " + t;
    ReadPathText([row.key], rest);
    ReadKeyText(row.key, "");
    Associate(KeyText(row.key), " = ", t);
    ValueTextStarts(row.value);
    ReadValueText(row.value, "");
    assert t + "" == t && rest[3..] == t;
    AssignStep(AssignLine(row).value, row.key, rest, Plain(row.value));
  }
}

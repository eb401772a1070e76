/** Building a shell command line: each argument is quoted into a buffer of
    exactly its size and appended. A tokeniser that follows the quoting rule
    recovers the arguments. */
module ExecArgs {
  import opened CTypes
  import opened Sequences
  import opened Wrappers

  /** A character of a C string. */
  type Char = x: int | 0 < x < 256 witness 1
  type Text = seq<Char>

  const SPACE: Char := 32
  const TAB: Char := 9
  const NEWLINE: Char := 10
  const QUOTE: Char := 34
  const STAR: Char := 42

  predicate IsBlank(c: Char) {
    c == SPACE || c == TAB || c == NEWLINE
  }

  predicate IsEscaped(c: Char) {
    c == QUOTE || c == STAR
  }

  predicate IsSpecial(c: Char) {
    IsBlank(c) || IsEscaped(c)
  }

  // ---- the quoted form ----

  /** Empty arguments and those with a blank, a quote or an asterisk. */
  predicate NeedsQuote(a: Text) {
    a == [] || exists i :: 0 <= i < |a| && IsSpecial(a[i])
  }

  function EscapedChar(c: Char): Text {
    if IsEscaped(c) then [STAR, c] else [c]
  }

  function Escaped(a: Text): (e: Text)
    ensures |a| <= |e| <= 2 * |a|
  {
    if a == [] then [] else Escaped(a[..|a|-1]) + EscapedChar(a[|a|-1])
  }

  function Quoted(a: Text): Text {
    if NeedsQuote(a) then [QUOTE] + Escaped(a) + [QUOTE] else a
  }

  /** What the arguments add to the command. */
  function Tail(args: seq<Text>): Text {
    if args == [] then []
    else Tail(args[..|args|-1]) + ([SPACE] + Quoted(args[|args|-1]))
  }

  function CommandLine(cmd: Text, args: seq<Text>): Text {
    cmd + Tail(args)
  }

  // ---- the tokeniser the rule describes ----

  /** Blank, tab or newline. */
  predicate Separates(c: Char) {
    c == 32 || c == 9 || c == 10
  }

  /** The body of a quoted token and what follows its closing quote (code 34);
      an asterisk (code 42) stands before a quote or an asterisk. */
  function Unquote(s: Text): (r: Option<(Text, Text)>)
    ensures r.Some? ==> |r.value.1| < |s|
  {
    if s == [] then None
    else if s[0] == 34 then Some(([], s[1..]))
    else if s[0] == 42 then
      if |s| < 2 || (s[1] != 34 && s[1] != 42) then None else Before(s[1], Unquote(s[2..]))
    else Before(s[0], Unquote(s[1..]))
  }

  function Before(c: Char, r: Option<(Text, Text)>): Option<(Text, Text)> {
    match r case None => None case Some(v) => Some(([c] + v.0, v.1))
  }

  function BareLength(s: Text): (n: nat)
    ensures n <= |s|
  {
    if s == [] || Separates(s[0]) then 0 else 1 + BareLength(s[1..])
  }

  predicate EndsToken(s: Text) {
    s == [] || Separates(s[0])
  }

  function Cons(t: Text, r: Option<seq<Text>>): Option<seq<Text>> {
    match r case None => None case Some(ts) => Some([t] + ts)
  }

  /** The tokens of a line; None if a quote is not closed, an asterisk
      escapes nothing, or text touches a closing quote. */
  function Tokens(s: Text): Option<seq<Text>>
    decreases |s|
  {
    if s == [] then Some([])
    else if Separates(s[0]) then Tokens(s[1..])
    else if s[0] == 34 then
      match Unquote(s[1..])
      case None => None
      case Some(v) => if EndsToken(v.1) then Cons(v.0, Tokens(v.1)) else None
    else
      Cons(s[..BareLength(s)], Tokens(s[BareLength(s)..]))
  }

  /** An argument stands as it is exactly if it is not empty and holds no
      blank, tab, newline, quote or asterisk; else it stands between quotes. */
  lemma QuotedIff(a: Text)
    ensures Quoted(a) == a <==> a != [] && forall i :: 0 <= i < |a| ==> a[i] !in {9, 10, 32, 34, 42}
    ensures Quoted(a) != a ==> var q := Quoted(a); |q| >= 2 && q[0] == 34 && q[|q|-1] == 34
  {
    assert NeedsQuote(a) <==> a == [] || exists i :: 0 <= i < |a| && a[i] in {9, 10, 32, 34, 42};
  }

  // ---- tokenising undoes quoting ----

  lemma {:induction false} UnquoteAppend(s: Text, rest: Text)
    requires Unquote(s).Some?
    ensures var v := Unquote(s).value; Unquote(s + rest) == Some((v.0, v.1 + rest))
    decreases |s|
  {
    if s[0] == QUOTE {
      assert (s + rest)[1..] == s[1..] + rest;
    } else if s[0] == STAR {
      assert (s + rest)[2..] == s[2..] + rest;
      UnquoteAppend(s[2..], rest);
    } else {
      assert (s + rest)[1..] == s[1..] + rest;
      UnquoteAppend(s[1..], rest);
    }
  }

  lemma {:induction false} BareAppend(s: Text, rest: Text)
    requires EndsToken(rest)
    ensures BareLength(s + rest) == BareLength(s)
  {
    if s == [] {
      assert s + rest == rest;
    } else if !IsBlank(s[0]) {
      assert (s + rest)[1..] == s[1..] + rest;
      BareAppend(s[1..], rest);
    }
  }

  function Both(a: Option<seq<Text>>, b: Option<seq<Text>>): Option<seq<Text>> {
    if a == None || b == None then None else Some(a.value + b.value)
  }

  lemma ConsBoth(t: Text, a: Option<seq<Text>>, b: Option<seq<Text>>)
    ensures Both(Cons(t, a), b) == Cons(t, Both(a, b))
  {
    if a.Some? && b.Some? { assert [t] + a.value + b.value == [t] + (a.value + b.value); }
  }

  /** Text that begins at a token's end adds its own tokens and changes none. */
  lemma {:induction false} TokensAppend(s: Text, rest: Text)
    requires Tokens(s).Some? && EndsToken(rest)
    ensures Tokens(s + rest) == Both(Tokens(s), Tokens(rest))
    decreases |s|
  {
    if s == [] {
      assert s + rest == rest;
      if Tokens(rest).Some? { assert [] + Tokens(rest).value == Tokens(rest).value; }
    } else if IsBlank(s[0]) {
      assert (s + rest)[1..] == s[1..] + rest;
      TokensAppend(s[1..], rest);
    } else if s[0] == QUOTE {
      var v := Unquote(s[1..]).value;
      assert (s + rest)[1..] == s[1..] + rest;
      UnquoteAppend(s[1..], rest);
      TokensAppend(v.1, rest);
      ConsBoth(v.0, Tokens(v.1), Tokens(rest));
    } else {
      var n := BareLength(s);
      BareAppend(s, rest);
      assert (s + rest)[..n] == s[..n] && (s + rest)[n..] == s[n..] + rest;
      TokensAppend(s[n..], rest);
      ConsBoth(s[..n], Tokens(s[n..]), Tokens(rest));
    }
  }

  lemma UnquoteChar(c: Char, rest: Text)
    ensures Unquote(EscapedChar(c) + rest) == Before(c, Unquote(rest))
  {
  }

  lemma {:induction false} UnquoteEscaped(a: Text, rest: Text, body: Text, after: Text)
    requires Unquote(rest) == Some((body, after))
    ensures Unquote(Escaped(a) + rest) == Some((a + body, after))
    decreases |a|
  {
    if a == [] {
      assert Escaped(a) + rest == rest && a + body == body;
    } else {
      var front, c := a[..|a|-1], a[|a|-1];
      UnquoteChar(c, rest);
      UnquoteEscaped(front, EscapedChar(c) + rest, [c] + body, after);
      Associate(Escaped(front), EscapedChar(c), rest);
      Associate(front, [c], body);
      assert front + [c] == a;
    }
  }

  lemma {:induction false} BareIsWhole(a: Text)
    requires forall i :: 0 <= i < |a| ==> !IsSpecial(a[i])
    ensures BareLength(a) == |a|
  {
    if a != [] { BareIsWhole(a[1..]); }
  }

  lemma OneToken(a: Text)
    ensures Tokens(Quoted(a)) == Some([a])
  {
    if NeedsQuote(a) {
      var q := Quoted(a);
      assert [QUOTE][1..] == [];
      UnquoteEscaped(a, [QUOTE], [], []);
      assert q[1..] == Escaped(a) + [QUOTE] && a + [] == a;
    } else {
      BareIsWhole(a);
      assert a[..|a|] == a && a[|a|..] == [] && [a] + [] == [a];
      assert !IsSpecial(a[0]);
    }
  }

  lemma TokensAndOne(line: Text, ts: seq<Text>, a: Text)
    requires Tokens(line) == Some(ts)
    ensures Tokens(line + ([SPACE] + Quoted(a))) == Some(ts + [a])
  {
    var word := [SPACE] + Quoted(a);
    assert word[1..] == Quoted(a);
    OneToken(a);
    TokensAppend(line, word);
  }

  /** The arguments come back exactly: none split, merged, dropped or
      changed, whatever bytes they hold; and the command's own tokens with
      them. */
  lemma {:induction false} TokensOfCommandLine(cmd: Text, args: seq<Text>)
    requires Tokens(cmd).Some?
    ensures Tokens(CommandLine(cmd, args)) == Some(Tokens(cmd).value + args)
    decreases |args|
  {
    var ts := Tokens(cmd).value;
    if args == [] {
      assert cmd + [] == cmd && ts + [] == ts;
    } else {
      var front, a := args[..|args|-1], args[|args|-1];
      TokensOfCommandLine(cmd, front);
      TokensAndOne(CommandLine(cmd, front), ts + front, a);
      Associate(cmd, Tail(front), [SPACE] + Quoted(a));
      Associate(ts, front, [a]);
      assert front + [a] == args;
    }
  }

  /** Two argument lists never make the same line. */
  lemma CommandLineIsInjective(cmd: Text, args: seq<Text>, others: seq<Text>)
    requires Tokens(cmd).Some? && CommandLine(cmd, args) == CommandLine(cmd, others)
    ensures args == others
  {
    TokensOfCommandLine(cmd, args);
    TokensOfCommandLine(cmd, others);
    var n := |Tokens(cmd).value|;
    assert args == (Tokens(cmd).value + args)[n..] == (Tokens(cmd).value + others)[n..] == others;
  }

  // ---- the C code ----

  /** A string in memory. */
  function Terminated(t: Text): (s: seq<uint8>)
    ensures |s| == |t| + 1 && s[..|t|] == t && s[|t|] == 0
  {
    var text: seq<uint8>, nul: seq<uint8> := t, [0];
    text + nul
  }

  lemma {:induction false} EscapedGrows(a: Text, i: nat)
    requires i < |a|
    ensures |Escaped(a[..i+1])| + |a| - (i + 1) <= |Escaped(a)|
    ensures Escaped(a[..i+1]) == Escaped(a[..i]) + EscapedChar(a[i])
    decreases |a|
  {
    if i + 1 == |a| {
      assert a[..i+1] == a;
    } else {
      var front := a[..|a|-1];
      EscapedGrows(front, i);
      assert front[..i+1] == a[..i+1] && front[..i] == a[..i];
    }
  }

  lemma {:induction false} PlainEscaped(a: Text)
    requires forall i :: 0 <= i < |a| ==> !IsSpecial(a[i])
    ensures Escaped(a) == a
  {
    if a != [] {
      var front, c := a[..|a|-1], a[|a|-1];
      PlainEscaped(front);
      assert !IsSpecial(c) && EscapedChar(c) == [c];
      assert front + [c] == a;
    }
  }

  /** The counting pass. */
  method Measure(a: Text) returns (needsQuote: bool, extra: nat)
    ensures needsQuote == NeedsQuote(a) && |Escaped(a)| == |a| + extra
  {
    needsQuote, extra := |a| == 0, 0;
    assert a[..0] == [];
    for i := 0 to |a|
      invariant needsQuote <==> a == [] || exists j :: 0 <= j < i && IsSpecial(a[j])
      invariant |Escaped(a[..i])| == i + extra
    {
      EscapedGrows(a, i);
      if IsBlank(a[i]) || IsEscaped(a[i]) { needsQuote := true; }
      if IsEscaped(a[i]) { extra := extra + 1; }
    }
    assert a[..|a|] == a;
  }

  /** Counts, allocates, then fills: the buffer holds the quoted form and the
      terminator and nothing more. */
  method QuoteArg(a: Text) returns (q: array<uint8>)
    ensures fresh(q) && q[..] == Terminated(Quoted(a))
  {
    var needsQuote, extra := Measure(a);
    q := new uint8[|a| + extra + (if needsQuote then 2 else 0) + 1](_ => 0);
    var o := 0;
    if needsQuote {
      q[0] := QUOTE;
      o := CopyEscaped(a, q, 1, [QUOTE]);
      q[o] := QUOTE;
      o := o + 1;
      assert q[..o] == [QUOTE] + Escaped(a) + [QUOTE];
    } else {
      o := CopyEscaped(a, q, 0, []);
      PlainEscaped(a);
      assert q[..o] == a by { assert [] + a == a; }
    }
    ghost var quoted := q[..o];
    q[o] := 0;
    assert q[..o] == quoted;
  }

  method CopyEscaped(a: Text, q: array<uint8>, start: nat, ghost before: Text) returns (o: nat)
    requires start + |Escaped(a)| <= q.Length && q[..start] == before
    modifies q
    ensures o == start + |Escaped(a)| && q[..o] == before + Escaped(a)
  {
    o := start;
    assert before + [] == before;
    for i := 0 to |a|
      invariant o == start + |Escaped(a[..i])| && o + |a| - i <= start + |Escaped(a)|
      invariant q[..o] == before + Escaped(a[..i])
    {
      EscapedGrows(a, i);
      Associate(before, Escaped(a[..i]), EscapedChar(a[i]));
      o := CopyChar(a[i], q, o);
    }
    assert a[..|a|] == a;
  }

  method CopyChar(c: Char, q: array<uint8>, start: nat) returns (o: nat)
    requires start + |EscapedChar(c)| <= q.Length
    modifies q
    ensures o == start + |EscapedChar(c)| && q[..o] == old(q[..start]) + EscapedChar(c)
  {
    o := start;
    if c == QUOTE || c == STAR { q[o] := STAR; o := o + 1; }
    q[o] := c;
    o := o + 1;
  }

  /** The joining loop: the line grows by a blank and the quoted argument. */
  method JoinArgs(cmd: Text, args: seq<Text>) returns (full: array<uint8>)
    ensures fresh(full) && full[..] == Terminated(CommandLine(cmd, args))
  {
    full := new uint8[|cmd| + 1](i requires 0 <= i <= |cmd| => Terminated(cmd)[i]);
    var fullLen := |cmd|;
    assert full[..] == Terminated(cmd) && cmd + [] == cmd;
    for i := 0 to |args|
      invariant fresh(full) && fullLen == |CommandLine(cmd, args[..i])|
      invariant full[..] == Terminated(CommandLine(cmd, args[..i]))
    {
      var q := QuoteArg(args[i]);
      assert args[..i+1][..i] == args[..i];
      Associate(cmd, Tail(args[..i]), [SPACE] + Quoted(args[i]));
      ghost var line: Text, quoted: Text := CommandLine(cmd, args[..i]), Quoted(args[i]);
      full := Grown(full, fullLen, q, line, quoted);
      fullLen := fullLen + q.Length;
    }
    assert args[..|args|] == args;
  }

  /** memcpy. */
  method CopyAt(dst: array<uint8>, at: nat, src: array<uint8>, n: nat)
    requires dst != src && n <= src.Length && at + n <= dst.Length
    modifies dst
    ensures dst[..at] == old(dst[..at]) && dst[at..at + n] == src[..n]
  {
    for i := 0 to n
      invariant dst[..at] == old(dst[..at]) && dst[at..at + i] == src[..i]
    {
      dst[at + i] := src[i];
    }
  }

  /** realloc and the copy of the quoted argument behind a blank. */
  method Grown(full: array<uint8>, fullLen: nat, q: array<uint8>, ghost line: Text, ghost quoted: Text)
    returns (grown: array<uint8>)
    requires full[..] == Terminated(line) && fullLen == |line| && q[..] == Terminated(quoted)
    ensures fresh(grown) && grown[..] == Terminated(line + ([SPACE] + quoted)) && q.Length == |quoted| + 1
  {
    grown := new uint8[fullLen + 1 + q.Length](_ => 0);
    CopyAt(grown, 0, full, fullLen);
    assert grown[..fullLen] == line;
    grown[fullLen] := SPACE;
    assert grown[..fullLen + 1] == line + [SPACE];
    CopyAt(grown, fullLen + 1, q, q.Length);
    assert grown[..] == grown[..fullLen + 1] + grown[fullLen + 1..];
  }
}

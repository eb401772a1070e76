/** A strict reader of the part of TOML v1.0.0 the writer uses: comments,
    multi-line and literal strings, floats, dates and inline tables are
    refused. */
module TomlReader {
  import opened Decimal
  import opened Wrappers
  import opened TomlWriter

  /** What a document denotes. */
  datatype Node = Leaf(value: Value) | Branch(kids: Tree)
  type Tree = map<string, Node>

  const DEL: char := '\U{7f}'

  /** Control characters other than tab and newline may not stand in a
      document. */
  predicate IsAllowed(c: char) {
    c == '\t' || c == '\n' || (c >= ' ' && c != DEL)
  }

  // ---- keys and values ----

  function Before<T>(x: T, r: Option<(seq<T>, string)>): Option<(seq<T>, string)> {
    match r case None => None case Some(v) => Some(([x] + v.0, v.1))
  }

  function HexValue(c: char): Option<nat> {
    if '0' <= c <= '9' then Some(c as int - '0' as int)
    else if 'a' <= c <= 'f' then Some(c as int - 'a' as int + 10)
    else if 'A' <= c <= 'F' then Some(c as int - 'A' as int + 10)
    else None
  }

  /** The character of a four-digit escape; surrogates are none. */
  function HexChar(a: char, b: char, c: char, d: char): Option<char> {
    var w, x, y, z := HexValue(a), HexValue(b), HexValue(c), HexValue(d);
    if w == None || x == None || y == None || z == None then None
    else
      var n := w.value * 4096 + x.value * 256 + y.value * 16 + z.value;
      if 0xD800 <= n < 0xE000 || n >= 0x1_0000 then None else Some(n as char)
  }

  function SimpleEscape(c: char): Option<char> {
    match c
    case 'b' => Some('\U{8}')
    case 't' => Some('\t')
    case 'n' => Some('\n')
    case 'f' => Some('\U{c}')
    case 'r' => Some('\r')
    case '"' => Some('"')
    case '\\' => Some('\\')
    case _ => None
  }

  /** A basic string, after its opening quote: the string and what follows
      the closing quote. */
  function ReadString(s: string): (r: Option<(string, string)>)
    ensures r.Some? ==> |r.value.1| < |s|
  {
    if s == "" then None
    else if s[0] == '"' then Some(("", s[1..]))
    else if s[0] != '\\' then Before(s[0], ReadString(s[1..]))
    else if |s| >= 6 && s[1] == 'u' then
      match HexChar(s[2], s[3], s[4], s[5])
      case None => None
      case Some(c) => Before(c, ReadString(s[6..]))
    else if |s| >= 2 then
      match SimpleEscape(s[1])
      case None => None
      case Some(c) => Before(c, ReadString(s[2..]))
    else None
  }

  /** The characters of a bare key, section Keys: ASCII letters and digits,
      underscore and hyphen. */
  predicate IsBare(c: char) {
    var n := c as int;
    65 <= n <= 90 || 97 <= n <= 122 || 48 <= n <= 57 || n == 95 || n == 45
  }

  function BareLength(s: string): (n: nat)
    ensures n <= |s|
  {
    if s == "" || !IsBare(s[0]) then 0 else 1 + BareLength(s[1..])
  }

  function ReadKey(s: string): (r: Option<(string, string)>)
    ensures r.Some? ==> |r.value.1| < |s|
  {
    if s != "" && s[0] == '"' then ReadString(s[1..])
    else
      var n := BareLength(s);
      if n == 0 then None else Some((s[..n], s[n..]))
  }

  /** Keys joined by dots. */
  function ReadPath(s: string): Option<(seq<string>, string)>
    decreases |s|
  {
    match ReadKey(s)
    case None => None
    case Some(v) =>
      if v.1 != "" && v.1[0] == '.' then Before(v.0, ReadPath(v.1[1..])) else Some(([v.0], v.1))
  }

  function DigitLength(s: string): (n: nat)
    ensures n <= |s|
  {
    if s == "" || !IsDigit(s[0]) then 0 else 1 + DigitLength(s[1..])
  }

  /** Decimal digits without leading zeros. */
  function ReadNat(s: string): (r: Option<(nat, string)>)
    ensures r.Some? ==> |r.value.1| < |s|
  {
    var n := DigitLength(s);
    if n == 0 || (n > 1 && s[0] == '0') then None else Some((Number(s[..n]), s[n..]))
  }

  function SkipBlanks(s: string): (r: string)
    ensures |r| <= |s|
  {
    if s != "" && (s[0] == ' ' || s[0] == '\t') then SkipBlanks(s[1..]) else s
  }

  predicate StartsWith(s: string, c: char) {
    s != "" && s[0] == c
  }

  function ReadValue(s: string): (r: Option<(Value, string)>)
    ensures r.Some? ==> |r.value.1| < |s|
    decreases |s|, 0
  {
    if s == "" then None
    else if s[0] == '"' then
      (match ReadString(s[1..]) case None => None case Some(v) => Some((Str(v.0), v.1)))
    else if s[0] == '[' then
      if StartsWith(s[1..], ']') then Some((List([]), s[2..]))
      else (match ReadItems(s[1..]) case None => None case Some(v) => Some((List(v.0), v.1)))
    else if s[0] == 't' then
      if |s| >= 4 && s[..4] == "true" then Some((Bool(true), s[4..])) else None
    else if s[0] == 'f' then
      if |s| >= 5 && s[..5] == "false" then Some((Bool(false), s[5..])) else None
    else if s[0] == '-' then
      (match ReadNat(s[1..]) case None => None case Some(v) => var i: int := v.0; Some((Int(-i), v.1)))
    else
      (match ReadNat(s) case None => None case Some(v) => Some((Int(v.0), v.1)))
  }

  /** The items of a list, up to and with its closing bracket. */
  function ReadItems(s: string): (r: Option<(seq<Value>, string)>)
    ensures r.Some? ==> |r.value.1| < |s|
    decreases |s|, 1
  {
    match ReadValue(s)
    case None => None
    case Some(v) =>
      var rest := SkipBlanks(v.1);
      if StartsWith(rest, ']') then Some(([v.0], rest[1..]))
      else if StartsWith(rest, ',') then Before(v.0, ReadItems(SkipBlanks(rest[1..])))
      else None
  }

  // ---- lines ----

  datatype Statement =
    | Blank
    | Header(path: seq<string>)
    | Assign(path: seq<string>, value: Value)

  function ReadLine(l: string): Option<Statement> {
    if l == "" then Some(Blank)
    else if l[0] == '[' then
      match ReadPath(l[1..])
      case None => None
      case Some(v) => if v.1 == "]" then Some(Header(v.0)) else None
    else
      match ReadPath(l)
      case None => None
      case Some(v) =>
        if !StartsWith(SkipBlanks(v.1), '=') then None
        else
          match ReadValue(SkipBlanks(SkipBlanks(v.1)[1..]))
          case None => None
          case Some(w) => if w.1 == "" then Some(Assign(v.0, w.0)) else None
  }

  // ---- meaning ----

  /** Adds a node at a path that is not there yet; tables on the way are made
      as needed. Defining a key twice is an error. */
  function Insert(root: Tree, path: seq<string>, node: Node): Option<Tree>
    requires path != []
    decreases |path|
  {
    var k := path[0];
    if |path| == 1 then
      if k in root then None else Some(root[k := node])
    else if k in root && root[k].Leaf? then None
    else
      match Insert(if k in root then root[k].kids else map[], path[1..], node)
      case None => None
      case Some(kids) => Some(root[k := Branch(kids)])
  }

  /** The document so far and the table that pairs go into. */
  datatype State = State(root: Tree, current: seq<string>)

  function Apply(st: State, s: Statement): Option<State> {
    match s
    case Blank => Some(st)
    case Header(path) =>
      if path == [] then None
      else (match Insert(st.root, path, Branch(map[])) case None => None case Some(t) => Some(State(t, path)))
    case Assign(path, v) =>
      if path == [] then None
      else (match Insert(st.root, st.current + path, Leaf(v))
            case None => None case Some(t) => Some(State(t, st.current)))
  }

  function Step(st: Option<State>, line: string): Option<State> {
    if st == None then None
    else match ReadLine(line) case None => None case Some(s) => Apply(st.value, s)
  }

  function Run(lines: seq<string>): Option<State> {
    if lines == [] then Some(State(map[], [])) else Step(Run(lines[..|lines|-1]), lines[|lines|-1])
  }

  /** The lines of a document, each ended by a newline. */
  function SplitLines(s: string): Option<seq<string>>
    decreases |s|
  {
    if s == "" then Some([])
    else
      var n := LineLength(s);
      if n == |s| then None
      else match SplitLines(s[n+1..]) case None => None case Some(ls) => Some([s[..n]] + ls)
  }

  function LineLength(s: string): (n: nat)
    ensures n <= |s|
  {
    if s == "" || s[0] == '\n' then 0 else 1 + LineLength(s[1..])
  }

  function Meaning(ls: Option<seq<string>>): Option<Tree> {
    if ls == None then None
    else match Run(ls.value) case None => None case Some(st) => Some(st.root)
  }

  predicate HasForbidden(text: string) {
    exists i :: 0 <= i < |text| && !IsAllowed(text[i])
  }

  function Parse(text: string): Option<Tree> {
    if HasForbidden(text) then None else Meaning(SplitLines(text))
  }
}

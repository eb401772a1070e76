/** The configuration wizard's TOML writer: dictionaries of strings, paths,
    integers, booleans, lists and dictionaries. */
module TomlWriter {
  import opened Decimal
  import opened Wrappers

  /** A Python value. Other stands for every type the writer refuses. */
  datatype Value =
    | Str(s: string)
    | FilePath(s: string)
    | Int(i: int)
    | Bool(b: bool)
    | List(items: seq<Value>)
    | Table(rows: seq<Row>)
    | Other

  /** An entry of a dictionary, in insertion order. */
  datatype Row = Row(key: string, value: Value)

  // ---- text of strings and keys ----

  function HexDigit(d: nat): char
    requires d < 16
  {
    "0123456789abcdef"[d]
  }

  function Hex4(n: nat): string
    requires n < 0x1_0000
  {
    [HexDigit(n / 4096), HexDigit(n / 256 % 16), HexDigit(n / 16 % 16), HexDigit(n % 16)]
  }

  function CharText(c: char): string {
    if c == '"' then "\\\""
    else if c == '\\' then "\\\\"
    else if c == '\n' then "\\n"
    else if c == '\t' then "\\t"
    else if c < ' ' then "\\u" + Hex4(c as int)
    else [c]
  }

  function StrBody(s: string): string {
    if s == "" then "" else StrBody(s[..|s|-1]) + CharText(s[|s|-1])
  }

  function StrText(s: string): string {
    "\"" + StrBody(s) + "\""
  }

  predicate IsSafe(c: char) {
    'a' <= c <= 'z' || 'A' <= c <= 'Z' || '0' <= c <= '9' || c == '_' || c == '-'
  }

  predicate AllSafe(s: string) {
    forall i :: 0 <= i < |s| ==> IsSafe(s[i])
  }

  function KeyText(name: string): string {
    if name != "" && AllSafe(name) then name else StrText(name)
  }

  function PathText(path: seq<string>): string {
    if path == [] then ""
    else if |path| == 1 then KeyText(path[0])
    else KeyText(path[0]) + "." + PathText(path[1..])
  }

  // ---- text of values ----

  function IntText(i: int): string {
    if i < 0 then "-" + NatText(-i) else NatText(i)
  }

  function Then(a: Option<string>, b: Option<string>): Option<string> {
    if a == None || b == None then None else Some(a.value + b.value)
  }

  /** None is the writer's TypeError. */
  function ValueText(v: Value): Option<string>
    decreases v
  {
    match v
    case Bool(b) => Some(if b then "true" else "false")
    case Int(i) => Some(IntText(i))
    case List(items) => Then(Then(Some("["), ItemsText(items)), Some("]"))
    case FilePath(s) => Some(StrText(s))
    case Str(s) => Some(StrText(s))
    case Table(_) => None
    case Other => None
  }

  function ItemsText(items: seq<Value>): Option<string>
    decreases items
  {
    if items == [] then Some("")
    else if |items| == 1 then ValueText(items[0])
    else Then(Then(ValueText(items[0]), Some(", ")), ItemsText(items[1..]))
  }

  // ---- lines of tables ----

  /** The number of entries, those of sub-tables included. */
  ghost function Size(rows: seq<Row>): nat {
    if rows == [] then 0
    else
      var last := rows[|rows|-1].value;
      Size(rows[..|rows|-1]) + 1 + if last.Table? then Size(last.rows) else 0
  }

  function Scalars(rows: seq<Row>): (r: seq<Row>)
    ensures forall i :: 0 <= i < |r| ==> r[i] in rows && !r[i].value.Table?
  {
    if rows == [] then []
    else
      var last := rows[|rows|-1];
      Scalars(rows[..|rows|-1]) + (if last.value.Table? then [] else [last])
  }

  ghost predicate AllTables(rows: seq<Row>) {
    forall i :: 0 <= i < |rows| ==> rows[i].value.Table?
  }

  function Tables(rows: seq<Row>): (r: seq<Row>)
    ensures AllTables(r) && Size(r) <= Size(rows)
  {
    if rows == [] then []
    else
      var last := rows[|rows|-1];
      var front := Tables(rows[..|rows|-1]);
      assert (front + [last])[..|front|] == front && front + [] == front;
      front + (if last.value.Table? then [last] else [])
  }

  function HeaderLine(path: seq<string>): string {
    "[" + PathText(path) + "]"
  }

  /** The list of lines, or the TypeError that has been raised. */
  type Lines = Option<seq<string>>

  function Plus(lines: Lines, line: Option<string>): Lines {
    if lines == None || line == None then None else Some(lines.value + [line.value])
  }

  function AssignLine(row: Row): Option<string> {
    Then(Some(KeyText(row.key) + " = "), ValueText(row.value))
  }

  /** Adds the lines of key and value pairs, in order. */
  function AssignLines(lines: Lines, rows: seq<Row>): Lines {
    if rows == [] then lines
    else Plus(AssignLines(lines, rows[..|rows|-1]), AssignLine(rows[|rows|-1]))
  }

  /** Adds a table's header and pairs, and a blank if sub-tables follow. */
  function TopLines(lines: Lines, path: seq<string>, scalars: seq<Row>, more: bool): Lines {
    if path == [] && scalars == [] then lines
    else
      var headed := if path == [] then lines else Plus(lines, Some(HeaderLine(path)));
      var paired := AssignLines(headed, scalars);
      if more then Plus(paired, Some("")) else paired
  }

  /** Adds all lines of a table: its own, then each sub-table's and a blank. */
  function TableLines(lines: Lines, path: seq<string>, rows: seq<Row>): Lines
    decreases Size(rows), 1
  {
    SubLines(TopLines(lines, path, Scalars(rows), Tables(rows) != []), path, Tables(rows))
  }

  function SubLines(lines: Lines, path: seq<string>, tables: seq<Row>): Lines
    requires AllTables(tables)
    decreases Size(tables), 0
  {
    if tables == [] then lines
    else
      var last := tables[|tables|-1];
      Plus(TableLines(SubLines(lines, path, tables[..|tables|-1]), path + [last.key], last.value.rows), Some(""))
  }

  function Trimmed(lines: seq<string>): (r: seq<string>)
    ensures r <= lines
  {
    if lines != [] && lines[|lines|-1] == "" then Trimmed(lines[..|lines|-1]) else lines
  }

  function Unlines(lines: seq<string>): string {
    if lines == [] then "\n"
    else if |lines| == 1 then lines[0] + "\n"
    else lines[0] + "\n" + Unlines(lines[1..])
  }

  function Rendered(rows: seq<Row>): Option<string> {
    match TableLines(Some([]), [], rows)
    case None => None
    case Some(lines) => Some(Unlines(Trimmed(lines)))
  }

  // ---- the writer ----

  function Concat(parts: seq<string>): string {
    if parts == [] then "" else Concat(parts[..|parts|-1]) + parts[|parts|-1]
  }

  lemma ConcatOne(parts: seq<string>, part: string)
    ensures Concat(parts + [part]) == Concat(parts) + part
  {
  }

  lemma BodyGrows(s: string, i: nat)
    requires i < |s|
    ensures "\"" + StrBody(s[..i+1]) == "\"" + StrBody(s[..i]) + CharText(s[i])
  {
    assert s[..i+1][..i] == s[..i];
  }

  method TomlStr(s: string) returns (text: string)
    ensures text == StrText(s)
  {
    var out := ["\""];
    assert Concat(out) == "\"" + StrBody(s[..0]);
    for i := 0 to |s|
      invariant Concat(out) == "\"" + StrBody(s[..i])
    {
      var ch := s[i];
      BodyGrows(s, i);
      ConcatOne(out, CharText(ch));
      if ch == '"' { out := out + ["\\\""]; }
      else if ch == '\\' { out := out + ["\\\\"]; }
      else if ch == '\n' { out := out + ["\\n"]; }
      else if ch == '\t' { out := out + ["\\t"]; }
      else if ch < ' ' { out := out + ["\\u" + Hex4(ch as int)]; }
      else { out := out + [[ch]]; }
    }
    assert s[..|s|] == s;
    ConcatOne(out, "\"");
    return Concat(out + ["\""]);
  }

  /** The writer's list of lines. */
  class Writer {
    var lines: seq<string>

    constructor ()
      ensures lines == []
    {
      lines := [];
    }

    /** Appends a table's lines; false is the TypeError. */
    method EmitTable(path: seq<string>, rows: seq<Row>) returns (ok: bool)
      modifies this
      ensures TableLines(Some(old(lines)), path, rows) == if ok then Some(lines) else None
      decreases Size(rows), 1
    {
      var scalars, tables := Scalars(rows), Tables(rows);
      if path != [] || |scalars| > 0 {
        ok := EmitTop(path, scalars, |tables| > 0);
        if !ok {
          NoneStays(path, tables);
          return;
        }
      }
      ok := EmitSubTables(path, tables);
    }

    method EmitTop(path: seq<string>, scalars: seq<Row>, more: bool) returns (ok: bool)
      requires path != [] || |scalars| > 0
      modifies this
      ensures TopLines(Some(old(lines)), path, scalars, more) == if ok then Some(lines) else None
    {
      if path != [] { lines := lines + [HeaderLine(path)]; }
      ok := EmitAssigns(scalars);
      if ok && more { lines := lines + [""]; }
    }

    method EmitAssigns(scalars: seq<Row>) returns (ok: bool)
      modifies this
      ensures AssignLines(Some(old(lines)), scalars) == if ok then Some(lines) else None
    {
      for i := 0 to |scalars|
        invariant AssignLines(Some(old(lines)), scalars[..i]) == Some(lines)
      {
        assert scalars[..i+1][..i] == scalars[..i];
        var line := AssignLine(scalars[i]);
        if line == None { AssignFails(Some(old(lines)), scalars, i); return false; }
        lines := lines + [line.value];
      }
      assert scalars[..|scalars|] == scalars;
      return true;
    }

    method EmitSubTables(path: seq<string>, tables: seq<Row>) returns (ok: bool)
      requires AllTables(tables)
      modifies this
      ensures SubLines(Some(old(lines)), path, tables) == if ok then Some(lines) else None
      decreases Size(tables), 0
    {
      for i := 0 to |tables|
        invariant SubLines(Some(old(lines)), path, tables[..i]) == Some(lines)
      {
        assert tables[..i+1][..i] == tables[..i];
        SizeOfPart(tables, i);
        var done := EmitTable(path + [tables[i].key], tables[i].value.rows);
        if !done { SubFails(Some(old(lines)), path, tables, i + 1); return false; }
        lines := lines + [""];
      }
      assert tables[..|tables|] == tables;
      return true;
    }
  }

  lemma {:induction false} AssignFails(lines: Lines, rows: seq<Row>, i: nat)
    requires i < |rows| && AssignLine(rows[i]) == None
    ensures AssignLines(lines, rows) == None
    decreases |rows|
  {
    if i + 1 < |rows| { AssignFails(lines, rows[..|rows|-1], i); }
  }

  lemma {:induction false} NoneAssigned(rows: seq<Row>)
    ensures AssignLines(None, rows) == None
  {
    if rows != [] { NoneAssigned(rows[..|rows|-1]); }
  }

  /** Once raised, the error stays. */
  lemma {:induction false} NoneStays(path: seq<string>, tables: seq<Row>)
    requires AllTables(tables)
    ensures SubLines(None, path, tables) == None
    decreases Size(tables), 0
  {
    if tables != [] {
      NoneStays(path, tables[..|tables|-1]);
      NoTable(path + [tables[|tables|-1].key], tables[|tables|-1].value.rows);
    }
  }

  lemma {:induction false} NoTable(path: seq<string>, rows: seq<Row>)
    ensures TableLines(None, path, rows) == None
    decreases Size(rows), 1
  {
    NoneAssigned(Scalars(rows));
    NoneStays(path, Tables(rows));
  }

  lemma {:induction false} SubFails(lines: Lines, path: seq<string>, tables: seq<Row>, i: nat)
    requires AllTables(tables) && i <= |tables| && SubLines(lines, path, tables[..i]) == None
    ensures SubLines(lines, path, tables) == None
    decreases |tables|
  {
    if i < |tables| {
      var front := tables[..|tables|-1];
      assert front[..i] == tables[..i];
      SubFails(lines, path, front, i);
      NoTable(path + [tables[|tables|-1].key], tables[|tables|-1].value.rows);
    } else {
      assert tables[..i] == tables;
    }
  }

  lemma {:induction false} SizeOfPart(tables: seq<Row>, i: nat)
    requires AllTables(tables) && i < |tables|
    ensures Size(tables[i].value.rows) < Size(tables)
    decreases |tables|
  {
    if i + 1 < |tables| { SizeOfPart(tables[..|tables|-1], i); }
  }

  /** Renders a dictionary; trailing blank lines are popped. */
  method RenderToml(data: seq<Row>) returns (text: Option<string>)
    ensures text == Rendered(data)
  {
    var w := new Writer();
    var ok := w.EmitTable([], data);
    if !ok { return None; }
    ghost var all := w.lines;
    while w.lines != [] && w.lines[|w.lines|-1] == ""
      invariant fresh(w) && Trimmed(all) == Trimmed(w.lines)
      decreases |w.lines|
    {
      w.lines := w.lines[..|w.lines|-1];
    }
    return Some(Unlines(w.lines));
  }
}

/** Which values the TOML writer accepts and which characters it emits. */
module TomlChars {
  import opened Decimal
  import opened Wrappers
  import opened TomlWriter
  import opened TomlReader
  import opened TomlRoundTrip

  // ---- what is refused ----

  predicate Supported(v: Value)
    decreases v
  {
    match v
    case List(items) => forall i :: 0 <= i < |items| ==> Supported(items[i])
    case Table(_) => false
    case Other => false
    case _ => true
  }

  /** Every value that is not a table is supported, at every level. */
  ghost predicate AllSupported(rows: seq<Row>)
    decreases Size(rows)
  {
    rows == [] ||
    var last := rows[|rows|-1].value;
    AllSupported(rows[..|rows|-1]) && if last.Table? then AllSupported(last.rows) else Supported(last)
  }

  lemma {:induction false} ValueTextIff(v: Value)
    ensures ValueText(v).Some? <==> Supported(v)
    decreases v
  {
    if v.List? { ItemsTextIff(v.items); }
  }

  lemma {:induction false} ItemsTextIff(items: seq<Value>)
    ensures ItemsText(items).Some? <==> forall i :: 0 <= i < |items| ==> Supported(items[i])
    decreases items
  {
    if items != [] {
      ValueTextIff(items[0]);
      ItemsTextIff(items[1..]);
      assert forall i :: 0 < i < |items| ==> items[i] == items[1..][i-1];
    }
  }

  lemma {:induction false} AssignLinesIff(lines: Lines, rows: seq<Row>)
    requires forall i :: 0 <= i < |rows| ==> !rows[i].value.Table?
    ensures AssignLines(lines, rows).Some? <==> lines.Some? && AllSupported(rows)
    decreases |rows|
  {
    if rows != [] {
      AssignLinesIff(lines, rows[..|rows|-1]);
      ValueTextIff(rows[|rows|-1].value);
    }
  }

  lemma {:induction false} SupportedParts(rows: seq<Row>)
    ensures AllSupported(rows) <==> AllSupported(Scalars(rows)) && AllSupported(Tables(rows))
  {
    if rows != [] {
      var front, last := rows[..|rows|-1], rows[|rows|-1];
      SupportedParts(front);
      assert (Scalars(front) + [last])[..|Scalars(front)|] == Scalars(front);
      assert (Tables(front) + [last])[..|Tables(front)|] == Tables(front);
      assert Scalars(front) + [] == Scalars(front) && Tables(front) + [] == Tables(front);
    }
  }

  /** A dictionary is refused exactly when some value in it is. */
  lemma {:induction false} TableLinesIff(lines: Lines, path: seq<string>, rows: seq<Row>)
    ensures TableLines(lines, path, rows).Some? <==> lines.Some? && AllSupported(rows)
    decreases Size(rows), 1
  {
    SupportedParts(rows);
    AssignLinesIff(if path == [] then lines else Plus(lines, Some(HeaderLine(path))), Scalars(rows));
    SubLinesIff(TopLines(lines, path, Scalars(rows), Tables(rows) != []), path, Tables(rows));
  }

  lemma {:induction false} SubLinesIff(lines: Lines, path: seq<string>, tables: seq<Row>)
    requires AllTables(tables)
    ensures SubLines(lines, path, tables).Some? <==> lines.Some? && AllSupported(tables)
    decreases Size(tables), 0
  {
    if tables != [] {
      var front, last := tables[..|tables|-1], tables[|tables|-1];
      SubLinesIff(lines, path, front);
      TableLinesIff(SubLines(lines, path, front), path + [last.key], last.value.rows);
    }
  }

  lemma RefusesExactlyUnsupported(rows: seq<Row>)
    ensures Rendered(rows) == None <==> !AllSupported(rows)
  {
    TableLinesIff(Some([]), [], rows);
  }

  // ---- which characters are emitted ----

  predicate Printable(s: string) {
    forall i :: 0 <= i < |s| ==> s[i] >= ' '
  }

  /** No control characters but DEL, and that one only as told. */
  predicate Emits(t: string, del: bool) {
    Printable(t) && (DEL in t <==> del)
  }

  lemma EmitsBoth(a: string, b: string, da: bool, db: bool)
    requires Emits(a, da) && Emits(b, db)
    ensures Emits(a + b, da || db)
  {
  }

  lemma CharTextEmits(c: char)
    ensures Emits(CharText(c), c == DEL)
  {
    if c == '"' || c == '\\' || c == '\n' || c == '\t' {
    } else if c < ' ' {
      Hex4Emits(c as int);
      EmitsBoth("\\u", Hex4(c as int), false, false);
    } else {
      assert CharText(c) == [c];
    }
  }

  lemma Hex4Emits(n: nat)
    requires n < 0x20
    ensures Emits(Hex4(n), false)
  {
  }

  lemma {:induction false} StrBodyEmits(s: string)
    ensures Emits(StrBody(s), DEL in s)
  {
    if s != "" {
      var front, c := s[..|s|-1], s[|s|-1];
      StrBodyEmits(front);
      CharTextEmits(c);
      EmitsBoth(StrBody(front), CharText(c), DEL in front, c == DEL);
      assert front + [c] == s;
    }
  }

  lemma StrTextEmits(s: string)
    ensures Emits(StrText(s), DEL in s)
  {
    StrBodyEmits(s);
    EmitsBoth("\"", StrBody(s), false, DEL in s);
    EmitsBoth("\"" + StrBody(s), "\"", DEL in s, false);
  }

  lemma KeyTextEmits(k: string)
    ensures Emits(KeyText(k), DEL in k)
  {
    StrTextEmits(k);
  }

  predicate PathHasDel(p: seq<string>) {
    p != [] && (DEL in p[0] || PathHasDel(p[1..]))
  }

  lemma {:induction false} PathTextEmits(p: seq<string>)
    ensures Emits(PathText(p), PathHasDel(p))
    decreases |p|
  {
    if p != [] {
      KeyTextEmits(p[0]);
      if |p| > 1 {
        PathTextEmits(p[1..]);
        EmitsBoth(KeyText(p[0]), ".", DEL in p[0], false);
        EmitsBoth(KeyText(p[0]) + ".", PathText(p[1..]), DEL in p[0], PathHasDel(p[1..]));
      }
    }
  }

  lemma HeaderEmits(p: seq<string>)
    ensures Emits(HeaderLine(p), PathHasDel(p))
  {
    PathTextEmits(p);
    EmitsBoth("[", PathText(p), false, PathHasDel(p));
    EmitsBoth("[" + PathText(p), "]", PathHasDel(p), false);
  }

  lemma {:induction false} PathDelAppend(p: seq<string>, k: string)
    ensures PathHasDel(p + [k]) <==> PathHasDel(p) || DEL in k
  {
    if p == [] {
      assert [] + [k] == [k];
    } else {
      assert (p + [k])[1..] == p[1..] + [k];
      PathDelAppend(p[1..], k);
    }
  }

  lemma IntTextEmits(i: int)
    ensures Emits(IntText(i), false)
  {
    var n := if i < 0 then -i else i;
    NatTextIsNumber(n);
    assert Emits(NatText(n), false);
    EmitsBoth("-", NatText(n), false, false);
  }

  predicate ValueHasDel(v: Value)
    decreases v
  {
    match v
    case Str(s) => DEL in s
    case FilePath(s) => DEL in s
    case List(items) => ItemsHaveDel(items)
    case _ => false
  }

  predicate ItemsHaveDel(items: seq<Value>)
    decreases items
  {
    items != [] && (ValueHasDel(items[0]) || ItemsHaveDel(items[1..]))
  }

  lemma {:induction false} ValueTextEmits(v: Value)
    requires ValueText(v).Some?
    ensures Emits(ValueText(v).value, ValueHasDel(v))
    decreases v
  {
    match v
    case Bool(b) =>
    case Int(i) => IntTextEmits(i);
    case Str(s) => StrTextEmits(s);
    case FilePath(s) => StrTextEmits(s);
    case List(items) =>
      ItemsTextEmits(items);
      var t := ItemsText(items).value;
      EmitsBoth("[", t, false, ItemsHaveDel(items));
      EmitsBoth("[" + t, "]", ItemsHaveDel(items), false);
  }

  lemma {:induction false} ItemsTextEmits(items: seq<Value>)
    requires ItemsText(items).Some?
    ensures Emits(ItemsText(items).value, ItemsHaveDel(items))
    decreases items
  {
    if items != [] {
      ValueTextEmits(items[0]);
      if |items| > 1 {
        ItemsTextEmits(items[1..]);
        var a, b := ValueText(items[0]).value, ItemsText(items[1..]).value;
        EmitsBoth(a, ", ", ValueHasDel(items[0]), false);
        EmitsBoth(a + ", ", b, ValueHasDel(items[0]), ItemsHaveDel(items[1..]));
      }
    }
  }

  lemma AssignLineEmits(row: Row)
    requires AssignLine(row).Some?
    ensures Emits(AssignLine(row).value, DEL in row.key || ValueHasDel(row.value))
  {
    KeyTextEmits(row.key);
    ValueTextEmits(row.value);
    EmitsBoth(KeyText(row.key), " = ", DEL in row.key, false);
    EmitsBoth(KeyText(row.key) + " = ", ValueText(row.value).value, DEL in row.key, ValueHasDel(row.value));
  }

  /** Some key or string, at some level, holds a DEL. */
  ghost predicate RowsHaveDel(rows: seq<Row>)
    decreases Size(rows)
  {
    rows != [] &&
    var last := rows[|rows|-1];
    || RowsHaveDel(rows[..|rows|-1]) || DEL in last.key
    || if last.value.Table? then RowsHaveDel(last.value.rows) else ValueHasDel(last.value)
  }

  lemma {:induction false} DelInParts(rows: seq<Row>)
    ensures RowsHaveDel(rows) <==> RowsHaveDel(Scalars(rows)) || RowsHaveDel(Tables(rows))
  {
    if rows != [] {
      var front, last := rows[..|rows|-1], rows[|rows|-1];
      DelInParts(front);
      assert (Scalars(front) + [last])[..|Scalars(front)|] == Scalars(front);
      assert (Tables(front) + [last])[..|Tables(front)|] == Tables(front);
      assert Scalars(front) + [] == Scalars(front) && Tables(front) + [] == Tables(front);
    }
  }

  predicate AnyDel(ls: seq<string>) {
    exists i :: 0 <= i < |ls| && DEL in ls[i]
  }

  ghost predicate LinesEmit(lines: Lines, del: bool) {
    && lines.Some? && (forall i :: 0 <= i < |lines.value| ==> Printable(lines.value[i]))
    && (AnyDel(lines.value) <==> del)
  }

  lemma PlusEmits(lines: Lines, line: Option<string>, d: bool, e: bool)
    requires LinesEmit(lines, d) && line.Some? && Emits(line.value, e)
    ensures LinesEmit(Plus(lines, line), d || e)
  {
    var ls := lines.value + [line.value];
    assert ls[|lines.value|] == line.value;
    assert forall i :: 0 <= i < |lines.value| ==> ls[i] == lines.value[i];
  }

  lemma {:induction false} AssignLinesEmit(lines: Lines, rows: seq<Row>, d: bool)
    requires LinesEmit(lines, d) && AssignLines(lines, rows).Some?
    requires forall i :: 0 <= i < |rows| ==> !rows[i].value.Table?
    ensures LinesEmit(AssignLines(lines, rows), d || RowsHaveDel(rows))
    decreases |rows|
  {
    if rows != [] {
      var front, last := rows[..|rows|-1], rows[|rows|-1];
      AssignLinesEmit(lines, front, d);
      AssignLineEmits(last);
      PlusEmits(AssignLines(lines, front), AssignLine(last), d || RowsHaveDel(front),
                DEL in last.key || ValueHasDel(last.value));
    }
  }

  lemma TopLinesEmit(lines: Lines, path: seq<string>, scalars: seq<Row>, more: bool, d: bool)
    requires LinesEmit(lines, d) && TopLines(lines, path, scalars, more).Some?
    requires forall i :: 0 <= i < |scalars| ==> !scalars[i].value.Table?
    ensures LinesEmit(TopLines(lines, path, scalars, more), d || PathHasDel(path) || RowsHaveDel(scalars))
  {
    var headed := if path == [] then lines else Plus(lines, Some(HeaderLine(path)));
    if path != [] {
      HeaderEmits(path);
      PlusEmits(lines, Some(HeaderLine(path)), d, PathHasDel(path));
    }
    if path != [] || scalars != [] {
      AssignLinesEmit(headed, scalars, d || PathHasDel(path));
      if more {
        PlusEmits(AssignLines(headed, scalars), Some(""), d || PathHasDel(path) || RowsHaveDel(scalars), false);
      }
    }
  }

  /** A table's lines hold a DEL exactly if its path or something in it does. */
  lemma {:induction false} TableLinesEmit(lines: Lines, path: seq<string>, rows: seq<Row>, d: bool)
    requires LinesEmit(lines, d) && AllSupported(rows)
    ensures LinesEmit(TableLines(lines, path, rows), d || PathHasDel(path) || RowsHaveDel(rows))
    decreases Size(rows), 1
  {
    var scalars, tables := Scalars(rows), Tables(rows);
    var top := TopLines(lines, path, scalars, tables != []);
    DelInParts(rows);
    SupportedParts(rows);
    AssignLinesIff(if path == [] then lines else Plus(lines, Some(HeaderLine(path))), scalars);
    TopLinesEmit(lines, path, scalars, tables != [], d);
    SubLinesEmit(top, path, tables, d || PathHasDel(path) || RowsHaveDel(scalars));
  }

  lemma {:induction false} SubLinesEmit(lines: Lines, path: seq<string>, tables: seq<Row>, d: bool)
    requires LinesEmit(lines, d) && AllTables(tables) && AllSupported(tables) && (PathHasDel(path) ==> d)
    ensures LinesEmit(SubLines(lines, path, tables), d || RowsHaveDel(tables))
    decreases Size(tables), 0
  {
    if tables != [] {
      var front, last := tables[..|tables|-1], tables[|tables|-1];
      var p := path + [last.key];
      SubLinesEmit(lines, path, front, d);
      PathDelAppend(path, last.key);
      TableLinesEmit(SubLines(lines, path, front), p, last.value.rows, d || RowsHaveDel(front));
      PlusEmits(TableLines(SubLines(lines, path, front), p, last.value.rows), Some(""),
                d || RowsHaveDel(front) || PathHasDel(p) || RowsHaveDel(last.value.rows), false);
    }
  }

  /** No emitted line holds a newline, or any control character but DEL. */
  lemma LinesAreLines(rows: seq<Row>, i: nat, j: nat)
    requires TableLines(Some([]), [], rows).Some?
    requires i < |TableLines(Some([]), [], rows).value| && j < |TableLines(Some([]), [], rows).value[i]|
    ensures TableLines(Some([]), [], rows).value[i][j] >= ' '
  {
    TableLinesIff(Some([]), [], rows);
    TableLinesEmit(Some([]), [], rows, false);
  }
}

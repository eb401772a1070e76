/** The meaning of a rendered document: its lines build the same nested map
    as the dictionary, whatever its keys and strings. */
module TomlDocument {
  import opened Wrappers
  import opened TomlWriter
  import opened TomlReader
  import opened TomlRoundTrip
  import opened TomlChars

  // ---- dictionaries and the maps they denote ----

  ghost function KeySet(rows: seq<Row>): set<string> {
    if rows == [] then {} else KeySet(rows[..|rows|-1]) + {rows[|rows|-1].key}
  }

  /** The keys of a dictionary are distinct, at every level. */
  ghost predicate IsDict(rows: seq<Row>)
    decreases Size(rows)
  {
    rows == [] ||
    var last := rows[|rows|-1];
    && IsDict(rows[..|rows|-1]) && last.key !in KeySet(rows[..|rows|-1])
    && (last.value.Table? ==> IsDict(last.value.rows))
  }

  ghost function NodeOf(v: Value): Node
    decreases if v.Table? then Size(v.rows) else 0, 1
  {
    if v.Table? then Branch(TreeOf(v.rows)) else Leaf(Plain(v))
  }

  ghost function TreeOf(rows: seq<Row>): (t: Tree)
    ensures t.Keys == KeySet(rows)
    decreases Size(rows), 0
  {
    if rows == [] then map[]
    else TreeOf(rows[..|rows|-1])[rows[|rows|-1].key := NodeOf(rows[|rows|-1].value)]
  }

  lemma AddRow(front: seq<Row>, last: Row)
    ensures KeySet(front + [last]) == KeySet(front) + {last.key}
    ensures TreeOf(front + [last]) == TreeOf(front)[last.key := NodeOf(last.value)]
    ensures IsDict(front + [last]) <==> IsDict(front) && last.key !in KeySet(front)
                                        && (last.value.Table? ==> IsDict(last.value.rows))
  {
  }

  /** A dictionary is its scalars and its tables together. */
  ghost predicate IsSplit(rows: seq<Row>, scalars: seq<Row>, tables: seq<Row>) {
    && IsDict(scalars) && IsDict(tables)
    && KeySet(scalars) + KeySet(tables) == KeySet(rows) && KeySet(scalars) !! KeySet(tables)
    && TreeOf(rows) == TreeOf(scalars) + TreeOf(tables)
  }

  lemma SplitScalar(front: seq<Row>, scalars: seq<Row>, tables: seq<Row>, last: Row)
    requires IsSplit(front, scalars, tables) && IsDict(front + [last]) && !last.value.Table?
    ensures IsSplit(front + [last], scalars + [last], tables)
  {
  }

  lemma SplitTable(front: seq<Row>, scalars: seq<Row>, tables: seq<Row>, last: Row)
    requires IsSplit(front, scalars, tables) && IsDict(front + [last]) && last.value.Table?
    ensures IsSplit(front + [last], scalars, tables + [last])
  {
    AddRow(front, last);
    AddRow(tables, last);
    MergeLast(TreeOf(scalars), TreeOf(tables), last.key, NodeOf(last.value));
  }

  lemma {:induction false} PartsOfDict(rows: seq<Row>)
    requires IsDict(rows)
    ensures IsSplit(rows, Scalars(rows), Tables(rows))
  {
    if rows == [] {
      assert map[] + TreeOf([]) == TreeOf([]);
    } else {
      var front, last := rows[..|rows|-1], rows[|rows|-1];
      assert front + [last] == rows;
      PartsOfDict(front);
      if last.value.Table? {
        SplitTable(front, Scalars(front), Tables(front), last);
        assert Scalars(front) + [] == Scalars(front);
      } else {
        SplitScalar(front, Scalars(front), Tables(front), last);
        assert Tables(front) + [] == Tables(front);
      }
    }
  }

  // ---- setting a table inside a tree ----

  ghost function Kids(root: Tree, k: string): Tree {
    if k in root && root[k].Branch? then root[k].kids else map[]
  }

  /** The tree with the table at a path replaced. */
  ghost function SetTable(root: Tree, path: seq<string>, m: Tree): Tree
    decreases |path|
  {
    if path == [] then m else root[path[0] := Branch(SetTable(Kids(root, path[0]), path[1..], m))]
  }

  lemma SetAgain(root: Tree, k: string, x: Node, y: Node)
    ensures root[k := x][k := y] == root[k := y]
  {
  }

  lemma {:induction false} InsertAt(root: Tree, path: seq<string>, m: Tree, k: string, node: Node)
    requires k !in m
    ensures Insert(SetTable(root, path, m), path + [k], node) == Some(SetTable(root, path, m[k := node]))
    decreases |path|
  {
    if path != [] {
      assert (path + [k])[1..] == path[1..] + [k];
      var kids := Kids(root, path[0]);
      InsertAt(kids, path[1..], m, k, node);
      SetAgain(root, path[0], Branch(SetTable(kids, path[1..], m)), Branch(SetTable(kids, path[1..], m[k := node])));
    } else {
      assert path + [k] == [k];
    }
  }

  lemma {:induction false} SetInside(root: Tree, path: seq<string>, m: Tree, k: string, inner: Tree)
    ensures SetTable(SetTable(root, path, m), path + [k], inner) == SetTable(root, path, m[k := Branch(inner)])
    decreases |path|
  {
    if path != [] {
      assert (path + [k])[1..] == path[1..] + [k];
      SetInside(Kids(root, path[0]), path[1..], m, k, inner);
    } else {
      assert [k][1..] == [];
    }
  }

  // ---- running the lines ----

  ghost function Runs(lines: Lines): Option<State> {
    if lines == None then None else Run(lines.value)
  }

  lemma RunPlus(lines: Lines, line: Option<string>)
    requires Plus(lines, line).Some?
    ensures lines.Some? && Runs(Plus(lines, line)) == Step(Runs(lines), line.value)
  {
  }

  /** Pairs go into the current table. */
  lemma {:induction false} RunAssigns(lines: Lines, rows: seq<Row>, root: Tree, path: seq<string>)
    requires Runs(lines) == Some(State(SetTable(root, path, map[]), path))
    requires IsDict(rows) && AssignLines(lines, rows).Some?
    requires forall i :: 0 <= i < |rows| ==> !rows[i].value.Table?
    ensures Runs(AssignLines(lines, rows)) == Some(State(SetTable(root, path, TreeOf(rows)), path))
    decreases |rows|
  {
    if rows != [] {
      var front, last := rows[..|rows|-1], rows[|rows|-1];
      RunPlus(AssignLines(lines, front), AssignLine(last));
      RunAssigns(lines, front, root, path);
      ReadAssignLine(last);
      InsertAt(root, path, TreeOf(front), last.key, Leaf(Plain(last.value)));
    }
  }

  /** A header opens an empty table. */
  lemma RunHeader(lines: Lines, root: Tree, path: seq<string>, m: Tree, k: string, current: seq<string>)
    requires Runs(lines) == Some(State(SetTable(root, path, m), current)) && k !in m
    ensures Runs(Plus(lines, Some(HeaderLine(path + [k]))))
         == Some(State(SetTable(SetTable(root, path, m), path + [k], map[]), path + [k]))
  {
    RunPlus(lines, Some(HeaderLine(path + [k])));
    ReadHeaderLine(path + [k]);
    InsertAt(root, path, m, k, Branch(map[]));
    SetInside(root, path, m, k, map[]);
  }

  lemma RunBlank(lines: Lines)
    requires lines.Some?
    ensures Runs(Plus(lines, Some(""))) == Runs(lines)
  {
  }

  /** A table's own lines, its header already read or none needed. */
  lemma RunPairs(headed: Lines, scalars: seq<Row>, more: bool, root: Tree, path: seq<string>)
    requires Runs(headed) == Some(State(SetTable(root, path, map[]), path))
    requires IsDict(scalars) && AssignLines(headed, scalars).Some?
    requires forall i :: 0 <= i < |scalars| ==> !scalars[i].value.Table?
    ensures var top := AssignLines(headed, scalars);
            && Runs(top) == Some(State(SetTable(root, path, TreeOf(scalars)), path))
            && Runs(Plus(top, Some(""))) == Runs(top)
  {
    RunAssigns(headed, scalars, root, path);
    RunBlank(AssignLines(headed, scalars));
  }

  /** A whole sub-table becomes one entry of the table it is in. */
  lemma {:induction false} RunTable(lines: Lines, root: Tree, path: seq<string>, m: Tree, k: string, rows: seq<Row>,
                                    current: seq<string>)
    returns (last: seq<string>)
    requires Runs(lines) == Some(State(SetTable(root, path, m), current)) && k !in m
    requires IsDict(rows) && TableLines(lines, path + [k], rows).Some?
    ensures Runs(TableLines(lines, path + [k], rows))
         == Some(State(SetTable(root, path, m[k := Branch(TreeOf(rows))]), last))
    decreases Size(rows), 1
  {
    var p, root' := path + [k], SetTable(root, path, m);
    var scalars, tables := Scalars(rows), Tables(rows);
    var headed := Plus(lines, Some(HeaderLine(p)));
    var top := TopLines(lines, p, scalars, tables != []);
    RunHeader(lines, root, path, m, k, current);
    PartsOfDict(rows);
    if top == None { NoneStays(p, tables); }
    RunPairs(headed, scalars, tables != [], root', p);
    last := RunSubs(top, root', p, TreeOf(scalars), tables, p);
    SetInside(root, path, m, k, TreeOf(rows));
  }

  lemma {:induction false} RunSubs(lines: Lines, root: Tree, path: seq<string>, m: Tree, tables: seq<Row>,
                                   current: seq<string>)
    returns (last: seq<string>)
    requires Runs(lines) == Some(State(SetTable(root, path, m), current))
    requires AllTables(tables) && IsDict(tables) && KeySet(tables) !! m.Keys
    requires SubLines(lines, path, tables).Some?
    ensures Runs(SubLines(lines, path, tables)) == Some(State(SetTable(root, path, m + TreeOf(tables)), last))
    decreases Size(tables), 0
  {
    if tables == [] {
      assert m + map[] == m;
      last := current;
    } else {
      var front, row := tables[..|tables|-1], tables[|tables|-1];
      var before := SubLines(lines, path, front);
      if before == None { NoTable(path + [row.key], row.value.rows); }
      var mid := RunSubs(lines, root, path, m, front, current);
      last := RunSub(before, root, path, m, front, row, mid);
    }
  }

  /** The last sub-table and the blank after it. */
  lemma {:induction false} RunSub(before: Lines, root: Tree, path: seq<string>, m: Tree, front: seq<Row>, row: Row,
                                  current: seq<string>)
    returns (last: seq<string>)
    requires Runs(before) == Some(State(SetTable(root, path, m + TreeOf(front)), current))
    requires row.value.Table? && IsDict(row.value.rows) && row.key !in KeySet(front) && row.key !in m
    requires TableLines(before, path + [row.key], row.value.rows).Some?
    ensures Runs(Plus(TableLines(before, path + [row.key], row.value.rows), Some("")))
         == Some(State(SetTable(root, path, m + TreeOf(front)[row.key := NodeOf(row.value)]), last))
    decreases Size(row.value.rows), 2
  {
    ghost var t := TableLines(before, path + [row.key], row.value.rows);
    last := RunTable(before, root, path, m + TreeOf(front), row.key, row.value.rows, current);
    RunBlank(t);
    MergeLast(m, TreeOf(front), row.key, NodeOf(row.value));
  }

  lemma MergeLast(m: Tree, front: Tree, k: string, node: Node)
    ensures m + front[k := node] == (m + front)[k := node]
  {
  }

  /** All lines of a document build the dictionary's tree. */
  lemma RunDocument(rows: seq<Row>) returns (last: seq<string>)
    requires IsDict(rows) && TableLines(Some([]), [], rows).Some?
    ensures Runs(TableLines(Some([]), [], rows)) == Some(State(TreeOf(rows), last))
  {
    var scalars, tables := Scalars(rows), Tables(rows);
    var top := TopLines(Some([]), [], scalars, tables != []);
    PartsOfDict(rows);
    if top == None { NoneStays([], tables); }
    RunPairs(Some([]), scalars, tables != [], map[], []);
    last := RunSubs(top, map[], [], TreeOf(scalars), tables, []);
  }

  // ---- the text of a document ----

  lemma {:induction false} LineOf(l: string, rest: string)
    requires Printable(l)
    ensures LineLength(l + "\n" + rest) == |l|
    decreases |l|
  {
    if l != "" {
      assert Printable(l[1..]);
      assert (l + "\n" + rest)[1..] == l[1..] + "\n" + rest;
      LineOf(l[1..], rest);
    }
  }

  lemma FirstLine(l: string, rest: string)
    requires Printable(l) && SplitLines(rest).Some?
    ensures SplitLines(l + "\n" + rest) == Some([l] + SplitLines(rest).value)
  {
    var s := l + "\n" + rest;
    LineOf(l, rest);
    assert s[..|l|] == l && s[|l|+1..] == rest;
  }

  /** Splitting undoes joining. */
  lemma {:induction false} LinesOfUnlines(ls: seq<string>)
    requires ls != [] && forall i :: 0 <= i < |ls| ==> Printable(ls[i])
    ensures SplitLines(Unlines(ls)) == Some(ls)
    decreases |ls|
  {
    if |ls| == 1 {
      FirstLine(ls[0], "");
      assert ls[0] + "\n" + "" == ls[0] + "\n" && [ls[0]] + [] == ls;
    } else {
      LinesOfUnlines(ls[1..]);
      FirstLine(ls[0], Unlines(ls[1..]));
      assert [ls[0]] + ls[1..] == ls;
    }
  }

  /** Dropping trailing blank lines changes no meaning. */
  lemma {:induction false} RunTrimmed(ls: seq<string>)
    requires Run(ls).Some?
    ensures Run(Trimmed(ls)) == Run(ls)
    ensures AnyDel(Trimmed(ls)) <==> AnyDel(ls)
    decreases |ls|
  {
    if ls != [] && ls[|ls|-1] == "" {
      var front := ls[..|ls|-1];
      RunTrimmed(front);
      assert AnyDel(ls) <==> AnyDel(front) by {
        assert forall i :: 0 <= i < |front| ==> front[i] == ls[i];
      }
    }
  }

  lemma {:induction false} UnlinesEmits(ls: seq<string>)
    requires forall i :: 0 <= i < |ls| ==> Printable(ls[i])
    ensures DEL in Unlines(ls) <==> AnyDel(ls)
    ensures forall i :: 0 <= i < |Unlines(ls)| ==> Unlines(ls)[i] >= ' ' || Unlines(ls)[i] == '\n'
    decreases |ls|
  {
    if |ls| == 1 {
      assert DEL in ls[0] + "\n" <==> DEL in ls[0];
    } else if |ls| > 1 {
      UnlinesEmits(ls[1..]);
      var head := ls[0] + "\n";
      assert AnyDel(ls) <==> DEL in ls[0] || AnyDel(ls[1..]) by { AnyDelFront(ls); }
      assert DEL in head <==> DEL in ls[0];
      assert DEL in head + Unlines(ls[1..]) <==> DEL in head || DEL in Unlines(ls[1..]);
    }
  }

  lemma AnyDelFront(ls: seq<string>)
    requires ls != []
    ensures AnyDel(ls) <==> DEL in ls[0] || AnyDel(ls[1..])
  {
  }

  /** The document's characters are allowed exactly if there is no DEL. */
  lemma AllowedIff(ls: seq<string>)
    requires forall i :: 0 <= i < |ls| ==> Printable(ls[i])
    ensures HasForbidden(Unlines(ls)) <==> AnyDel(ls)
  {
    UnlinesEmits(ls);
    var t := Unlines(ls);
    if DEL in t {
      var i :| 0 <= i < |t| && t[i] == DEL;
      assert !IsAllowed(t[i]);
    }
  }

  lemma EmptyLine()
    ensures SplitLines("\n") == Some([""])
  {
    FirstLine("", "");
    assert "" + "\n" + "" == "\n" && [""] + SplitLines("").value == [""];
  }

  lemma OneBlank()
    ensures Run([""]) == Run([])
  {
  }

  lemma MeaningOfUnlines(ls: seq<string>)
    requires Run(ls).Some? && forall i :: 0 <= i < |ls| ==> Printable(ls[i])
    ensures Meaning(SplitLines(Unlines(ls))) == Some(Run(ls).value.root)
  {
    if ls == [] {
      EmptyLine();
      OneBlank();
    } else {
      LinesOfUnlines(ls);
    }
  }

  lemma ParseUnlines(ls: seq<string>)
    requires Run(ls).Some? && forall i :: 0 <= i < |ls| ==> Printable(ls[i])
    ensures Parse(Unlines(ls)) == if AnyDel(ls) then None else Some(Run(ls).value.root)
  {
    AllowedIff(ls);
    MeaningOfUnlines(ls);
  }

  /** Reading a rendered dictionary gives back the dictionary, nested as it
      was, unless it holds a DEL character, which the writer leaves raw and
      TOML forbids; then the document is refused. */
  lemma ParseRendered(rows: seq<Row>)
    requires IsDict(rows) && AllSupported(rows)
    ensures Rendered(rows).Some?
    ensures Parse(Rendered(rows).value) == if RowsHaveDel(rows) then None else Some(TreeOf(rows))
  {
    TableLinesIff(Some([]), [], rows);
    TableLinesEmit(Some([]), [], rows, false);
    var last := RunDocument(rows);
    var all := TableLines(Some([]), [], rows).value;
    RunTrimmed(all);
    ParseUnlines(Trimmed(all));
  }

  /** The reader gives the dictionary back exactly when no key and no string
      holds a DEL. */
  lemma RoundTripsIff(rows: seq<Row>)
    requires IsDict(rows) && AllSupported(rows)
    ensures (match Rendered(rows) case None => false case Some(text) => Parse(text) == Some(TreeOf(rows)))
            <==> !RowsHaveDel(rows)
  {
    ParseRendered(rows);
  }
}

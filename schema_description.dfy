/**
 * The schema description handed to the translation prompt: one line
 * `table: c1, c2, ...` per table, in `list_tables` order, joined by newlines.
 * The column names come in the order `describe_table` returns them; their
 * declared types are dropped. Both catalog queries become a parameter: the
 * list of tables, each with the rows `describe_table` returned for it.
 */
module SchemaText {
  import opened Text
  import opened Introspection

  /** A table name and its `(column_name, data_type)` catalog rows. */
  type Table = (string, seq<Column>)

  const NameSeparator: string := ": "
  const ColumnSeparator: string := ", "
  const LineSeparator: string := "\n"

  /** `f"{t}: {', '.join(c for c, _ in describe_table(t))}"` */
  function SchemaLine(t: Table): string {
    t.0 + NameSeparator + Join(ColumnNames(t.1), ColumnSeparator)
  }

  function SchemaLines(tables: seq<Table>): seq<string> {
    seq(|tables|, i requires 0 <= i < |tables| => SchemaLine(tables[i]))
  }

  /** `schema_desc`: the table lines joined by "\n". */
  function SchemaDescription(tables: seq<Table>): string {
    Join(SchemaLines(tables), LineSeparator)
  }

  // ---------------------------------------------------------------------
  // Reading a description back
  // ---------------------------------------------------------------------

  /** The split pieces of a column list, with the blank after each comma removed. */
  function ColumnsOfPieces(pieces: seq<string>): seq<string> {
    seq(|pieces|, i requires 0 <= i < |pieces| => if i == 0 then pieces[0] else RemovePrefix(pieces[i], " "))
  }

  /** A line read back as its table name (up to the first ':') and its column names. */
  function ParseLine(line: string): (string, seq<string>) {
    var i := FirstIndex(line, ':');
    var rest := if i + 2 <= |line| then line[i + 2..] else "";
    (line[..i], if rest == "" then [] else ColumnsOfPieces(SplitOn(rest, ',')))
  }

  /** A description read back line by line. */
  function ParseSchema(desc: string): seq<(string, seq<string>)> {
    if desc == "" then []
    else
      var lines := SplitOn(desc, '\n');
      seq(|lines|, i requires 0 <= i < |lines| => ParseLine(lines[i]))
  }

  /** What the description is meant to convey: each table's name and column names, in order. */
  function Outline(tables: seq<Table>): seq<(string, seq<string>)> {
    seq(|tables|, i requires 0 <= i < |tables| => (tables[i].0, ColumnNames(tables[i].1)))
  }

  /** Names the description can carry unambiguously: no separator characters, no empty column name. */
  predicate PlainNames(tables: seq<Table>) {
    forall i :: 0 <= i < |tables| ==>
      ':' !in tables[i].0 && '\n' !in tables[i].0
      && forall j :: 0 <= j < |tables[i].1| ==>
           tables[i].1[j].0 != "" && ',' !in tables[i].1[j].0 && '\n' !in tables[i].1[j].0
  }

  /** A line gives back its table name and column names, in the order `describe_table` returned them. */
  lemma ParseSchemaLine(t: Table)
    requires PlainNames([t])
    ensures ParseLine(SchemaLine(t)) == (t.0, ColumnNames(t.1))
  {
    assert [t][0] == t;
    var names := ColumnNames(t.1);
    var list := Join(names, ColumnSeparator);
    var line := SchemaLine(t);
    assert line == t.0 + (NameSeparator + list);
    FirstIndexAfter(t.0, NameSeparator + list, ':');
    var i := |t.0|;
    assert line[..i] == t.0;
    assert line[i + 2..] == list;
    if |names| > 0 {
      assert names[0] != "";
      assert list != "";
      ParseColumnList(names);
    }
  }

  /** A nonempty list of comma-free column names reads back from its join. */
  lemma ParseColumnList(names: seq<string>)
    requires |names| > 0
    requires forall j :: 0 <= j < |names| ==> ',' !in names[j]
    ensures ColumnsOfPieces(SplitOn(Join(names, ColumnSeparator), ',')) == names
  {
    assert ColumnSeparator == [','] + " ";
    SplitJoin(names, ',', " ");
    var pieces := SplitOn(Join(names, ColumnSeparator), ',');
    assert pieces == SplitPieces(names, " ");
    var back := ColumnsOfPieces(pieces);
    forall k | 0 <= k < |names|
      ensures back[k] == names[k]
    {
      if k > 0 {
        RemovePrefixOf(" ", names[k]);
      }
    }
  }

  /** A line of plain names holds no newline and reads back as its table. */
  lemma PlainLine(t: Table)
    requires PlainNames([t])
    ensures '\n' !in SchemaLine(t) && ParseLine(SchemaLine(t)) == (t.0, ColumnNames(t.1))
  {
    assert [t][0] == t;
    var names := ColumnNames(t.1);
    assert forall j :: 0 <= j < |names| ==> '\n' !in names[j];
    JoinAbsent(names, ColumnSeparator, '\n');
    ParseSchemaLine(t);
  }

  /**
   * The description gives back one entry per table in `list_tables` order,
   * each with the table name and its column names in the order
   * `describe_table` returned them and no types, whenever the names
   * themselves contain no separator.
   */
  lemma SchemaDescriptionRoundTrip(tables: seq<Table>)
    requires PlainNames(tables)
    ensures ParseSchema(SchemaDescription(tables)) == Outline(tables)
  {
    var lines := SchemaLines(tables);
    if |tables| > 0 {
      forall i | 0 <= i < |tables| ensures '\n' !in lines[i] && ParseLine(lines[i]) == Outline(tables)[i] {
        assert PlainNames([tables[i]]);
        PlainLine(tables[i]);
      }
      SplitDescription(tables);
    }
  }

  /** A description of at least one table whose lines hold no newline splits back into its lines. */
  lemma SplitDescription(tables: seq<Table>)
    requires |tables| > 0
    requires forall i :: 0 <= i < |tables| ==> '\n' !in SchemaLines(tables)[i]
    ensures SchemaDescription(tables) != ""
    ensures SplitOn(SchemaDescription(tables), '\n') == SchemaLines(tables)
  {
    var lines := SchemaLines(tables);
    var desc := SchemaDescription(tables);
    assert StartsWith(desc, lines[0]);
    assert |lines[0]| >= 2;
    assert LineSeparator == ['\n'];
    SplitJoinSingle(lines, '\n');
  }
}

/** The all-strings table of `json_table` in `src/structured_views.rs`, against a
    reader for RFC 4180 (section 2), which also takes a bare LF as a line break. */
module CsvTable {
  import opened Text

  // ----- writer

  predicate NeedsQuotes(cell: string) {
    cell == "" || exists i :: 0 <= i < |cell| && cell[i] in {',', '"', '\r', '\n'}
  }

  function DoubleQuotes(s: string): string {
    if s == "" then "" else (if s[0] == '"' then "\"\"" else [s[0]]) + DoubleQuotes(s[1..])
  }

  /** `csv_cell`. */
  function Cell(cell: string): string {
    if NeedsQuotes(cell) then "\"" + DoubleQuotes(cell) + "\"" else cell
  }

  /** Cells joined by commas. */
  function Line(cells: seq<string>): string
    requires cells != []
  {
    if |cells| == 1 then Cell(cells[0]) else Cell(cells[0]) + "," + Line(cells[1..])
  }

  function Body(rows: seq<seq<string>>): string
    requires forall i :: 0 <= i < |rows| ==> rows[i] != []
  {
    if rows == [] then "" else Line(rows[0]) + "\n" + Body(rows[1..])
  }

  function FirstLine(count: nat): string {
    "CSV strings[" + Decimal(count) + "]"
  }

  // ----- reader

  /** Rest of a quoted field after its opening quote. */
  function ReadQuoted(s: string): (r: Option<(string, string)>)
    ensures r.Some? ==> |r.value.1| < |s|
  {
    if s == "" then None
    else if s[0] != '"' then
      match ReadQuoted(s[1..])
      case None => None
      case Some((cell, rest)) => Some(([s[0]] + cell, rest))
    else if |s| > 1 && s[1] == '"' then
      match ReadQuoted(s[2..])
      case None => None
      case Some((cell, rest)) => Some((['"'] + cell, rest))
    else Some(("", s[1..]))
  }

  predicate IsTextData(c: char) {
    c != ',' && c != '"' && c != '\r' && c != '\n'
  }

  function ReadBare(s: string): (r: (string, string))
    ensures |r.1| <= |s|
  {
    if s == "" || !IsTextData(s[0]) then ("", s)
    else
      var (cell, rest) := ReadBare(s[1..]);
      ([s[0]] + cell, rest)
  }

  function ReadField(s: string): (r: Option<(string, string)>)
    ensures r.Some? ==> |r.value.1| <= |s|
  {
    if s != "" && s[0] == '"' then ReadQuoted(s[1..]) else Some(ReadBare(s))
  }

  /** One record and the text after its line break. */
  function ReadRecord(s: string): (r: Option<(seq<string>, string)>)
    ensures r.Some? ==> |r.value.1| <= |s| && (s != "" ==> |r.value.1| < |s|)
    decreases |s|
  {
    match ReadField(s)
    case None => None
    case Some((cell, rest)) =>
      if rest == "" then Some(([cell], ""))
      else if "\n" <= rest then Some(([cell], rest[1..]))
      else if "\r\n" <= rest then Some(([cell], rest[2..]))
      else if "," <= rest then
        match ReadRecord(rest[1..])
        case None => None
        case Some((cells, after)) => Some(([cell] + cells, after))
      else None
  }

  function ReadTable(s: string): Option<seq<seq<string>>>
    decreases |s|
  {
    if s == "" then Some([])
    else
      match ReadRecord(s)
      case None => None
      case Some((cells, rest)) =>
        match ReadTable(rest)
        case None => None
        case Some(rows) => Some([cells] + rows)
  }

  // ----- round trip

  lemma {:induction false} QuotedReads(cell: string, rest: string)
    requires rest == "" || rest[0] != '"'
    ensures ReadQuoted(DoubleQuotes(cell) + "\"" + rest) == Some((cell, rest))
  {
    if cell == "" {
      assert DoubleQuotes(cell) + "\"" + rest == "\"" + rest;
      assert ("\"" + rest)[1..] == rest;
    } else {
      var more := DoubleQuotes(cell[1..]) + "\"" + rest;
      QuotedReads(cell[1..], rest);
      QuotedHead(cell, rest);
      assert [cell[0]] + cell[1..] == cell;
      if cell[0] == '"' {
        assert ("\"\"" + more)[2..] == more;
      } else {
        assert ([cell[0]] + more)[1..] == more;
      }
    }
  }

  lemma QuotedHead(cell: string, rest: string)
    requires cell != ""
    ensures DoubleQuotes(cell) + "\"" + rest
            == (if cell[0] == '"' then "\"\"" else [cell[0]]) + (DoubleQuotes(cell[1..]) + "\"" + rest)
  {
  }

  lemma {:induction false} BareReads(cell: string, rest: string)
    requires forall i :: 0 <= i < |cell| ==> IsTextData(cell[i])
    requires rest == "" || !IsTextData(rest[0])
    ensures ReadBare(cell + rest) == (cell, rest)
  {
    if cell == "" {
      assert cell + rest == rest;
    } else {
      BareReads(cell[1..], rest);
      assert (cell + rest)[1..] == cell[1..] + rest;
      assert [cell[0]] + cell[1..] == cell;
    }
  }

  lemma FieldReads(cell: string, rest: string)
    requires rest == "" || rest[0] == ',' || rest[0] == '\n'
    ensures ReadField(Cell(cell) + rest) == Some((cell, rest))
  {
    if NeedsQuotes(cell) {
      QuotedReads(cell, rest);
      QuotedField(DoubleQuotes(cell) + "\"" + rest);
      Regroup("\"", DoubleQuotes(cell), "\"", rest);
    } else {
      BareReads(cell, rest);
      BareField(cell, rest);
    }
  }

  lemma BareField(cell: string, rest: string)
    requires cell != "" && IsTextData(cell[0])
    ensures ReadField(cell + rest) == Some(ReadBare(cell + rest))
  {
    assert (cell + rest)[0] == cell[0];
  }

  /** A cell is quoted exactly where the reader would not take it as it is. */
  lemma QuotedIfNeeded(cell: string)
    ensures Cell(cell) == cell <==> cell != "" && ReadBare(cell) == (cell, "")
  {
    QuotesAreNew(cell);
    if !NeedsQuotes(cell) {
      BareReads(cell, "");
      assert cell + "" == cell;
    } else if cell != "" && ReadBare(cell) == (cell, "") {
      BareIsText(cell);
    }
  }

  lemma {:induction false} DoublingKeeps(s: string)
    ensures |DoubleQuotes(s)| >= |s|
  {
    if s != "" {
      DoublingKeeps(s[1..]);
    }
  }

  lemma QuotesAreNew(cell: string)
    ensures NeedsQuotes(cell) ==> |Cell(cell)| > |cell|
  {
    DoublingKeeps(cell);
  }

  lemma {:induction false} BareIsText(s: string)
    ensures forall i :: 0 <= i < |ReadBare(s).0| ==> IsTextData(ReadBare(s).0[i])
  {
    if s != "" {
      BareIsText(s[1..]);
    }
  }

  lemma QuotedField(body: string)
    ensures ReadField("\"" + body) == ReadQuoted(body)
  {
    assert ("\"" + body)[1..] == body;
  }

  lemma {:induction false} RecordReads(cells: seq<string>, rest: string)
    requires cells != []
    ensures ReadRecord(Line(cells) + ("\n" + rest)) == Some((cells, rest))
    decreases |cells|
  {
    var end := "\n" + rest;
    if |cells| == 1 {
      FieldReads(cells[0], end);
      LastCell(Line(cells) + end, cells[0], rest);
      assert cells == [cells[0]];
    } else {
      var more := Line(cells[1..]) + end;
      FieldReads(cells[0], "," + more);
      RecordReads(cells[1..], rest);
      LineHead(cells, end);
      NextCell(Line(cells) + end, cells[0], more, cells[1..], rest);
      assert [cells[0]] + cells[1..] == cells;
    }
  }

  lemma LastCell(s: string, cell: string, rest: string)
    requires ReadField(s) == Some((cell, "\n" + rest))
    ensures ReadRecord(s) == Some(([cell], rest))
  {
    assert ("\n" + rest)[1..] == rest;
  }

  lemma NextCell(s: string, cell: string, more: string, cells: seq<string>, after: string)
    requires ReadField(s) == Some((cell, "," + more)) && ReadRecord(more) == Some((cells, after))
    ensures ReadRecord(s) == Some(([cell] + cells, after))
  {
    assert ("," + more)[1..] == more && ("," + more)[0] == ',';
  }

  lemma LineHead(cells: seq<string>, end: string)
    requires |cells| > 1
    ensures Line(cells) + end == Cell(cells[0]) + ("," + (Line(cells[1..]) + end))
  {
    Regroup(Cell(cells[0]), ",", Line(cells[1..]), end);
  }

  /** The reader recovers every header and cell, in row and column order. */
  lemma {:induction false} TableReads(rows: seq<seq<string>>)
    requires forall i :: 0 <= i < |rows| ==> rows[i] != []
    ensures ReadTable(Body(rows)) == Some(rows)
  {
    if rows != [] {
      RecordReads(rows[0], Body(rows[1..]));
      ConcatAssoc(Line(rows[0]), "\n", Body(rows[1..]));
      TableReads(rows[1..]);
      assert [rows[0]] + rows[1..] == rows;
    }
  }

  // ----- the table of a JSON array

  /** A JSON value: a string, or the text of anything else. */
  datatype Value = Text(text: string) | Other(json: string)

  type Object = map<string, Value>

  /** The cells of one object, in column order. */
  function CellsOf(item: Object, columns: seq<string>): (cells: seq<Value>)
    requires forall k :: 0 <= k < |columns| ==> columns[k] in item
    ensures |cells| == |columns| && forall k :: 0 <= k < |columns| ==> cells[k] == item[columns[k]]
  {
    if columns == [] then [] else [item[columns[0]]] + CellsOf(item, columns[1..])
  }

  predicate Uniform(item: Object, columns: seq<string>) {
    |item| == |columns| && forall k :: 0 <= k < |columns| ==> columns[k] in item
  }

  predicate IsTable(items: seq<Object>, columns: seq<string>) {
    |items| >= 5 && columns != [] && forall i :: 0 <= i < |items| ==> Uniform(items[i], columns)
  }

  /** The cells of all rows, header first. */
  function RowsOf(items: seq<Object>, columns: seq<string>): (rows: seq<seq<Value>>)
    requires columns != [] && forall i :: 0 <= i < |items| ==> Uniform(items[i], columns)
    ensures |rows| == |items|
    ensures forall i :: 0 <= i < |rows| ==>
              Uniform(items[i], columns) && rows[i] == CellsOf(items[i], columns) && rows[i] != []
  {
    if items == [] then []
    else
      assert Uniform(items[0], columns);
      [CellsOf(items[0], columns)] + RowsOf(items[1..], columns)
  }

  predicate AllText(cells: seq<Value>) {
    forall k :: 0 <= k < |cells| ==> cells[k].Text?
  }

  predicate AllTextRows(rows: seq<seq<Value>>) {
    forall i :: 0 <= i < |rows| ==> AllText(rows[i])
  }

  function Texts(cells: seq<Value>): (texts: seq<string>)
    requires AllText(cells)
    ensures |texts| == |cells| && forall k :: 0 <= k < |cells| ==> texts[k] == cells[k].text
  {
    if cells == [] then [] else [cells[0].text] + Texts(cells[1..])
  }

  function TextRows(rows: seq<seq<Value>>): (texts: seq<seq<string>>)
    requires AllTextRows(rows)
    ensures |texts| == |rows| && forall i :: 0 <= i < |rows| ==> texts[i] == Texts(rows[i])
  {
    if rows == [] then []
    else
      assert AllText(rows[0]);
      assert forall i :: 0 <= i < |rows[1..]| ==> rows[1..][i] == rows[i + 1];
      [Texts(rows[0])] + TextRows(rows[1..])
  }

  /** The table of any cells, or the CSV of string cells. */
  datatype View = Typed(columns: seq<string>, rows: seq<seq<Value>>) | Csv(text: string)

  function CsvOf(columns: seq<string>, rows: seq<seq<Value>>): string
    requires columns != [] && AllTextRows(rows) && forall i :: 0 <= i < |rows| ==> rows[i] != []
  {
    FirstLine(|rows|) + "\n" + Body([columns] + TextRows(rows))
  }

  /** `json_table`; `columns` are the keys of the first object in their order, and
      `pays` says whether the CSV saves tokens against the typed table. */
  method JsonTable(items: seq<Object>, columns: seq<string>, pays: string -> bool) returns (view: Option<View>)
    ensures view.Some? <==> IsTable(items, columns)
    ensures view.Some? ==>
              var rows := RowsOf(items, columns);
              view.value == if AllTextRows(rows) && pays(CsvOf(columns, rows)) then Csv(CsvOf(columns, rows))
                            else Typed(columns, rows)
    ensures view.Some? && Distinct(columns) ==>
              Holds(view.value, items, columns)
              && (view.value.Csv? <==> AllStrings(items) && pays(CsvOf(columns, RowsOf(items, columns))))
  {
    if |items| < 5 || columns == [] {
      return None;
    }
    var i := 0;
    while i < |items|
      invariant i <= |items| && forall k :: 0 <= k < i ==> Uniform(items[k], columns)
    {
      if !Uniform(items[i], columns) {
        return None;
      }
      i := i + 1;
    }
    var rows := RowsOf(items, columns);
    if Distinct(columns) {
      StringsAreText(items, columns);
      TypedRowsAreObjects(items, columns);
    }
    if AllTextRows(rows) {
      if Distinct(columns) {
        CsvHoldsObjects(items, columns);
      }
      var csv := WriteCsv(columns, rows);
      if pays(csv) {
        return Some(Csv(csv));
      }
    }
    view := Some(Typed(columns, rows));
  }

  method WriteCsv(columns: seq<string>, rows: seq<seq<Value>>) returns (csv: string)
    requires columns != [] && AllTextRows(rows) && forall i :: 0 <= i < |rows| ==> rows[i] != []
    ensures csv == CsvOf(columns, rows)
  {
    csv := FirstLine(|rows|) + "\n" + Line(columns) + "\n";
    csv := PushRows(csv, TextRows(rows));
    BodyHead(FirstLine(|rows|) + "\n", columns, TextRows(rows));
  }

  method PushRows(buffer: string, rows: seq<seq<string>>) returns (out: string)
    requires forall i :: 0 <= i < |rows| ==> rows[i] != []
    ensures out == buffer + Body(rows)
  {
    out := buffer;
    var i := 0;
    ghost var whole := buffer + Body(rows);
    assert rows[0..] == rows;
    while i < |rows|
      invariant i <= |rows| && out + Body(rows[i..]) == whole
    {
      BodyStep(out, rows, i);
      out := out + Line(rows[i]) + "\n";
      i := i + 1;
    }
    assert rows[i..] == [] && out + "" == out;
  }

  lemma BodyStep(buffer: string, rows: seq<seq<string>>, i: nat)
    requires i < |rows| && forall k :: 0 <= k < |rows| ==> rows[k] != []
    ensures buffer + Line(rows[i]) + "\n" + Body(rows[i + 1..]) == buffer + Body(rows[i..])
  {
    assert rows[i..][1..] == rows[i + 1..];
  }

  lemma BodyHead(buffer: string, columns: seq<string>, rows: seq<seq<string>>)
    requires columns != [] && forall k :: 0 <= k < |rows| ==> rows[k] != []
    ensures buffer + Line(columns) + "\n" + Body(rows) == buffer + Body([columns] + rows)
  {
    assert ([columns] + rows)[1..] == rows;
    Regroup(buffer, Line(columns), "\n", Body(rows));
  }

  predicate HasStrings(item: Object) {
    forall key :: key in item ==> item[key].Text?
  }

  /** Every value of every object is a string. */
  predicate AllStrings(items: seq<Object>) {
    forall i :: 0 <= i < |items| ==> HasStrings(items[i])
  }

  lemma StringsAreText(items: seq<Object>, columns: seq<string>)
    requires IsTable(items, columns) && Distinct(columns)
    ensures AllTextRows(RowsOf(items, columns)) <==> AllStrings(items)
  {
    var rows := RowsOf(items, columns);
    forall i | 0 <= i < |items|
      ensures AllText(rows[i]) <==> HasStrings(items[i])
    {
      assert Uniform(items[i], columns) && rows[i] == CellsOf(items[i], columns);
      StringsOf(items[i], columns);
    }
  }

  lemma StringsOf(item: Object, columns: seq<string>)
    requires Uniform(item, columns) && Distinct(columns)
    ensures AllText(CellsOf(item, columns)) <==> HasStrings(item)
  {
    KeysAreColumns(item, columns);
    var cells := CellsOf(item, columns);
    if AllText(cells) {
      forall key | key in item
        ensures item[key].Text?
      {
        var k :| 0 <= k < |columns| && columns[k] == key;
        assert cells[k] == item[columns[k]];
      }
    }
  }

  lemma KeysAreColumns(item: Object, columns: seq<string>)
    requires Uniform(item, columns) && Distinct(columns)
    ensures forall key :: key in item ==> exists k :: 0 <= k < |columns| && columns[k] == key
  {
    ObjectParts(columns, CellsOf(item, columns));
    ObjectIs(item, columns);
    forall key | key in item
      ensures exists k :: 0 <= k < |columns| && columns[k] == key
    {
      assert key in ObjectOf(columns, CellsOf(item, columns));
      assert key in columns;
    }
  }

  /** The view says all of the array: its rows, or the text after the first line as
      RFC 4180 reads it, rebuild every object in order. */
  predicate Holds(view: View, items: seq<Object>, columns: seq<string>) {
    match view
    case Typed(names, rows) =>
      names == columns && |rows| == |items|
      && forall i :: 0 <= i < |items| ==> |rows[i]| == |columns| && ObjectOf(columns, rows[i]) == items[i]
    case Csv(text) =>
      var head := "CSV strings[" + Decimal(|items|) + "]\n";
      head <= text && HoldsTable(ReadTable(text[|head|..]), items, columns)
  }

  predicate HoldsTable(table: Option<seq<seq<string>>>, items: seq<Object>, columns: seq<string>) {
    table.Some? && |table.value| == |items| + 1 && table.value[0] == columns
    && forall i :: 0 <= i < |items| ==>
         |table.value[i + 1]| == |columns| && ObjectOf(columns, AsValues(table.value[i + 1])) == items[i]
  }

  lemma CsvHoldsObjects(items: seq<Object>, columns: seq<string>)
    requires IsTable(items, columns) && Distinct(columns) && AllTextRows(RowsOf(items, columns))
    ensures Holds(Csv(CsvOf(columns, RowsOf(items, columns))), items, columns)
  {
    ObjectsComeBack(items, columns);
    FirstLineIs(|items|);
    AfterHead(FirstLine(|items|) + "\n", Body([columns] + TextRows(RowsOf(items, columns))), items, columns);
  }

  lemma FirstLineIs(n: nat)
    ensures FirstLine(n) + "\n" == "CSV strings[" + Decimal(n) + "]\n"
  {
  }

  lemma AfterHead(head: string, body: string, items: seq<Object>, columns: seq<string>)
    requires head == "CSV strings[" + Decimal(|items|) + "]\n" && HoldsTable(ReadTable(body), items, columns)
    ensures Holds(Csv(head + body), items, columns)
  {
    assert (head + body)[|head|..] == body;
  }

  /** The object that a row of cells stands for. */
  function ObjectOf(columns: seq<string>, cells: seq<Value>): Object
    requires |columns| == |cells|
  {
    if columns == [] then map[] else ObjectOf(columns[1..], cells[1..])[columns[0] := cells[0]]
  }

  predicate Distinct(columns: seq<string>) {
    forall i, j :: 0 <= i < j < |columns| ==> columns[i] != columns[j]
  }

  function AsValues(texts: seq<string>): (cells: seq<Value>)
    ensures |cells| == |texts| && forall k :: 0 <= k < |texts| ==> cells[k] == Text(texts[k])
  {
    if texts == [] then [] else [Text(texts[0])] + AsValues(texts[1..])
  }

  /** The typed table holds every object of the array, in order. */
  lemma TypedRowsAreObjects(items: seq<Object>, columns: seq<string>)
    requires IsTable(items, columns) && Distinct(columns)
    ensures var rows := RowsOf(items, columns);
            forall i :: 0 <= i < |items| ==> |rows[i]| == |columns| && ObjectOf(columns, rows[i]) == items[i]
  {
    var rows := RowsOf(items, columns);
    forall i | 0 <= i < |items|
      ensures ObjectOf(columns, rows[i]) == items[i]
    {
      ObjectIs(items[i], columns);
    }
  }

  /** Reading the CSV after its first line gives back every object of the array, in order. */
  lemma ObjectsComeBack(items: seq<Object>, columns: seq<string>)
    requires IsTable(items, columns) && Distinct(columns) && AllTextRows(RowsOf(items, columns))
    ensures HoldsTable(ReadTable(Body([columns] + TextRows(RowsOf(items, columns)))), items, columns)
  {
    var rows := RowsOf(items, columns);
    TableReads([columns] + TextRows(rows));
    TypedRowsAreObjects(items, columns);
    forall i | 0 <= i < |items|
      ensures AsValues(TextRows(rows)[i]) == rows[i]
    {
      assert AllText(rows[i]);
    }
  }

  lemma {:induction false} ObjectParts(columns: seq<string>, cells: seq<Value>)
    requires |columns| == |cells| && Distinct(columns)
    ensures |ObjectOf(columns, cells)| == |columns|
    ensures forall k :: 0 <= k < |columns| ==> columns[k] in ObjectOf(columns, cells)
                                                 && ObjectOf(columns, cells)[columns[k]] == cells[k]
    ensures forall key :: key in ObjectOf(columns, cells) ==> key in columns
  {
    if columns != [] {
      ObjectParts(columns[1..], cells[1..]);
      assert columns[0] !in columns[1..];
    }
  }

  lemma ObjectIs(item: Object, columns: seq<string>)
    requires Uniform(item, columns) && Distinct(columns)
    ensures ObjectOf(columns, CellsOf(item, columns)) == item
  {
    var built := ObjectOf(columns, CellsOf(item, columns));
    ObjectParts(columns, CellsOf(item, columns));
    assert built.Keys <= item.Keys;
    SameSize(built.Keys, item.Keys);
    SameMap(built, item);
  }

  lemma SameMap<K, V>(a: map<K, V>, b: map<K, V>)
    requires a.Keys == b.Keys && forall k :: k in a ==> a[k] == b[k]
    ensures a == b
  {
  }

  lemma {:induction false} SameSize<T>(a: set<T>, b: set<T>)
    requires a <= b && |a| == |b|
    ensures a == b
  {
    if a != {} {
      var x :| x in a;
      SameSize(a - {x}, b - {x});
    }
  }
}

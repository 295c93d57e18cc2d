/** The reversible patch presentation of `src/patch_view.rs`: repeated file
    headers become one record, equal consecutive rows become a `Repeat`. The
    encoder never runs the decoder on its own output; `RoundTrip` is that check,
    for every text. */
module PatchView {
  import opened Text
  import JsonString

  const MAGIC := "Patch v2\n"
  const LEGACY := "Patch v1\n"

  // ----- encoder, as records without their final LF

  predicate Marked(row: string) {
    "\\" <= row || "F " <= row || "FT " <= row || "File " <= row || "FileT " <= row
    || "Repeat " <= row || "End " <= row
  }

  function Literal(row: string): string {
    if Marked(row) then "\\" + row else row
  }

  /** The four rows that a header record stands for. */
  function HeaderRows(name: string, separator: string, version: string): seq<string> {
    ["diff --git a/" + name + " b/" + name,
     "index " + version,
     "--- a/" + name + separator,
     "+++ b/" + name + separator]
  }

  datatype FileHeader = FileHeader(name: string, tabbed: bool, version: string) {
    function Separator(): string {
      if tabbed then "\t" else ""
    }

    function Rows(): seq<string> {
      HeaderRows(name, Separator(), version)
    }

    function Record(): string {
      if '\t' !in name && EndsWith(version, " 100644") then
        (if tabbed then "FT " else "F ") + (name + "\t" + version[..|version| - 7])
      else
        (if tabbed then "FileT " else "File ") + (JsonString.Encode(name) + (" " + version))
    }
  }

  /** Recognition of a header at the front of `rows`. */
  function Header(rows: seq<string>): Option<FileHeader> {
    if |rows| < 4 || !("--- a/" <= rows[2]) then None
    else
      var field := rows[2][6..];
      var tabbed := EndsWith(field, "\t");
      var name := if tabbed then field[..|field| - 1] else field;
      var separator := if tabbed then "\t" else "";
      if '\r' in name
         || rows[0] != "diff --git a/" + name + " b/" + name
         || rows[3] != "+++ b/" + name + separator then None
      else if !("index " <= rows[1]) || '\r' in rows[1][6..] then None
      else Some(FileHeader(name, tabbed, rows[1][6..]))
  }

  function Copies(record: string, n: nat): (records: seq<string>)
    ensures |records| == n
  {
    if n == 0 then [] else [record] + Copies(record, n - 1)
  }

  /** Records of a run of `n` equal rows: a repetition only where it is shorter. */
  function RunRecords(row: string, n: nat): seq<string>
    requires n >= 1
  {
    var plain := Literal(row);
    var repetition := "Repeat " + Decimal(n - 1);
    if n > 1 && |repetition| + 1 < (|plain| + 1) * (n - 1) then [plain, repetition]
    else Copies(plain, n)
  }

  /** Records for the rows at the front, and how many rows they cover. */
  function Group(rows: seq<string>): (group: (seq<string>, nat))
    requires rows != []
    ensures 1 <= group.1 <= |rows|
  {
    match Header(rows)
    case Some(header) => ([header.Record()], 4)
    case None => (RunRecords(rows[0], RunLength(rows)), RunLength(rows))
  }

  function Records(rows: seq<string>): seq<string>
    decreases |rows|
  {
    if rows == [] then [] else Group(rows).0 + Records(rows[Group(rows).1..])
  }

  function EndRecord(raw: string): string {
    if EndsWithLf(raw) then "End 1" else "End 0"
  }

  /** The encoded stream, before it is compared with the original. */
  function Stream(raw: string): string {
    MAGIC + Unrows(Records(Rows(raw)) + [EndRecord(raw)])
  }

  predicate Foreign(raw: string) {
    raw == "" || MAGIC <= raw || LEGACY <= raw
  }

  /** `render`: the stream is kept only if it is shorter and saves tokens. */
  method Render(raw: string, tokensSaved: (string, string) -> int) returns (view: string)
    ensures view == if raw != "" && !("Patch v2\n" <= raw) && !("Patch v1\n" <= raw)
                       && |Stream(raw)| < |raw| && tokensSaved(raw, Stream(raw)) > 0
                    then Stream(raw) else raw
  {
    if Foreign(raw) {
      return raw;
    }
    var encoded := EncodeRows(Rows(raw));
    encoded := encoded + (EndRecord(raw) + "\n");
    BufferEnd(MAGIC, Records(Rows(raw)), EndRecord(raw));
    view := if |encoded| < |raw| && tokensSaved(raw, encoded) > 0 then encoded else raw;
  }

  method EncodeRows(rows: seq<string>) returns (encoded: string)
    ensures encoded == MAGIC + Unrows(Records(rows))
  {
    encoded := MAGIC;
    var cursor := 0;
    assert rows[0..] == rows;
    while cursor < |rows|
      invariant cursor <= |rows|
      invariant encoded + Unrows(Records(rows[cursor..])) == MAGIC + Unrows(Records(rows))
    {
      var rest := rows[cursor..];
      GroupStep(encoded, rest);
      match Header(rest) {
        case Some(header) =>
          UnrowsOne(header.Record());
          encoded := encoded + (header.Record() + "\n");
          cursor := cursor + 4;
        case None =>
          var count := RunLength(rest);
          encoded := PushRun(encoded, rest[0], count);
          cursor := cursor + count;
      }
      assert rest[Group(rest).1..] == rows[cursor..];
    }
    assert rows[cursor..] == [];
  }

  lemma GroupStep(buffer: string, rows: seq<string>)
    requires rows != []
    ensures buffer + Unrows(Group(rows).0) + Unrows(Records(rows[Group(rows).1..]))
            == buffer + Unrows(Records(rows))
  {
    BufferAppend(buffer, Group(rows).0, Records(rows[Group(rows).1..]));
    ConcatAssoc(buffer, Unrows(Group(rows).0), Unrows(Records(rows[Group(rows).1..])));
    UnrowsAppend(Group(rows).0, Records(rows[Group(rows).1..]));
  }

  method PushRun(buffer: string, row: string, count: nat) returns (encoded: string)
    requires count >= 1
    ensures encoded == buffer + Unrows(RunRecords(row, count))
  {
    var repetition := "Repeat " + Decimal(count - 1) + "\n";
    var plain := Literal(row) + "\n";
    encoded := buffer + plain;
    UnrowsSnoc([], Literal(row));
    if count > 1 && |repetition| < |plain| * (count - 1) {
      UnrowsSnoc([Literal(row)], "Repeat " + Decimal(count - 1));
      encoded := encoded + repetition;
    } else {
      for k := 1 to count
        invariant encoded == buffer + Unrows(Copies(Literal(row), k))
      {
        CopiesSnoc(Literal(row), k);
        encoded := encoded + plain;
      }
    }
  }

  lemma {:induction false} CopiesSnoc(record: string, n: nat)
    ensures Unrows(Copies(record, n + 1)) == Unrows(Copies(record, n)) + record + "\n"
  {
    if n > 0 {
      CopiesSnoc(record, n - 1);
    }
  }

  // ----- decoder

  predicate IsHex(c: char) {
    '0' <= c <= '9' || 'a' <= c <= 'f' || 'A' <= c <= 'F'
  }

  /** A recovery hint that may follow the terminator. */
  predicate IsHint(row: string) {
    ("[tee:" <= row || "[raw: " <= row)
    && match SplitOnce(if "[tee:" <= row then row[5..] else row[6..], ']')
       case None => false
       case Some((id, rest)) =>
         (rest == "" || rest == " lm-resizer tee read " + id)
         && id != "" && forall i :: 0 <= i < |id| ==> IsHex(id[i])
  }

  predicate IsTrailer(rows: seq<string>) {
    rows == [] || ((rows[0] == "" || IsHint(rows[0])) && IsTrailer(rows[1..]))
  }

  predicate IsEnd(row: string) {
    row == "End 0" || row == "End 1"
  }

  /** The last of the LF-terminated pieces of `s`, LF included. */
  function LastPiece(s: string): string {
    if s == "" then ""
    else
      var k := Find(s, '\n');
      if k + 1 >= |s| then s else LastPiece(s[k + 1..])
  }

  datatype State = State(out: string, previous: string)

  function CompactHeader(row: string): Result<string>
    requires "F " <= row || "FT " <= row
  {
    var tabbed := "FT " <= row;
    match SplitOnce(if tabbed then row[3..] else row[2..], '\t')
    case None => Err
    case Some((name, objects)) =>
      if '\r' in name || '\n' in name then Err
      else Ok(Unrows(FileHeader(name, tabbed, objects + " 100644").Rows()))
  }

  function FullHeader(row: string): Result<string>
    requires "File " <= row || "FileT " <= row
  {
    var tabbed := "FileT " <= row;
    match JsonString.ParseFirst(if tabbed then row[6..] else row[5..])
    case None => Err
    case Some((name, rest)) =>
      if '\r' in name || '\n' in name || !(" " <= rest) then Err
      else Ok(Unrows(FileHeader(name, tabbed, rest[1..]).Rows()))
  }

  function Repetition(count: string, st: State): Result<string> {
    match ParseUsize(count)
    case None => Err
    case Some(n) =>
      if st.previous == "" || n * |st.previous| >= USIZE_LIMIT
         || |st.out| > LIMIT || n * |st.previous| > LIMIT - |st.out| then Err
      else Ok(Repeated(st.previous, n))
  }

  /** The text that one record stands for. */
  function Chunk(row: string, st: State, modern: bool): Result<string> {
    if "\\" <= row then Ok(row[1..] + "\n")
    else if modern && ("F " <= row || "FT " <= row) then CompactHeader(row)
    else if "File " <= row || "FileT " <= row then FullHeader(row)
    else if "Repeat " <= row then Repetition(row[7..], st)
    else if "End " <= row then Err
    else Ok(row + "\n")
  }

  function Step(row: string, st: State, modern: bool): Result<State> {
    match Chunk(row, st, modern)
    case Err => Err
    case Ok(chunk) =>
      if |st.out| + |chunk| > LIMIT then Err
      else Ok(State(st.out + chunk, if chunk == "" then st.previous else LastPiece(chunk)))
  }

  function Finish(end: string, out: string, trailer: seq<string>): Result<string> {
    if end != "End 0" then After(trailer, out)
    else if EndsWithLf(out) then After(trailer, out[..|out| - 1])
    else Err
  }

  function After(trailer: seq<string>, out: string): Result<string> {
    if IsTrailer(trailer) then Ok(out) else Err
  }

  /** The decoder as a function of the remaining records. */
  function Replay(rows: seq<string>, st: State, modern: bool): Result<string>
    decreases |rows|
  {
    if rows == [] then Err
    else if IsEnd(rows[0]) then Finish(rows[0], st.out, rows[1..])
    else
      match Step(rows[0], st, modern)
      case Err => Err
      case Ok(next) => Replay(rows[1..], next, modern)
  }

  function Decoded(view: string): Result<string> {
    if MAGIC <= view then Replay(Rows(view[|MAGIC|..]), State("", ""), true)
    else if LEGACY <= view then Replay(Rows(view[|LEGACY|..]), State("", ""), false)
    else Err
  }

  /** `expand`. */
  method Expand(view: string) returns (result: Result<string>)
    ensures result == Decoded(view)
  {
    var modern := MAGIC <= view;
    if !modern && !(LEGACY <= view) {
      return Err;
    }
    var rows := Rows(view[|MAGIC|..]);
    var out, previous, finished, i := "", "", false, 0;
    assert rows[0..] == rows;
    while i < |rows|
      invariant i <= |rows|
      invariant Decoded(view) == if finished then After(rows[i..], out)
                                 else Replay(rows[i..], State(out, previous), modern)
    {
      var row := rows[i];
      assert rows[i..][1..] == rows[i + 1..];
      i := i + 1;
      if finished {
        if row != "" && !IsHint(row) {
          return Err;
        }
      } else if IsEnd(row) {
        if row == "End 0" {
          if !EndsWithLf(out) {
            return Err;
          }
          out := out[..|out| - 1];
        }
        finished := true;
      } else {
        match Chunk(row, State(out, previous), modern) {
          case Err => return Err;
          case Ok(chunk) =>
            if |out| + |chunk| > LIMIT {
              return Err;
            }
            if chunk != "" {
              previous := LastPiece(chunk);
            }
            out := out + chunk;
        }
      }
    }
    result := if finished then Ok(out) else Err;
  }

  // ----- every record is read back as the rows it was written for

  lemma LastPieceOfRow(row: string)
    requires NoLf(row)
    ensures LastPiece(row + "\n") == row + "\n"
  {
    FindAt(row, '\n', "");
    assert row + ['\n'] + "" == row + "\n";
  }

  lemma LiteralChunk(row: string, st: State)
    ensures !IsEnd(Literal(row))
    ensures Chunk(Literal(row), st, true) == Ok(row + "\n")
  {
    assert IsEnd(row) ==> row[..4] == "End ";
    if Marked(row) {
      assert Literal(row)[0] == '\\';
      assert Literal(row)[1..] == row;
    }
  }

  lemma LiteralStep(row: string, st: State)
    requires NoLf(row)
    ensures !IsEnd(Literal(row))
    ensures Step(Literal(row), st, true)
            == if |st.out| + |row| + 1 <= LIMIT then Ok(State(st.out + row + "\n", row + "\n")) else Err
  {
    LastPieceOfRow(row);
    LiteralChunk(row, st);
    ConcatAssoc(st.out, row, "\n");
  }

  lemma CompactHeaderRead(header: FileHeader)
    requires '\r' !in header.name && '\n' !in header.name
    requires '\t' !in header.name && EndsWith(header.version, " 100644")
    ensures "F " <= header.Record() || "FT " <= header.Record()
    ensures CompactHeader(header.Record()) == Ok(Unrows(header.Rows()))
  {
    var objects := header.version[..|header.version| - 7];
    assert objects + " 100644" == header.version;
    CompactRead(header.name, header.tabbed, objects);
    assert header == FileHeader(header.name, header.tabbed, objects + " 100644");
  }

  lemma CompactRead(name: string, tabbed: bool, objects: string)
    requires '\r' !in name && '\n' !in name && '\t' !in name
    ensures var record := (if tabbed then "FT " else "F ") + (name + "\t" + objects);
            ("F " <= record || "FT " <= record)
            && CompactHeader(record) == Ok(Unrows(FileHeader(name, tabbed, objects + " 100644").Rows()))
  {
    var tail := name + ['\t'] + objects;
    var record := (if tabbed then "FT " else "F ") + tail;
    assert record[1] == if tabbed then 'T' else ' ';
    assert tail == if tabbed then record[3..] else record[2..];
    SplitOnceAt(name, '\t', objects);
  }

  lemma FullHeaderRead(header: FileHeader)
    requires '\r' !in header.name && '\n' !in header.name
    requires '\t' in header.name || !EndsWith(header.version, " 100644")
    ensures "File " <= header.Record() || "FileT " <= header.Record()
    ensures FullHeader(header.Record()) == Ok(Unrows(header.Rows()))
  {
    var tail := JsonString.Encode(header.name) + (" " + header.version);
    assert header.Record()[if header.tabbed then 6 else 5..] == tail;
    JsonString.FirstRoundTrip(header.name, " " + header.version);
    assert (" " + header.version)[1..] == header.version;
  }

  /** A recognized header determines exactly the four rows it was read from. */
  lemma HeaderIsExact(rows: seq<string>)
    requires AllNoLf(rows) && Header(rows).Some?
    ensures |rows| >= 4 && Header(rows).value.Rows() == rows[..4]
    ensures '\r' !in Header(rows).value.name && '\n' !in Header(rows).value.name
  {
    var header := Header(rows).value;
    var field := rows[2][6..];
    FieldParts(field);
    assert rows[2] == "--- a/" + field && rows[1] == "index " + header.version;
    ConcatAssoc("--- a/", header.name, header.Separator());
    assert rows[..4] == [rows[0], rows[1], rows[2], rows[3]];
    assert '\n' !in field by {
      assert forall c :: c in field ==> c in rows[2];
    }
  }

  lemma FieldParts(field: string)
    ensures EndsWith(field, "\t") ==> field == field[..|field| - 1] + "\t"
    ensures field == field + ""
  {
  }

  /** What the first letters of a record mean to the decoder. */
  lemma HeaderRoute(record: string, st: State)
    ensures "F " <= record || "FT " <= record ==> Chunk(record, st, true) == CompactHeader(record) && !IsEnd(record)
    ensures "File " <= record || "FileT " <= record ==> Chunk(record, st, true) == FullHeader(record) && !IsEnd(record)
  {
    if "F " <= record || "FT " <= record {
      assert record[0] == 'F';
    }
    if "File " <= record || "FileT " <= record {
      assert record[0] == 'F' && record[1] == 'i';
    }
  }

  lemma HeaderChunk(rows: seq<string>, st: State)
    requires AllNoLf(rows) && Header(rows).Some?
    ensures |rows| >= 4
    ensures !IsEnd(Header(rows).value.Record())
    ensures Chunk(Header(rows).value.Record(), st, true) == Ok(Unrows(rows[..4]))
  {
    HeaderIsExact(rows);
    RecordRead(Header(rows).value, st);
  }

  lemma RecordRead(header: FileHeader, st: State)
    requires '\r' !in header.name && '\n' !in header.name
    ensures !IsEnd(header.Record()) && Chunk(header.Record(), st, true) == Ok(Unrows(header.Rows()))
  {
    HeaderRoute(header.Record(), st);
    if '\t' !in header.name && EndsWith(header.version, " 100644") {
      CompactHeaderRead(header);
    } else {
      FullHeaderRead(header);
    }
  }

  lemma HeaderStep(rows: seq<string>, st: State)
    requires AllNoLf(rows) && Header(rows).Some?
    ensures |rows| >= 4
    ensures !IsEnd(Header(rows).value.Record())
    ensures Appends(Header(rows).value.Record(), st, Unrows(rows[..4]))
  {
    HeaderChunk(rows, st);
  }

  lemma RepetitionRead(count: string, n: nat, st: State)
    requires |st.out| <= LIMIT && st.previous != ""
    requires ParseUsize(count) == if n < USIZE_LIMIT then Some(n) else None
    ensures Repetition(count, st)
            == if |st.out| + n * |st.previous| <= LIMIT then Ok(Repeated(st.previous, n)) else Err
  {
    assert n * |st.previous| >= n by { assert n * (|st.previous| - 1) >= 0; }
  }

  lemma RepetitionChunk(row: string, n: nat, st: State)
    ensures Chunk("Repeat " + Decimal(n), st, true) == Repetition(Decimal(n), st)
  {
    var record := "Repeat " + Decimal(n);
    assert record[0] == 'R' && record[7..] == Decimal(n);
  }

  lemma RepetitionStep(row: string, n: nat, out: string)
    requires |out| <= LIMIT
    ensures !IsEnd("Repeat " + Decimal(n))
    ensures Appends("Repeat " + Decimal(n), State(out, row + "\n"), Repeated(row + "\n", n))
  {
    RepetitionChunk(row, n, State(out, row + "\n"));
    DecimalRoundTrip(n);
    RepetitionRead(Decimal(n), n, State(out, row + "\n"));
    RepeatedLength(row + "\n", n);
  }

  // ----- whole streams

  /** Reading `record` appends `text`, or fails exactly when that would pass the limit. */
  predicate Appends(record: string, st: State, text: string) {
    var next := Step(record, st, true);
    if |st.out| + |text| <= LIMIT then next.Ok? && next.value.out == st.out + text else next.Err?
  }

  /** Reading all of `records` appends `text`, or fails exactly when that would
      pass the limit; `tail` is the end of the stream. */
  predicate Restores(records: seq<string>, st: State, text: string, tail: seq<string>)
    requires tail != [] && IsEnd(tail[0])
  {
    Replay(records + tail, st, true)
    == if |st.out| + |text| <= LIMIT then Finish(tail[0], st.out + text, tail[1..]) else Err
  }

  lemma RestoresCons(record: string, records: seq<string>, st: State, text: string, rest: string, tail: seq<string>)
    requires tail != [] && IsEnd(tail[0])
    requires !IsEnd(record) && Appends(record, st, text)
    requires |st.out| + |text| <= LIMIT ==>
               Restores(records, Step(record, st, true).value, rest, tail)
    ensures Restores([record] + records, st, text + rest, tail)
  {
    assert ([record] + records + tail)[1..] == records + tail;
    ConcatAssoc(st.out, text, rest);
  }

  lemma RestoresNothing(st: State, tail: seq<string>)
    requires tail != [] && IsEnd(tail[0])
    requires |st.out| <= LIMIT
    ensures Restores([], st, "", tail)
  {
    assert [] + tail == tail;
    assert st.out + "" == st.out;
  }

  lemma {:induction false} CopiesRestore(row: string, n: nat, rest: seq<string>, text: string, st: State, tail: seq<string>)
    requires tail != [] && IsEnd(tail[0])
    requires NoLf(row)
    requires |st.out| <= LIMIT
    requires forall later: State :: |later.out| <= LIMIT ==> Restores(rest, later, text, tail)
    ensures Restores(Copies(Literal(row), n) + rest, st, Repeated(row + "\n", n) + text, tail)
  {
    if n == 0 {
      assert [] + rest == rest && "" + text == text;
    } else {
      LiteralStep(row, st);
      var records := Copies(Literal(row), n - 1) + rest;
      var more := Repeated(row + "\n", n - 1) + text;
      if |st.out| + |row| + 1 <= LIMIT {
        CopiesRestore(row, n - 1, rest, text, State(st.out + row + "\n", row + "\n"), tail);
      }
      ConcatAssoc(st.out, row, "\n");
      RestoresCons(Literal(row), records, st, row + "\n", more, tail);
      ConcatAssoc([Literal(row)], Copies(Literal(row), n - 1), rest);
      ConcatAssoc(row + "\n", Repeated(row + "\n", n - 1), text);
    }
  }

  lemma RunRestore(row: string, n: nat, rest: seq<string>, text: string, st: State, tail: seq<string>)
    requires tail != [] && IsEnd(tail[0])
    requires n >= 1 && NoLf(row)
    requires |st.out| <= LIMIT
    requires forall later: State :: |later.out| <= LIMIT ==> Restores(rest, later, text, tail)
    ensures Restores(RunRecords(row, n) + rest, st, Repeated(row + "\n", n) + text, tail)
  {
    if RunRecords(row, n) == Copies(Literal(row), n) {
      CopiesRestore(row, n, rest, text, st, tail);
    } else {
      FoldedRestore(row, n, rest, text, st, tail);
    }
  }

  lemma FoldedRestore(row: string, n: nat, rest: seq<string>, text: string, st: State, tail: seq<string>)
    requires tail != [] && IsEnd(tail[0])
    requires n >= 1 && NoLf(row)
    requires |st.out| <= LIMIT
    requires forall later: State :: |later.out| <= LIMIT ==> Restores(rest, later, text, tail)
    ensures Restores([Literal(row), "Repeat " + Decimal(n - 1)] + rest, st, Repeated(row + "\n", n) + text, tail)
  {
    var repetition, more := "Repeat " + Decimal(n - 1), Repeated(row + "\n", n - 1);
    var next := State(st.out + row + "\n", row + "\n");
    LiteralStep(row, st);
    ConcatAssoc(st.out, row, "\n");
    if |next.out| <= LIMIT {
      RepetitionStep(row, n - 1, next.out);
      RestoresCons(repetition, rest, next, more, text, tail);
    }
    RestoresCons(Literal(row), [repetition] + rest, st, row + "\n", more + text, tail);
    ConcatAssoc([Literal(row)], [repetition], rest);
    assert [Literal(row), repetition] == [Literal(row)] + [repetition];
    ConcatAssoc(row + "\n", more, text);
  }

  lemma {:induction false} RecordsRestore(rows: seq<string>, st: State, tail: seq<string>)
    requires tail != [] && IsEnd(tail[0])
    requires AllNoLf(rows) && |st.out| <= LIMIT
    ensures Restores(Records(rows), st, Unrows(rows), tail)
    decreases |rows|
  {
    if rows == [] {
      RestoresNothing(st, tail);
    } else {
      var (group, used) := Group(rows);
      var rest := rows[used..];
      forall later: State | |later.out| <= LIMIT
        ensures Restores(Records(rest), later, Unrows(rest), tail)
      {
        RecordsRestore(rest, later, tail);
      }
      if Header(rows).Some? {
        HeaderStep(rows, st);
        RestoresCons(group[0], Records(rest), st, Unrows(rows[..4]), Unrows(rest), tail);
        UnrowsAppend(rows[..4], rest);
        assert rows[..4] + rest == rows;
      } else {
        RunRestore(rows[0], used, Records(rest), Unrows(rest), st, tail);
        RunText(rows, used);
      }
    }
  }

  /** Bytes that the decoder holds at most: the text with its last row terminated. */
  function TerminatedLength(raw: string): nat {
    |raw| + if EndsWithLf(raw) then 0 else 1
  }

  lemma {:induction false} RecordsNoLf(rows: seq<string>)
    requires AllNoLf(rows)
    ensures AllNoLf(Records(rows))
    decreases |rows|
  {
    if rows != [] {
      var (group, used) := Group(rows);
      RecordsNoLf(rows[used..]);
      if Header(rows).Some? {
        HeaderIsExact(rows);
        RecordNoLf(Header(rows).value);
      } else {
        DecimalRoundTrip(used - 1);
        CopiesNoLf(Literal(rows[0]), used);
      }
    }
  }

  lemma RecordNoLf(header: FileHeader)
    requires NoLf(header.name) && AllNoLf(header.Rows())
    ensures NoLf(header.Record())
  {
    JsonString.EncodeNoLf(header.name);
    assert header.Rows()[1] == "index " + header.version;
    assert forall c :: c in header.version ==> c in header.Rows()[1];
  }

  lemma {:induction false} CopiesNoLf(record: string, n: nat)
    requires NoLf(record)
    ensures AllNoLf(Copies(record, n))
  {
    if n > 0 {
      CopiesNoLf(record, n - 1);
    }
  }

  /** Decoding the stream of any text gives the text back exactly, whatever
      recovery hints follow; it fails exactly when the text with its last row
      terminated is longer than 512 MiB, or when another row follows. */
  lemma RoundTrip(raw: string, trailer: seq<string>)
    requires !Foreign(raw) && AllNoLf(trailer)
    ensures Decoded(Stream(raw) + Unrows(trailer))
            == if TerminatedLength(raw) <= LIMIT && IsTrailer(trailer) then Ok(raw) else Err
  {
    var tail := [EndRecord(raw)] + trailer;
    StreamRows(raw, trailer);
    RowsNoLf(raw);
    RecordsRestore(Rows(raw), State("", ""), tail);
    assert "" + Unrows(Rows(raw)) == Unrows(Rows(raw));
    FinishesWith(raw, trailer);
    UnrowsOfRows(raw);
    assert tail[1..] == trailer;
  }

  lemma FinishesWith(raw: string, trailer: seq<string>)
    requires raw != ""
    ensures Finish(EndRecord(raw), Unrows(Rows(raw)), trailer) == if IsTrailer(trailer) then Ok(raw) else Err
    ensures |Unrows(Rows(raw))| == TerminatedLength(raw)
  {
    UnrowsOfRows(raw);
    assert (raw + "\n")[..|raw|] == raw;
  }

  lemma StreamRows(raw: string, trailer: seq<string>)
    requires AllNoLf(trailer)
    ensures MAGIC <= Stream(raw) + Unrows(trailer)
    ensures Rows((Stream(raw) + Unrows(trailer))[|MAGIC|..])
            == Records(Rows(raw)) + ([EndRecord(raw)] + trailer)
  {
    RowsNoLf(raw);
    RecordsNoLf(Rows(raw));
    AfterMagic(MAGIC, Records(Rows(raw)), EndRecord(raw), trailer);
  }

  lemma AfterMagic(magic: string, records: seq<string>, end: string, trailer: seq<string>)
    requires AllNoLf(records) && NoLf(end) && AllNoLf(trailer)
    ensures var view := magic + Unrows(records + [end]) + Unrows(trailer);
            magic <= view && Rows(view[|magic|..]) == records + ([end] + trailer)
  {
    var all := records + [end] + trailer;
    BufferAppend(magic, records + [end], trailer);
    assert (magic + Unrows(all))[|magic|..] == Unrows(all);
    RowsOfUnrows(all);
    ConcatAssoc(records, [end], trailer);
  }

  /** The hints that the capture prints are accepted trailers. */
  lemma HintIsTrailer(id: string, mark: string, rest: string)
    requires id != "" && forall i :: 0 <= i < |id| ==> IsHex(id[i])
    requires mark == "[tee:" || mark == "[raw: "
    requires rest == "" || rest == " lm-resizer tee read " + id
    ensures IsHint(mark + (id + "]" + rest))
  {
    var row := mark + (id + "]" + rest);
    assert row[1] == mark[1];
    assert ']' !in id;
    SplitOnceAt(id, ']', rest);
    assert row[|mark|..] == id + [']'] + rest;
  }

  /** A view that `render` chose over the original is shorter and expands to it. */
  method Inverse(raw: string, tokensSaved: (string, string) -> int) returns (view: string, back: Result<string>)
    ensures |view| <= |raw|
    ensures view != raw && TerminatedLength(raw) <= LIMIT ==> back == Ok(raw)
  {
    view := Render(raw, tokensSaved);
    back := Expand(view);
    if view != raw {
      RoundTrip(raw, []);
      assert view + Unrows([]) == view;
    }
  }
}

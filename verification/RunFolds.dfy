/** Run folding: `logs` in `src/container_views.rs`, `log_runs` in
    `src/structured_views.rs`, and their common decoder `expand_runs` in
    `src/reversible_views.rs`. `logs` never runs the decoder; `log_runs` does,
    and the theorems say when that check succeeds. */
module RunFolds {
  import opened Text

  const OPEN := "[repeat "
  const CLOSE := " more]"

  // ----- decoder

  /** The count text of a `[repeat N more]` piece, LF included. */
  function RepeatCount(piece: string): Option<string> {
    if OPEN <= piece && EndsWith(piece[8..], CLOSE + "\n")
    then Some(piece[8..|piece| - 7])
    else None
  }

  function Repeat(count: string, out: string, previous: Option<string>): Result<string> {
    if ParseUsize(count).None? || previous.None? then Err
    else
      var n := ParseUsize(count).value;
      var size := n * |previous.value|;
      if size >= USIZE_LIMIT || size + |out| >= USIZE_LIMIT || size + |out| > LIMIT then Err
      else Ok(out + Repeated(previous.value, n))
  }

  function Replay(pieces: seq<string>, out: string, previous: Option<string>): Result<string>
    decreases |pieces|
  {
    if pieces == [] then Ok(out)
    else
      match RepeatCount(pieces[0])
      case None => Replay(pieces[1..], out + pieces[0], Some(pieces[0]))
      case Some(count) =>
        match Repeat(count, out, previous)
        case Err => Err
        case Ok(more) => Replay(pieces[1..], more, previous)
  }

  function Expanded(view: string): Result<string> {
    Replay(Pieces(view), "", None)
  }

  /** `expand_runs`. */
  method ExpandRuns(view: string) returns (result: Result<string>)
    ensures result == Expanded(view)
  {
    var pieces := Pieces(view);
    var out, previous, i := "", None, 0;
    assert pieces[0..] == pieces;
    while i < |pieces|
      invariant i <= |pieces|
      invariant Expanded(view) == Replay(pieces[i..], out, previous)
    {
      assert pieces[i..][1..] == pieces[i + 1..];
      match RepeatCount(pieces[i]) {
        case Some(count) =>
          if ParseUsize(count).None? || previous.None? {
            return Err;
          }
          var n, row := ParseUsize(count).value, previous.value;
          var size := n * |row|;
          if size >= USIZE_LIMIT || size + |out| >= USIZE_LIMIT || size + |out| > LIMIT {
            return Err;
          }
          out := PushTimes(out, row, n);
        case None =>
          out := out + pieces[i];
          previous := Some(pieces[i]);
      }
      i := i + 1;
    }
    result := Ok(out);
  }

  method PushTimes(buffer: string, s: string, n: nat) returns (out: string)
    ensures out == buffer + Repeated(s, n)
  {
    out := buffer;
    for k := 0 to n
      invariant out + Repeated(s, n - k) == buffer + Repeated(s, n)
    {
      ConcatAssoc(out, s, Repeated(s, n - k - 1));
      out := out + s;
    }
  }

  /** Decoding only ever extends what is already decoded. */
  lemma {:induction false} ReplayExtends(pieces: seq<string>, out: string, previous: Option<string>)
    ensures var r := Replay(pieces, out, previous); r.Ok? ==> out <= r.value
    decreases |pieces|
  {
    if pieces != [] {
      match RepeatCount(pieces[0])
      case None => ReplayExtends(pieces[1..], out + pieces[0], Some(pieces[0]));
      case Some(count) =>
        var r := Repeat(count, out, previous);
        if r.Ok? {
          ReplayExtends(pieces[1..], r.value, previous);
        }
    }
  }

  /** A view is kept from its first row on unless that row is a repetition. */
  lemma FirstRowKept(row: string, rest: string)
    requires NoLf(row) && RepeatCount(row + "\n").None?
    ensures var r := Expanded(row + "\n" + rest); r.Ok? ==> row + "\n" <= r.value
  {
    PiecesCons(row, rest);
    ReplayPlain(row, Pieces(rest), "", None);
    assert "" + (row + "\n") == row + "\n";
    ReplayExtends(Pieces(rest), row + "\n", Some(row + "\n"));
  }

  // ----- encoder

  /** Rows of the folded form: each run of equal rows once, then its repetitions. */
  function Records(rows: seq<string>): seq<string>
    decreases |rows|
  {
    if rows == [] then []
    else
      var n := RunLength(rows);
      RunRecords(rows[0], n) + Records(rows[n..])
  }

  function RunRecords(row: string, n: nat): seq<string>
    requires n >= 1
  {
    if n > 1 then [row, OPEN + Decimal(n - 1) + CLOSE] else [row]
  }

  method FoldRows(lines: seq<string>, prefix: string) returns (out: string)
    ensures out == prefix + Unrows(Records(lines))
  {
    out := prefix;
    var i := 0;
    ghost var whole := prefix + Unrows(Records(lines));
    assert lines[0..] == lines;
    while i < |lines|
      invariant i <= |lines|
      invariant out + Unrows(Records(lines[i..])) == whole
    {
      out, i := FoldRun(out, lines, i);
    }
    assert lines[i..] == [];
  }

  /** The run that starts at line `i`, and where it ends. */
  method FoldRun(buffer: string, lines: seq<string>, i: nat) returns (out: string, end: nat)
    requires i < |lines|
    ensures i < end <= |lines|
    ensures out + Unrows(Records(lines[end..])) == buffer + Unrows(Records(lines[i..]))
  {
    end := RunEnd(lines, i);
    FoldStep(buffer, lines, i, end);
    out := PushRun(buffer, lines[i], end - i);
  }

  method RunEnd(lines: seq<string>, i: nat) returns (end: nat)
    requires i < |lines|
    ensures i < end <= |lines| && forall k :: i <= k < end ==> lines[k] == lines[i]
    ensures end < |lines| ==> lines[end] != lines[i]
  {
    end := i + 1;
    while end < |lines| && lines[end] == lines[i]
      invariant i < end <= |lines|
      invariant forall k :: i <= k < end ==> lines[k] == lines[i]
    {
      end := end + 1;
    }
  }

  lemma FoldStep(buffer: string, lines: seq<string>, i: nat, end: nat)
    requires i < end <= |lines| && forall k :: i <= k < end ==> lines[k] == lines[i]
    requires end < |lines| ==> lines[end] != lines[i]
    ensures buffer + Unrows(RunRecords(lines[i], end - i)) + Unrows(Records(lines[end..]))
            == buffer + Unrows(Records(lines[i..]))
  {
    RunIs(lines[i..], end - i);
    assert lines[i..][end - i..] == lines[end..];
    BufferAppend(buffer, RunRecords(lines[i], end - i), Records(lines[end..]));
  }

  method PushRun(buffer: string, row: string, n: nat) returns (out: string)
    requires n >= 1
    ensures out == buffer + Unrows(RunRecords(row, n))
  {
    out := buffer + (row + "\n");
    UnrowsOne(row);
    if n > 1 {
      var repetition := OPEN + Decimal(n - 1) + CLOSE;
      BufferEnd(buffer, [row], repetition);
      out := out + (repetition + "\n");
    }
  }

  lemma {:induction false} RunIs(rows: seq<string>, n: nat)
    requires 1 <= n <= |rows|
    requires forall k :: 0 <= k < n ==> rows[k] == rows[0]
    requires n < |rows| ==> rows[n] != rows[0]
    ensures RunLength(rows) == n
  {
    if n > 1 {
      assert rows[1] == rows[0];
      RunIs(rows[1..], n - 1);
    }
  }

  // ----- the folded form is exact and maximal

  predicate Foldable(rows: seq<string>) {
    AllNoLf(rows) && forall i :: 0 <= i < |rows| ==> !(OPEN <= rows[i])
  }

  lemma PlainPiece(row: string)
    requires !(OPEN <= row)
    ensures RepeatCount(row + "\n").None?
  {
    if OPEN <= row + "\n" {
      assert (row + "\n")[7] == OPEN[7];
      assert row == (row + "\n")[..|row|];
    }
  }

  lemma RepetitionPiece(n: nat)
    ensures RepeatCount(OPEN + Decimal(n) + CLOSE + "\n") == Some(Decimal(n))
    ensures NoLf(OPEN + Decimal(n) + CLOSE)
  {
    DecimalRoundTrip(n);
    PieceParts(OPEN + Decimal(n) + CLOSE + "\n", Decimal(n));
  }

  lemma PieceParts(piece: string, count: string)
    requires piece == OPEN + count + CLOSE + "\n"
    ensures RepeatCount(piece) == Some(count)
  {
    assert piece == OPEN + (count + (CLOSE + "\n"));
    assert piece[8..] == count + (CLOSE + "\n");
    assert piece[8..][|count|..] == CLOSE + "\n";
    assert piece[8..|piece| - 7] == piece[8..][..|count|] == count;
  }

  /** Every repetition ends within the limit, `size` bytes coming before the rows. */
  predicate Bounded(rows: seq<string>, size: nat)
    decreases |rows|
  {
    rows == []
    || var n := RunLength(rows);
       var next := size + |Repeated(rows[0] + "\n", n)|;
       (n > 1 ==> next <= LIMIT) && Bounded(rows[n..], next)
  }

  /** A text within the limit has its repetitions within the limit. */
  lemma RunSize(rows: seq<string>)
    requires rows != []
    ensures var n := RunLength(rows);
            |Unrows(rows)| == |Repeated(rows[0] + "\n", n)| + |Unrows(rows[n..])|
  {
    RunText(rows, RunLength(rows));
  }

  lemma {:induction false} WithinIsBounded(rows: seq<string>, size: nat)
    requires size + |Unrows(rows)| <= LIMIT
    ensures Bounded(rows, size)
    decreases |rows|
  {
    if rows != [] {
      RunSize(rows);
      WithinIsBounded(rows[RunLength(rows)..], size + |Repeated(rows[0] + "\n", RunLength(rows))|);
    }
  }

  lemma RepeatIs(count: string, n: nat, out: string, row: string)
    requires row != "" && ParseUsize(count) == if n < USIZE_LIMIT then Some(n) else None
    ensures Repeat(count, out, Some(row))
            == if |out| + |Repeated(row, n)| <= LIMIT then Ok(out + Repeated(row, n)) else Err
  {
    RepeatedLength(row, n);
    AtLeastOnce(n, |row|);
  }

  lemma AtLeastOnce(n: nat, size: nat)
    requires size > 0
    ensures n <= n * size
  {
  }

  /** A run at the front decodes to its copies, unless its repetition passes the limit. */
  lemma RunReplay(row: string, n: nat, rest: seq<string>, out: string, previous: Option<string>)
    requires n >= 1 && !(OPEN <= row)
    ensures Replay(Terminated(RunRecords(row, n)) + rest, out, previous)
            == if n > 1 && |out| + |Repeated(row + "\n", n)| > LIMIT then Err
               else Replay(rest, out + Repeated(row + "\n", n), Some(row + "\n"))
  {
    var first := out + (row + "\n");
    ConcatAssoc(out, row + "\n", Repeated(row + "\n", n - 1));
    PlainPiece(row);
    if n == 1 {
      assert Terminated([row]) == [row + "\n"] + Terminated([]);
      assert first + "" == first;
      ReplayPlain(row, rest, out, previous);
    } else {
      FoldedReplay(row, n - 1, rest, first);
      RunPieces(row, n, rest, out, previous);
    }
  }

  lemma RunPieces(row: string, n: nat, rest: seq<string>, out: string, previous: Option<string>)
    requires n > 1 && RepeatCount(row + "\n").None?
    ensures Replay(Terminated(RunRecords(row, n)) + rest, out, previous)
            == Replay([OPEN + Decimal(n - 1) + CLOSE + "\n"] + rest, out + (row + "\n"), Some(row + "\n"))
  {
    var repetition := OPEN + Decimal(n - 1) + CLOSE + "\n";
    TerminatedRun(row, n);
    ConcatAssoc([row + "\n"], [repetition], rest);
    ReplayPlain(row, [repetition] + rest, out, previous);
  }

  lemma FoldedReplay(row: string, n: nat, rest: seq<string>, out: string)
    ensures Replay([OPEN + Decimal(n) + CLOSE + "\n"] + rest, out, Some(row + "\n"))
            == if |out| + |Repeated(row + "\n", n)| <= LIMIT
               then Replay(rest, out + Repeated(row + "\n", n), Some(row + "\n")) else Err
  {
    RepetitionPiece(n);
    DecimalRoundTrip(n);
    RepeatIs(Decimal(n), n, out, row + "\n");
    ReplayRepetition(OPEN + Decimal(n) + CLOSE + "\n", Decimal(n), rest, out, Some(row + "\n"));
  }

  lemma TerminatedRun(row: string, n: nat)
    requires n > 1
    ensures Terminated(RunRecords(row, n)) == [row + "\n", OPEN + Decimal(n - 1) + CLOSE + "\n"]
  {
    var repetition := OPEN + Decimal(n - 1) + CLOSE;
    assert Terminated([repetition]) == [repetition + "\n"] + Terminated([]);
    assert Terminated([row, repetition]) == [row + "\n"] + Terminated([repetition]);
  }

  lemma ReplayRepetition(piece: string, count: string, rest: seq<string>, out: string, previous: Option<string>)
    requires RepeatCount(piece) == Some(count)
    ensures Replay([piece] + rest, out, previous)
            == match Repeat(count, out, previous)
               case Err => Err
               case Ok(more) => Replay(rest, more, previous)
  {
    assert ([piece] + rest)[1..] == rest;
  }

  lemma {:induction false} TerminatedAppend(a: seq<string>, b: seq<string>)
    ensures Terminated(a + b) == Terminated(a) + Terminated(b)
  {
    if a == [] {
      assert a + b == b;
    } else {
      TerminatedAppend(a[1..], b);
      assert (a + b)[1..] == a[1..] + b;
    }
  }

  lemma FirstRunReplay(rows: seq<string>, out: string, previous: Option<string>)
    requires rows != [] && Foldable(rows)
    ensures var n, row := RunLength(rows), rows[0];
            Replay(Terminated(Records(rows)), out, previous)
            == if n > 1 && |out| + |Repeated(row + "\n", n)| > LIMIT then Err
               else Replay(Terminated(Records(rows[n..])), out + Repeated(row + "\n", n), Some(row + "\n"))
  {
    var n := RunLength(rows);
    TerminatedAppend(RunRecords(rows[0], n), Records(rows[n..]));
    RunReplay(rows[0], n, Terminated(Records(rows[n..])), out, previous);
  }

  lemma FirstRunText(rows: seq<string>, out: string)
    requires rows != []
    ensures var n, row := RunLength(rows), rows[0];
            out + Unrows(rows) == out + Repeated(row + "\n", n) + Unrows(rows[n..])
  {
    var n := RunLength(rows);
    RunText(rows, n);
    ConcatAssoc(out, Repeated(rows[0] + "\n", n), Unrows(rows[n..]));
  }

  lemma {:induction false} RecordsReplay(rows: seq<string>, out: string, previous: Option<string>)
    requires Foldable(rows)
    ensures Replay(Terminated(Records(rows)), out, previous)
            == if Bounded(rows, |out|) then Ok(out + Unrows(rows)) else Err
    decreases |rows|
  {
    if rows == [] {
      assert out + "" == out;
    } else {
      var n := RunLength(rows);
      var more := out + Repeated(rows[0] + "\n", n);
      FirstRunReplay(rows, out, previous);
      FirstRunText(rows, out);
      BoundedIs(rows, n, |out|, |more|);
      RecordsReplay(rows[n..], more, Some(rows[0] + "\n"));
    }
  }

  lemma BoundedIs(rows: seq<string>, n: nat, size: nat, next: nat)
    requires rows != [] && n == RunLength(rows) && next == size + |Repeated(rows[0] + "\n", n)|
    ensures Bounded(rows, size) <==> (n > 1 ==> next <= LIMIT) && Bounded(rows[n..], next)
  {
  }

  lemma {:induction false} RecordsNoLf(rows: seq<string>)
    requires AllNoLf(rows)
    ensures AllNoLf(Records(rows))
    decreases |rows|
  {
    if rows != [] {
      RecordsNoLf(rows[RunLength(rows)..]);
      RepetitionPiece(RunLength(rows) - 1);
    }
  }

  /** Folded rows expand to exactly the rows they fold; only a repetition that
      ends beyond the limit is refused. */
  lemma FoldRoundTrip(rows: seq<string>)
    requires Foldable(rows)
    ensures Expanded(Unrows(Records(rows))) == if Bounded(rows, 0) then Ok(Unrows(rows)) else Err
  {
    RecordsNoLf(rows);
    LinesOfUnrows(Records(rows));
    RecordsReplay(rows, "", None);
    assert "" + Unrows(rows) == Unrows(rows);
  }

  /** The rows that start a run, in order. */
  function Heads(rows: seq<string>): seq<string>
    decreases |rows|
  {
    if rows == [] then [] else [rows[0]] + Heads(rows[RunLength(rows)..])
  }

  function IsRepetition(record: string): bool {
    RepeatCount(record + "\n").Some?
  }

  /** The records that are not repetitions. */
  function Plain(records: seq<string>): seq<string> {
    if records == [] then []
    else if IsRepetition(records[0]) then Plain(records[1..])
    else [records[0]] + Plain(records[1..])
  }

  /** Folding is maximal: the rows it shows are the run heads, and no two
      neighbours among them are equal. */
  lemma {:induction false} FoldIsMaximal(rows: seq<string>)
    requires Foldable(rows)
    ensures Plain(Records(rows)) == Heads(rows)
    ensures forall i :: 0 < i < |Heads(rows)| ==> Heads(rows)[i - 1] != Heads(rows)[i]
    decreases |rows|
  {
    if rows != [] {
      var n := RunLength(rows);
      FoldIsMaximal(rows[n..]);
      PlainRun(rows[0], n, Records(rows[n..]));
    }
  }

  lemma PlainRun(row: string, n: nat, rest: seq<string>)
    requires n >= 1 && !(OPEN <= row)
    ensures Plain(RunRecords(row, n) + rest) == [row] + Plain(rest)
  {
    PlainPiece(row);
    if n == 1 {
      assert ([row] + rest)[1..] == rest;
    } else {
      RepetitionPiece(n - 1);
      var repetition := OPEN + Decimal(n - 1) + CLOSE;
      assert ([row, repetition] + rest)[1..] == [repetition] + rest;
      assert ([repetition] + rest)[1..] == rest;
    }
  }

  // ----- `logs`

  predicate LogsGuard(raw: string) {
    Contains(raw, OPEN) || !EndsWithLf(raw)
  }

  method Logs(raw: string) returns (out: string)
    ensures out == if Contains(raw, "[repeat ") || !EndsWithLf(raw) then raw else Unrows(Records(Lines(raw)))
  {
    if LogsGuard(raw) {
      return raw;
    }
    out := FoldRows(Lines(raw), "");
    assert "" + Unrows(Records(Lines(raw))) == Unrows(Records(Lines(raw)));
  }

  /** Dropping the CR of a CRLF row shortens the text. */
  lemma {:induction false} StripCrsLength(rows: seq<string>)
    ensures |Unrows(StripCrs(rows))| <= |Unrows(rows)|
    ensures |Unrows(StripCrs(rows))| == |Unrows(rows)| ==> StripCrs(rows) == rows
  {
    if rows != [] {
      StripCrsLength(rows[1..]);
    }
  }

  lemma {:induction false} CrLfIsInARow(rows: seq<string>, i: nat)
    requires AllNoLf(rows)
    requires i <= |Unrows(rows)| && "\r\n" <= Unrows(rows)[i..]
    ensures exists k :: 0 <= k < |rows| && EndsWith(rows[k], "\r")
  {
    var text := Unrows(rows);
    assert text[i..][0] == '\r' && text[i..][1] == '\n';
    assert text[i] == '\r' && text[i + 1] == '\n';
    if rows != [] {
      var size := |rows[0]|;
      if i < size {
        assert text[i + 1] != '\n' || i + 1 == size;
        assert rows[0][size - 1] == '\r';
        assert EndsWith(rows[0], "\r");
      } else {
        var rest := Unrows(rows[1..]);
        assert text[size] == '\n';
        assert text[i..] == rest[i - size - 1..];
        CrLfIsInARow(rows[1..], i - size - 1);
        var k :| 0 <= k < |rows[1..]| && EndsWith(rows[1..][k], "\r");
        assert EndsWith(rows[k + 1], "\r");
      }
    }
  }

  lemma CrRowOccurs(rows: seq<string>, k: nat)
    requires k < |rows|
    ensures EndsWith(rows[k], "\r") ==> Contains(Unrows(rows), "\r\n")
  {
    if EndsWith(rows[k], "\r") {
      RowOccurs(rows, k, rows[k][..|rows[k]| - 1], "\r\n");
    }
  }

  lemma StrippingKeeps(rows: seq<string>)
    requires AllNoLf(rows)
    ensures StripCrs(rows) == rows <==> !Contains(Unrows(rows), "\r\n")
  {
    forall k | 0 <= k < |rows|
      ensures EndsWith(rows[k], "\r") ==> Contains(Unrows(rows), "\r\n")
    {
      CrRowOccurs(rows, k);
    }
    if Contains(Unrows(rows), "\r\n") {
      var i :| 0 <= i <= |Unrows(rows)| && "\r\n" <= Unrows(rows)[i..];
      CrLfIsInARow(rows, i);
      var k :| 0 <= k < |rows| && EndsWith(rows[k], "\r");
      assert |StripCr(rows[k])| < |rows[k]|;
    } else {
      assert forall k :: 0 <= k < |rows| ==> StripCrs(rows)[k] == rows[k];
    }
  }

  /** `str::lines` loses nothing exactly when no row ends with CRLF. */
  lemma LinesAreExact(raw: string)
    requires EndsWithLf(raw)
    ensures Lines(raw) == StripCrs(Rows(raw))
    ensures Unrows(Lines(raw)) == raw <==> !Contains(raw, "\r\n")
    ensures |Unrows(Lines(raw))| <= |raw|
  {
    RowsNoLf(raw);
    UnrowsOfRows(raw);
    LinesOfUnrows(Rows(raw));
    StripCrsLength(Rows(raw));
    StrippingKeeps(Rows(raw));
  }

  lemma RowStartOccurs(raw: string, k: nat, pattern: string)
    requires EndsWithLf(raw) && k < |Rows(raw)|
    ensures pattern <= Rows(raw)[k] ==> Contains(raw, pattern)
  {
    UnrowsOfRows(raw);
    var row := Rows(raw)[k] + "\n";
    RowOccurs(Rows(raw), k, "", row);
    var i :| 0 <= i <= |raw| && row <= raw[i..];
    assert pattern <= Rows(raw)[k] ==> pattern <= raw[i..];
  }

  lemma UnguardedIsFoldable(raw: string)
    requires EndsWithLf(raw) && !Contains(raw, OPEN)
    ensures Foldable(Lines(raw))
  {
    LinesAreExact(raw);
    RowsNoLf(raw);
    forall k | 0 <= k < |Rows(raw)|
      ensures !(OPEN <= Lines(raw)[k]) && NoLf(Lines(raw)[k])
    {
      RowStartOccurs(raw, k, OPEN);
      assert Lines(raw)[k] == StripCr(Rows(raw)[k]);
    }
  }

  /** `logs` has no check of its own. Its folded view expands to the original
      exactly when the original has no CRLF row and no repetition ends beyond
      512 MiB, as none does in a text of at most 512 MiB. */
  lemma LogsRoundTrip(raw: string)
    requires !LogsGuard(raw)
    ensures Expanded(Unrows(Records(Lines(raw)))) == Ok(raw)
            <==> !Contains(raw, "\r\n") && Bounded(Lines(raw), 0)
    ensures |raw| <= LIMIT ==> Bounded(Lines(raw), 0)
  {
    UnguardedIsFoldable(raw);
    LinesAreExact(raw);
    FoldRoundTrip(Lines(raw));
    if |raw| <= LIMIT {
      WithinIsBounded(Lines(raw), 0);
    }
  }

  // ----- `log_runs`

  const LEVELS := ["INFO ", "DEBUG ", "WARN ", "WARNING ", "ERROR ", "CRITICAL "]
  const STDERR := "[stderr]\n"

  predicate HasLevel(line: string) {
    exists i :: 0 <= i < |LEVELS| && LEVELS[i] <= line
  }

  function Body(raw: string): string {
    if STDERR <= raw then raw[|STDERR|..] else raw
  }

  function Prefix(raw: string): string {
    if STDERR <= raw then STDERR else ""
  }

  /** The explicit shape tests. */
  predicate IsLog(raw: string) {
    var lines := Lines(Body(raw));
    EndsWithLf(Body(raw)) && |lines| >= 20 && forall i :: 0 <= i < |lines| ==> HasLevel(lines[i])
  }

  predicate IsLevelLine(line: string) {
    "INFO " <= line || "DEBUG " <= line || "WARN " <= line || "WARNING " <= line || "ERROR " <= line
    || "CRITICAL " <= line
  }

  lemma LevelsAre(line: string)
    ensures HasLevel(line) <==> IsLevelLine(line)
  {
    assert LEVELS[0] == "INFO " && LEVELS[1] == "DEBUG " && LEVELS[2] == "WARN ";
    assert LEVELS[3] == "WARNING " && LEVELS[4] == "ERROR " && LEVELS[5] == "CRITICAL ";
  }

  lemma AllLevelsAre(rows: seq<string>)
    ensures (forall i :: 0 <= i < |rows| ==> HasLevel(rows[i])) <==> AllLevelLines(rows)
  {
    forall i | 0 <= i < |rows|
      ensures HasLevel(rows[i]) <==> IsLevelLine(rows[i])
    {
      LevelsAre(rows[i]);
    }
  }

  predicate AllLevelLines(rows: seq<string>) {
    forall i :: 0 <= i < |rows| ==> IsLevelLine(rows[i])
  }

  /** Which rows make a log: twenty or more, each with a level, after a heading for
      stderr or none. */
  lemma LevelLinesAreLogs(raw: string, rows: seq<string>)
    requires AllNoLf(rows) && StripCrs(rows) == rows
    requires raw == "[stderr]\n" + Unrows(rows) || (raw == Unrows(rows) && !("[stderr]\n" <= raw))
    ensures IsLog(raw) <==> |rows| >= 20 && AllLevelLines(rows)
  {
    AfterHeading(raw, Unrows(rows));
    LinesOfUnrows(rows);
    if rows != [] {
      EndsInLf(rows);
    }
    AllLevelsAre(rows);
    LogIs(raw, rows);
  }

  lemma LogIs(raw: string, rows: seq<string>)
    requires Lines(Body(raw)) == rows && (rows != [] ==> EndsWithLf(Body(raw)))
    ensures IsLog(raw) <==> |rows| >= 20 && forall i :: 0 <= i < |rows| ==> HasLevel(rows[i])
  {
  }

  lemma AfterHeading(raw: string, text: string)
    requires raw == "[stderr]\n" + text || (raw == text && !("[stderr]\n" <= raw))
    ensures Body(raw) == text
  {
    assert ("[stderr]\n" + text)[9..] == text;
  }

  lemma {:induction false} EndsInLf(rows: seq<string>)
    requires rows != []
    ensures EndsWithLf(Unrows(rows))
  {
    if |rows| > 1 {
      EndsInLf(rows[1..]);
    } else {
      assert Unrows(rows) == rows[0] + "\n";
    }
  }

  /** `log_runs`: the view is kept only if it expands to the original, and that
      test fails exactly on CRLF rows and on repetitions beyond the limit. */
  method LogRuns(raw: string) returns (view: Option<string>)
    ensures view.Some? <==>
              IsLog(raw) && !Contains(Body(raw), "\r\n") && Bounded(Lines(Body(raw)), |Prefix(raw)|)
    ensures view.Some? ==> view.value == Prefix(raw) + Unrows(Records(Lines(Body(raw))))
    ensures view.Some? ==> Expanded(view.value) == Ok(raw)
  {
    var prefix, body := Prefix(raw), Body(raw);
    if !IsLog(raw) {
      return None;
    }
    var out := FoldRows(Lines(body), prefix);
    var back := ExpandRuns(out);
    LogRunsCheck(raw);
    view := if back == Ok(raw) then Some(out) else None;
  }

  lemma LevelsAreFoldable(raw: string)
    requires IsLog(raw)
    ensures Foldable(Lines(Body(raw)))
  {
    var lines := Lines(Body(raw));
    LinesAreExact(Body(raw));
    RowsNoLf(Body(raw));
    forall k | 0 <= k < |lines|
      ensures !(OPEN <= lines[k]) && NoLf(lines[k])
    {
      NoBracket(lines[k]);
    }
  }

  lemma NoBracket(line: string)
    requires HasLevel(line)
    ensures !(OPEN <= line)
  {
    assert line[0] != '[';
  }

  lemma LogRunsCheck(raw: string)
    requires IsLog(raw)
    ensures Expanded(Prefix(raw) + Unrows(Records(Lines(Body(raw))))) == Ok(raw)
            <==> !Contains(Body(raw), "\r\n") && Bounded(Lines(Body(raw)), |Prefix(raw)|)
    ensures |raw| <= LIMIT && !Contains(Body(raw), "\r\n") ==> Bounded(Lines(Body(raw)), |Prefix(raw)|)
  {
    var lines := Lines(Body(raw));
    LinesAreExact(Body(raw));
    LogRunsExpand(raw);
    BodyBack(raw, Unrows(lines));
    if |raw| <= LIMIT {
      WithinIsBounded(lines, |Prefix(raw)|);
    }
  }

  lemma BodyBack(raw: string, text: string)
    ensures Prefix(raw) + Body(raw) == raw && |Prefix(raw)| + |Body(raw)| == |raw|
    ensures Prefix(raw) + text == raw <==> text == Body(raw)
  {
    assert Prefix(raw) + Body(raw) == raw;
    assert (Prefix(raw) + text)[|Prefix(raw)|..] == text;
    assert (Prefix(raw) + Body(raw))[|Prefix(raw)|..] == Body(raw);
  }

  lemma LogRunsExpand(raw: string)
    requires IsLog(raw)
    ensures var lines := Lines(Body(raw));
            Expanded(Prefix(raw) + Unrows(Records(lines)))
            == if Bounded(lines, |Prefix(raw)|) then Ok(Prefix(raw) + Unrows(lines)) else Err
  {
    var lines := Lines(Body(raw));
    LevelsAreFoldable(raw);
    if STDERR <= raw {
      StderrReplay(lines);
    } else {
      FoldRoundTrip(lines);
      assert "" + Unrows(Records(lines)) == Unrows(Records(lines));
      assert "" + Unrows(lines) == Unrows(lines);
    }
  }

  lemma StderrReplay(lines: seq<string>)
    requires Foldable(lines)
    ensures Expanded(STDERR + Unrows(Records(lines)))
            == if Bounded(lines, |STDERR|) then Ok(STDERR + Unrows(lines)) else Err
  {
    var head := "[stderr]";
    assert head[1] != OPEN[1] && STDERR == head + "\n";
    HeadedReplay(head, lines);
  }

  lemma HeadedReplay(head: string, lines: seq<string>)
    requires Foldable(lines) && NoLf(head) && !(OPEN <= head)
    ensures Expanded(head + "\n" + Unrows(Records(lines)))
            == if Bounded(lines, |head| + 1) then Ok(head + "\n" + Unrows(lines)) else Err
  {
    RecordsNoLf(lines);
    RecordsReplay(lines, head + "\n", Some(head + "\n"));
    LinesOfUnrows(Records(lines));
    AfterHead(head, Unrows(Records(lines)));
  }

  lemma AfterHead(head: string, body: string)
    requires NoLf(head) && !(OPEN <= head)
    ensures Expanded(head + "\n" + body) == Replay(Pieces(body), head + "\n", Some(head + "\n"))
  {
    PlainPiece(head);
    PiecesCons(head, body);
    ReplayPlain(head, Pieces(body), "", None);
    assert "" + (head + "\n") == head + "\n";
  }

  lemma ReplayPlain(row: string, rest: seq<string>, out: string, previous: Option<string>)
    requires RepeatCount(row + "\n").None?
    ensures Replay([row + "\n"] + rest, out, previous) == Replay(rest, out + (row + "\n"), Some(row + "\n"))
  {
    assert ([row + "\n"] + rest)[1..] == rest;
  }
}

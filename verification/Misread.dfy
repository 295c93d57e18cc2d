/** Texts that are not views but are read as one: each decoder of
    `reversible_views.rs` and `patch_view.rs` applied to a text that happens to
    begin with its heading or to hold its marks. */
module Misread {
  import opened Text
  import JsonString
  import PatchView
  import PathFolds
  import RunFolds

  // ----- the run decoder keeps a text exactly when it holds no repetition row

  predicate NoRepetition(pieces: seq<string>) {
    forall i :: 0 <= i < |pieces| ==> RunFolds.RepeatCount(pieces[i]).None?
  }

  function Concat(pieces: seq<string>): string {
    if pieces == [] then "" else pieces[0] + Concat(pieces[1..])
  }

  /** One row with its LF. */
  predicate IsRow(piece: string) {
    EndsWithLf(piece) && NoLf(piece[..|piece| - 1])
  }

  /** Rows, and perhaps a last piece without LF. */
  predicate WellCut(pieces: seq<string>) {
    forall i :: 0 <= i < |pieces| ==> IsRow(pieces[i]) || (i == |pieces| - 1 && pieces[i] != "" && NoLf(pieces[i]))
  }

  lemma {:induction false} PiecesAreWellCut(s: string)
    ensures WellCut(Pieces(s)) && Concat(Pieces(s)) == s
    decreases |s|
  {
    if s != "" {
      var k := Find(s, '\n');
      if k == |s| {
        assert s[..k] == s;
        assert Concat([s]) == s + Concat([]);
      } else {
        PiecesAreWellCut(s[k + 1..]);
        var row := s[..k] + "\n";
        assert row[..|row| - 1] == s[..k];
        SplitAt(s, k);
        assert Pieces(s)[1..] == Pieces(s[k + 1..]);
      }
    }
  }

  /** The first row of a text is determined by the text. */
  lemma FirstRowUnique(a: string, x: string, b: string, y: string)
    requires IsRow(a) && IsRow(b) && a + x == b + y
    ensures a == b
  {
    var rowA, rowB := a[..|a| - 1], b[..|b| - 1];
    assert a + x == rowA + ['\n'] + x && b + y == rowB + ['\n'] + y;
    FindAt(rowA, '\n', x);
    FindAt(rowB, '\n', y);
    assert |a| == |b|;
    assert a == (a + x)[..|a|] == b;
  }

  /** What may be repeated next. */
  predicate Repeatable(previous: Option<string>) {
    match previous
    case None => true
    case Some(row) => IsRow(row) && RunFolds.RepeatCount(row).None?
  }

  lemma RepetitionIsRow(piece: string)
    requires RunFolds.RepeatCount(piece).Some?
    ensures EndsWithLf(piece)
  {
    assert piece[8..][|piece[8..]| - 1] == '\n';
  }

  /** Copies of another row are not this repetition row. */
  lemma CopiesDiffer(pieces: seq<string>, out: string, row: string, n: nat, piece: string, tail: string)
    requires n > 0 && IsRow(row) && IsRow(piece) && row != piece
    ensures RunFolds.Replay(pieces, out + Repeated(row, n), Some(row)) != Ok(out + (piece + tail))
  {
    RunFolds.ReplayExtends(pieces, out + Repeated(row, n), Some(row));
    var r := RunFolds.Replay(pieces, out + Repeated(row, n), Some(row));
    if r == Ok(out + (piece + tail)) {
      var more := Repeated(row, n - 1);
      ConcatAssoc(out, row, more);
      var rest := r.value[|out| + |row + more|..];
      assert r.value == out + (row + more) + rest;
      SameTail(out, row + more + rest, piece + tail);
      ConcatAssoc(row, more, rest);
      FirstRowUnique(row, more + rest, piece, tail);
    }
  }

  lemma SameTail(out: string, a: string, b: string)
    ensures out + a == out + b ==> a == b
  {
    assert (out + a)[|out|..] == a && (out + b)[|out|..] == b;
  }

  /** Once a repetition row is consumed, the output can no longer continue with it. */
  lemma {:induction false} NeverThatRow(pieces: seq<string>, out: string, previous: Option<string>, piece: string,
                                        tail: string)
    requires WellCut(pieces) && (pieces != [] ==> Repeatable(previous))
    requires IsRow(piece) && RunFolds.RepeatCount(piece).Some?
    ensures RunFolds.Replay(pieces, out, previous) != Ok(out + (piece + tail))
    decreases |pieces|
  {
    if pieces != [] {
      match RunFolds.RepeatCount(pieces[0])
      case None => OtherRowFirst(pieces, out, piece, tail);
      case Some(count) =>
        if RunFolds.Repeat(count, out, previous).Ok? {
          var n := ParseUsize(count).value;
          if n == 0 {
            assert out + Repeated(previous.value, 0) == out;
            NeverThatRow(pieces[1..], out, previous, piece, tail);
          } else {
            CopiesDiffer(pieces[1..], out, previous.value, n, piece, tail);
          }
        }
    }
  }

  lemma OtherRowFirst(pieces: seq<string>, out: string, piece: string, tail: string)
    requires WellCut(pieces) && pieces != [] && RunFolds.RepeatCount(pieces[0]).None?
    requires IsRow(piece) && RunFolds.RepeatCount(piece).Some?
    ensures RunFolds.Replay(pieces[1..], out + pieces[0], Some(pieces[0])) != Ok(out + (piece + tail))
  {
    var first := pieces[0];
    if IsRow(first) {
      assert Repeated(first, 1) == first + Repeated(first, 0);
      assert first + Repeated(first, 0) == first;
      CopiesDiffer(pieces[1..], out, first, 1, piece, tail);
    } else {
      assert pieces[1..] == [];
      LfInside(first, piece, tail);
      SameTail(out, first, piece + tail);
    }
  }

  lemma LfInside(first: string, piece: string, tail: string)
    requires NoLf(first) && IsRow(piece)
    ensures first != piece + tail
  {
    assert (piece + tail)[|piece| - 1] == '\n';
  }

  lemma NoneAmongOthers(pieces: seq<string>)
    requires pieces != [] && RunFolds.RepeatCount(pieces[0]).None?
    ensures NoRepetition(pieces) <==> NoRepetition(pieces[1..])
  {
    assert pieces == [pieces[0]] + pieces[1..];
  }

  /** The run decoder gives a text back if and only if no row of it is a repetition. */
  lemma {:induction false} KeptIffNoRepetition(pieces: seq<string>, out: string, previous: Option<string>)
    requires WellCut(pieces) && (pieces != [] ==> Repeatable(previous))
    ensures RunFolds.Replay(pieces, out, previous) == Ok(out + Concat(pieces)) <==> NoRepetition(pieces)
    decreases |pieces|
  {
    if pieces == [] {
      assert out + "" == out;
    } else {
      ConcatAssoc(out, pieces[0], Concat(pieces[1..]));
      match RunFolds.RepeatCount(pieces[0])
      case None =>
        KeptIffNoRepetition(pieces[1..], out + pieces[0], Some(pieces[0]));
        NoneAmongOthers(pieces);
      case Some(count) =>
        RepetitionIsRow(pieces[0]);
        RepetitionConsumed(pieces, out, previous, count);
    }
  }

  lemma RepetitionConsumed(pieces: seq<string>, out: string, previous: Option<string>, count: string)
    requires WellCut(pieces) && pieces != [] && Repeatable(previous) && EndsWithLf(pieces[0])
    requires RunFolds.RepeatCount(pieces[0]) == Some(count)
    ensures RunFolds.Replay(pieces, out, previous) != Ok(out + (pieces[0] + Concat(pieces[1..])))
  {
    if RunFolds.Repeat(count, out, previous).Ok? {
      var n := ParseUsize(count).value;
      if n == 0 {
        assert out + Repeated(previous.value, 0) == out;
        NeverThatRow(pieces[1..], out, previous, pieces[0], Concat(pieces[1..]));
      } else {
        CopiesDiffer(pieces[1..], out, previous.value, n, pieces[0], Concat(pieces[1..]));
      }
    }
  }

  /** The same for a whole text. */
  lemma RunsKeepIff(text: string)
    ensures RunFolds.Expanded(text) == Ok(text) <==> NoRepetition(Pieces(text))
  {
    PiecesAreWellCut(text);
    KeptIffNoRepetition(Pieces(text), "", None);
    assert "" + text == text;
  }

  const REPEAT := "\n[repeat "

  /** A repetition row is the first row of a text or follows an LF. */
  lemma {:induction false} UnmarkedHasNone(s: string)
    ensures Contains(s, REPEAT) || RunFolds.OPEN <= s || NoRepetition(Pieces(s))
    decreases |s|
  {
    if s != "" {
      var k := Find(s, '\n');
      if k < |s| {
        var rest := s[k + 1..];
        UnmarkedHasNone(rest);
        MarkLater(s, k);
        RestUnmarked(s[..k] + "\n", rest);
        SplitAt(s, k);
      } else {
        assert s[..k] == s;
      }
    }
  }

  lemma MarkLater(s: string, k: nat)
    requires k < |s| && s[k] == '\n'
    ensures Contains(s[k + 1..], REPEAT) || RunFolds.OPEN <= s[k + 1..] ==> Contains(s, REPEAT)
  {
    var rest := s[k + 1..];
    if RunFolds.OPEN <= rest {
      assert s[k..] == "\n" + rest;
      assert "\n" + RunFolds.OPEN == REPEAT;
    } else if Contains(rest, REPEAT) {
      var i :| 0 <= i <= |rest| && REPEAT <= rest[i..];
      assert s[k + 1 + i..] == rest[i..];
    }
  }

  lemma RestUnmarked(row: string, rest: string)
    ensures NoRepetition(Pieces(rest)) ==> RunFolds.OPEN <= row || NoRepetition([row] + Pieces(rest))
  {
  }

  // ----- a row after the view, as the recall hint is

  lemma {:induction false} ReplaySnoc(pieces: seq<string>, piece: string, out: string, previous: Option<string>)
    requires RunFolds.RepeatCount(piece).None?
    ensures RunFolds.Replay(pieces + [piece], out, previous)
            == match RunFolds.Replay(pieces, out, previous)
               case Err => Err
               case Ok(text) => Ok(text + piece)
    decreases |pieces|
  {
    if pieces == [] {
      assert [] + [piece] == [piece];
    } else {
      assert (pieces + [piece])[1..] == pieces[1..] + [piece];
      match RunFolds.RepeatCount(pieces[0])
      case None => ReplaySnoc(pieces[1..], piece, out + pieces[0], Some(pieces[0]));
      case Some(count) =>
        if RunFolds.Repeat(count, out, previous).Ok? {
          ReplaySnoc(pieces[1..], piece, RunFolds.Repeat(count, out, previous).value, previous);
        }
    }
  }

  lemma HasLf(text: string)
    requires EndsWithLf(text)
    ensures Find(text, '\n') < |text|
  {
    assert text[..|text|] == text;
  }

  lemma {:induction false} PiecesSnoc(text: string, row: string)
    requires EndsWithLf(text) && NoLf(row)
    ensures Pieces(text + (row + "\n")) == Pieces(text) + [row + "\n"]
    decreases |text|
  {
    var k := Find(text, '\n');
    HasLf(text);
    var head, rest := text[..k], text[k + 1..];
    SplitAt(text, k);
    ConcatAssoc(head + "\n", rest, row + "\n");
    PiecesCons(head, rest + (row + "\n"));
    PiecesCons(head, rest);
    if rest == "" {
      PiecesCons(row, "");
      assert rest + (row + "\n") == row + "\n" + "";
    } else {
      PiecesSnoc(rest, row);
    }
    ConcatAssoc([head + "\n"], Pieces(rest), [row + "\n"]);
  }

  /** A row after a view that is no repetition stays in the decoded text. */
  lemma RunsKeepRow(view: string, row: string)
    requires EndsWithLf(view) && NoLf(row) && !(RunFolds.OPEN <= row)
    ensures RunFolds.Expanded(view + (row + "\n"))
            == match RunFolds.Expanded(view)
               case Err => Err
               case Ok(text) => Ok(text + (row + "\n"))
  {
    PiecesSnoc(view, row);
    RunFolds.PlainPiece(row);
    ReplaySnoc(Pieces(view), row + "\n", "", None);
  }

  // ----- the path decoder writes fewer rows than it reads

  /** Every line of a fold writes at most one row. */
  lemma {:induction false} UnfoldRows(lines: seq<string>, prefix: Option<string>, search: bool, rows: seq<string>)
    returns (all: seq<string>)
    requires AllNoLf(lines) && AllNoLf(rows) && (prefix.Some? ==> NoLf(prefix.value))
    ensures AllNoLf(all) && |all| <= |rows| + |lines|
    ensures var r := PathFolds.Unfold(lines, prefix, search, Unrows(rows)); r.Ok? ==> r.value == Unrows(all)
    decreases |lines|
  {
    all := rows;
    if lines != [] {
      if "@" <= lines[0] {
        all := UnfoldRows(lines[1..], Some(lines[0][1..]), search, rows);
      } else if " " <= lines[0] {
        if prefix.Some? {
          var row := prefix.value + (if search then ":" else "") + lines[0][1..];
          RowAppended(rows, row);
          all := UnfoldRows(lines[1..], prefix, search, rows + [row]);
        }
      } else if "=" <= lines[0] {
        RowAppended(rows, lines[0][1..]);
        all := UnfoldRows(lines[1..], prefix, search, rows + [lines[0][1..]]);
      }
    }
  }

  lemma RowAppended(rows: seq<string>, row: string)
    ensures Unrows(rows) + (row + "\n") == Unrows(rows + [row])
  {
    UnrowsSnoc(rows, row);
    ConcatAssoc(Unrows(rows), row, "\n");
  }

  lemma {:induction false} LinesShape(s: string)
    ensures AllNoLf(Lines(s)) && |Lines(s)| == |Rows(s)|
    decreases |s|
  {
    if s != "" {
      var k := Find(s, '\n');
      if k == |s| {
        assert s[..k] == s;
      } else {
        LinesShape(s[k + 1..]);
      }
    }
  }

  lemma HeadedRows(head: string, body: string)
    requires NoLf(head)
    ensures Rows(head + "\n" + body) == [head] + Rows(body) && |Rows(head + "\n" + body)| == 1 + |Lines(body)|
    ensures AllNoLf(Lines(body))
  {
    RowsCons(head, body);
    LinesShape(body);
  }

  /** A view with a path heading never decodes to a text of as many rows. */
  lemma PathsLoseRows(view: string, search: bool, text: string)
    requires PathFolds.Magic(search) <= view && |Rows(text)| >= |Rows(view)|
    ensures PathFolds.Expanded(view) != Ok(text)
  {
    var body := view[|PathFolds.Magic(search)|..];
    assert PathFolds.Magic(search) + body == view;
    MagicRow(search, body);
    BodyRows(search, body, text);
  }

  lemma MagicRow(search: bool, body: string)
    ensures AllNoLf(Lines(body)) && |Rows(PathFolds.Magic(search) + body)| == 1 + |Lines(body)|
  {
    var head := if search then "Matches v1" else "Paths v1";
    assert PathFolds.Magic(search) == head + "\n";
    HeadedRows(head, body);
  }

  lemma BodyRows(search: bool, body: string, text: string)
    requires AllNoLf(Lines(body)) && |Rows(text)| > |Lines(body)|
    ensures PathFolds.Expanded(PathFolds.Magic(search) + body) != Ok(text)
  {
    PathFolds.ExpandedBody(search, body);
    var rows := UnfoldRows(Lines(body), None, search, []);
    RowsOfUnrows(rows);
  }

  lemma {:induction false} UnfoldBad(lines: seq<string>, bad: string, prefix: Option<string>, search: bool, out: string)
    requires !("@" <= bad) && !(" " <= bad) && !("=" <= bad)
    ensures PathFolds.Unfold(lines + [bad], prefix, search, out) == Err
    decreases |lines|
  {
    if lines == [] {
      assert [] + [bad] == [bad];
    } else {
      assert (lines + [bad])[1..] == lines[1..] + [bad];
      if "@" <= lines[0] {
        UnfoldBad(lines[1..], bad, Some(lines[0][1..]), search, out);
      } else if " " <= lines[0] {
        if prefix.Some? {
          UnfoldBad(lines[1..], bad, prefix, search,
                    out + (prefix.value + (if search then ":" else "") + lines[0][1..] + "\n"));
        }
      } else if "=" <= lines[0] {
        UnfoldBad(lines[1..], bad, prefix, search, out + (lines[0][1..] + "\n"));
      }
    }
  }

  // ----- the Patch decoder never returns a text with the rows it read

  function Depth(row: string): nat {
    if "\\" <= row then 1 + Depth(row[1..]) else 0
  }

  lemma {:induction false} DepthFits(row: string)
    ensures Depth(row) <= |row|
  {
    if "\\" <= row {
      DepthFits(row[1..]);
    }
  }

  /** Backslashes, then a terminator or what looks like one. */
  predicate IsDeep(row: string) {
    if "\\" <= row then IsDeep(row[1..]) else "End " <= row
  }

  lemma Escaped(row: string)
    ensures Depth("\\" + row) == 1 + Depth(row) && (IsDeep("\\" + row) <==> IsDeep(row))
  {
    assert ("\\" + row)[1..] == row;
  }

  lemma {:induction false} DeepWithCr(row: string)
    requires IsDeep(row)
    ensures IsDeep(row + "\r") && Depth(row + "\r") == Depth(row)
  {
    if "\\" <= row {
      assert (row + "\r")[1..] == row[1..] + "\r";
      DeepWithCr(row[1..]);
    }
  }

  /** Such a row can only have been written with one more backslash. */
  predicate Sourced(row: string, records: seq<string>) {
    IsDeep(row) ==> "\\" + row in records
  }

  predicate AllSourced(rows: seq<string>, records: seq<string>) {
    forall i :: 0 <= i < |rows| ==> NoLf(rows[i]) && Sourced(rows[i], records)
  }

  /** The row that `Repeat` would repeat. */
  predicate Repeats(previous: string, row: string, records: seq<string>) {
    previous == "" || (previous == row + "\n" && NoLf(row) && Sourced(row, records))
  }

  lemma UnitRest(s: string, c: char)
    requires s != "" && JsonString.ParseUnit(s).Some? && c in JsonString.ParseUnit(s).value.1
    ensures c in s
  {
  }

  lemma {:induction false} BodyRest(s: string, c: char)
    requires JsonString.ParseBody(s).Some? && c in JsonString.ParseBody(s).value.1
    ensures c in s
    decreases |s|
  {
    if s[0] != '"' {
      var rest := JsonString.ParseUnit(s).value.1;
      BodyRest(rest, c);
      UnitRest(s, c);
    }
  }

  lemma {:induction false} WhitespaceRest(s: string, c: char)
    requires c in JsonString.SkipWhitespace(s)
    ensures c in s
  {
    if s != "" && JsonString.IsWhitespace(s[0]) {
      WhitespaceRest(s[1..], c);
    }
  }

  /** What follows a JSON value is part of the text. */
  lemma FirstRest(s: string)
    requires NoLf(s) && JsonString.ParseFirst(s).Some?
    ensures NoLf(JsonString.ParseFirst(s).value.1)
  {
    var rest := JsonString.ParseFirst(s).value.1;
    if '\n' in rest {
      var t := JsonString.SkipWhitespace(s);
      BodyRest(t[1..], '\n');
      assert '\n' in t;
      WhitespaceRest(s, '\n');
    }
  }

  lemma HeaderSourced(header: PatchView.FileHeader, records: seq<string>)
    requires NoLf(header.name) && NoLf(header.version)
    ensures AllSourced(header.Rows(), records)
  {
    var rows := header.Rows();
    assert rows[0][0] == 'd' && rows[1][0] == 'i' && rows[2][0] == '-' && rows[3][0] == '+';
  }

  /** What one record writes: whole rows, each of them sourced. */
  lemma ChunkSourced(row: string, st: PatchView.State, modern: bool, previous: string, records: seq<string>)
    returns (rows: seq<string>)
    requires NoLf(row) && row in records && Repeats(st.previous, previous, records)
    ensures var chunk := PatchView.Chunk(row, st, modern);
            chunk.Ok? ==> chunk.value == Unrows(rows) && AllSourced(rows, records)
  {
    rows := [];
    if "\\" <= row {
      rows := [row[1..]];
      UnrowsOne(row[1..]);
      assert "\\" + row[1..] == row;
    } else if modern && ("F " <= row || "FT " <= row) {
      rows := CompactSourced(row, records);
    } else if "File " <= row || "FileT " <= row {
      rows := FullSourced(row, records);
    } else if "Repeat " <= row {
      if PatchView.Repetition(row[7..], st).Ok? {
        rows := CopiesSourced(previous, ParseUsize(row[7..]).value, records);
      }
    } else if !("End " <= row) {
      rows := [row];
      UnrowsOne(row);
    }
  }

  lemma CompactSourced(row: string, records: seq<string>) returns (rows: seq<string>)
    requires NoLf(row) && ("F " <= row || "FT " <= row)
    ensures var chunk := PatchView.CompactHeader(row);
            chunk.Ok? ==> chunk.value == Unrows(rows) && AllSourced(rows, records)
  {
    rows := [];
    var tabbed := "FT " <= row;
    var fields := if tabbed then row[3..] else row[2..];
    match SplitOnce(fields, '\t')
    case None =>
    case Some((name, objects)) =>
      var header := PatchView.FileHeader(name, tabbed, objects + " 100644");
      rows := header.Rows();
      if NoLf(name) {
        HeaderSourced(header, records);
      }
  }

  lemma FullSourced(row: string, records: seq<string>) returns (rows: seq<string>)
    requires NoLf(row) && ("File " <= row || "FileT " <= row)
    ensures var chunk := PatchView.FullHeader(row);
            chunk.Ok? ==> chunk.value == Unrows(rows) && AllSourced(rows, records)
  {
    rows := [];
    var tabbed := "FileT " <= row;
    var fields := if tabbed then row[6..] else row[5..];
    match JsonString.ParseFirst(fields)
    case None =>
    case Some((name, rest)) =>
      FirstRest(fields);
      if NoLf(name) && " " <= rest {
        var header := PatchView.FileHeader(name, tabbed, rest[1..]);
        rows := header.Rows();
        HeaderSourced(header, records);
      }
  }

  lemma {:induction false} CopiesSourced(row: string, n: nat, records: seq<string>) returns (rows: seq<string>)
    requires NoLf(row) && Sourced(row, records)
    ensures Repeated(row + "\n", n) == Unrows(rows) && AllSourced(rows, records)
  {
    rows := [];
    if n > 0 {
      var more := CopiesSourced(row, n - 1, records);
      rows := [row] + more;
      UnrowsHead(row, more);
    }
  }

  lemma LastPieceLater(row: string, rest: string)
    requires NoLf(row) && rest != ""
    ensures PatchView.LastPiece(row + "\n" + rest) == PatchView.LastPiece(rest)
  {
    FindAt(row, '\n', rest);
    assert row + "\n" + rest == row + ['\n'] + rest;
    assert (row + "\n" + rest)[|row| + 1..] == rest;
  }

  lemma LastPieceOfOne(rows: seq<string>, row: string)
    requires rows == [row] && NoLf(row)
    ensures PatchView.LastPiece(Unrows(rows)) == row + "\n"
  {
    UnrowsOne(row);
    PatchView.LastPieceOfRow(row);
  }

  lemma LastPieceOfMore(rows: seq<string>, rest: seq<string>)
    requires |rows| > 1 && NoLf(rows[0]) && rest == rows[1..]
    ensures PatchView.LastPiece(Unrows(rows)) == PatchView.LastPiece(Unrows(rest))
  {
    LastPieceLater(rows[0], Unrows(rest));
  }

  lemma {:induction false} LastPieceOfRows(rows: seq<string>)
    requires AllNoLf(rows) && rows != []
    ensures PatchView.LastPiece(Unrows(rows)) == rows[|rows| - 1] + "\n"
  {
    if |rows| == 1 {
      LastPieceOfOne(rows, rows[0]);
    } else {
      var rest := rows[1..];
      assert rest[|rest| - 1] == rows[|rows| - 1];
      LastPieceOfRows(rest);
      LastPieceOfMore(rows, rest);
    }
  }

  lemma AllSourcedAppend(a: seq<string>, b: seq<string>, records: seq<string>)
    requires AllSourced(a, records) && AllSourced(b, records)
    ensures AllSourced(a + b, records) && AllNoLf(a + b)
    ensures Unrows(a + b) == Unrows(a) + Unrows(b)
  {
    UnrowsAppend(a, b);
  }

  /** The decoded text, but for a last LF that `End 0` may take off. */
  predicate IsText(text: string, rows: seq<string>) {
    text == Unrows(rows) || text + "\n" == Unrows(rows)
  }

  /** All rows that a Patch stream decodes to are sourced, and it has a terminator. */
  lemma {:induction false} ReplaySourced(rows: seq<string>, st: PatchView.State, modern: bool, written: seq<string>,
                                         previous: string, records: seq<string>)
    returns (all: seq<string>)
    requires AllNoLf(rows) && (forall i :: 0 <= i < |rows| ==> rows[i] in records)
    requires st.out == Unrows(written) && AllSourced(written, records) && Repeats(st.previous, previous, records)
    ensures PatchView.Replay(rows, st, modern).Ok? ==>
              IsText(PatchView.Replay(rows, st, modern).value, all) && AllSourced(all, records)
              && exists i :: 0 <= i < |rows| && PatchView.IsEnd(rows[i])
    decreases |rows|
  {
    all := written;
    if rows != [] {
      if PatchView.IsEnd(rows[0]) {
        EndText(rows[0], st.out, rows[1..]);
      } else if PatchView.Step(rows[0], st, modern).Ok? {
        var next := PatchView.Step(rows[0], st, modern).value;
        var more := ChunkSourced(rows[0], st, modern, previous, records);
        AllSourcedAppend(written, more, records);
        var last := NextPrevious(more, st.previous, previous, records);
        all := ReplaySourced(rows[1..], next, modern, written + more, last, records);
        if PatchView.Replay(rows[1..], next, modern).Ok? {
          var i :| 0 <= i < |rows[1..]| && PatchView.IsEnd(rows[1..][i]);
          assert PatchView.IsEnd(rows[i + 1]);
        }
      }
    }
  }

  lemma EndText(end: string, out: string, trailer: seq<string>)
    ensures var r := PatchView.Finish(end, out, trailer); r.Ok? ==> r.value == out || r.value + "\n" == out
  {
    if EndsWithLf(out) {
      assert out[..|out| - 1] + "\n" == out;
    }
  }

  /** The row repeated after a record: the last it wrote, or the one before. */
  lemma NextPrevious(more: seq<string>, before: string, previous: string, records: seq<string>) returns (last: string)
    requires AllSourced(more, records) && Repeats(before, previous, records)
    ensures Repeats(if Unrows(more) == "" then before else PatchView.LastPiece(Unrows(more)), last, records)
  {
    last := previous;
    if more != [] {
      last := more[|more| - 1];
      LastPieceOfRows(more);
    }
  }

  predicate HasDepth(rows: seq<string>, d: nat) {
    exists i :: 0 <= i < |rows| && IsDeep(rows[i]) && Depth(rows[i]) == d
  }

  lemma DepthLater(head: string, rows: seq<string>, d: nat)
    requires HasDepth(rows, d)
    ensures HasDepth([head] + rows, d)
  {
    var i :| 0 <= i < |rows| && IsDeep(rows[i]) && Depth(rows[i]) == d;
    assert ([head] + rows)[i + 1] == rows[i];
  }

  /** The rows of a text are among the rows it was written from. */
  lemma RowsWithin(text: string, all: seq<string>)
    requires AllNoLf(all) && IsText(text, all)
    ensures forall i :: 0 <= i < |Rows(text)| ==> Rows(text)[i] in all
  {
    UnrowsOfRows(text);
    RowsNoLf(text);
    RowsOfUnrows(all);
    if text != Unrows(all) && text != "" {
      if EndsWithLf(text) {
        RowAppended(Rows(text), "");
        assert "" + "\n" == "\n";
        UnrowsInjective(Rows(text) + [""], all);
        assert forall i :: 0 <= i < |Rows(text)| ==> Rows(text)[i] == all[i];
      } else {
        UnrowsInjective(Rows(text), all);
      }
    }
  }

  lemma Deeper(text: string, all: seq<string>, records: seq<string>, d: nat)
    requires AllNoLf(all) && IsText(text, all) && AllSourced(all, records) && HasDepth(Rows(text), d)
    ensures HasDepth(records, d + 1)
  {
    RowsWithin(text, all);
    var i :| 0 <= i < |Rows(text)| && IsDeep(Rows(text)[i]) && Depth(Rows(text)[i]) == d;
    var row := Rows(text)[i];
    var j :| 0 <= j < |all| && all[j] == row;
    assert Sourced(all[j], records);
    Escaped(row);
    var k :| 0 <= k < |records| && records[k] == "\\" + row;
  }

  lemma {:induction false} AllDepths(text: string, all: seq<string>, records: seq<string>, d: nat)
    requires AllNoLf(all) && IsText(text, all) && AllSourced(all, records) && HasDepth(records, 0)
    requires forall e: nat :: HasDepth(records, e) ==> HasDepth(Rows(text), e)
    ensures HasDepth(records, d)
  {
    if d > 0 {
      AllDepths(text, all, records, d - 1);
      Deeper(text, all, records, d - 1);
    }
  }

  lemma {:induction false} RowLength(s: string, i: nat)
    requires i < |Rows(s)|
    ensures |Rows(s)[i]| <= |s|
    decreases |s|
  {
    var k := Find(s, '\n');
    if k < |s| && i > 0 {
      RowLength(s[k + 1..], i - 1);
    }
  }

  /** A view with a Patch heading never decodes to a text that has its terminator
      and every row of backslashes and terminator that it has: that row would
      have to be written with one more backslash, and so on without end. */
  lemma PatchIsNeverThatText(view: string, text: string)
    requires PatchView.MAGIC <= view || PatchView.LEGACY <= view
    requires forall d: nat :: HasDepth(Rows(view[|PatchView.MAGIC|..]), d) ==> HasDepth(Rows(text), d)
    ensures PatchView.Decoded(view) != Ok(text)
  {
    var body := view[|PatchView.MAGIC|..];
    var records := Rows(body);
    RowsNoLf(body);
    var all := ReplaySourced(records, PatchView.State("", ""), PatchView.MAGIC <= view, [], "", records);
    if PatchView.Decoded(view) == Ok(text) {
      EndHasDepth(records);
      AllDepths(text, all, records, |body| + 1);
      TooDeep(body);
    }
  }

  lemma EndHasDepth(records: seq<string>)
    requires exists i :: 0 <= i < |records| && PatchView.IsEnd(records[i])
    ensures HasDepth(records, 0)
  {
    var i :| 0 <= i < |records| && PatchView.IsEnd(records[i]);
    assert records[i][0] == 'E';
  }

  lemma TooDeep(body: string)
    ensures !HasDepth(Rows(body), |body| + 1)
  {
    forall i | 0 <= i < |Rows(body)|
      ensures Depth(Rows(body)[i]) <= |body|
    {
      RowLength(body, i);
      DepthFits(Rows(body)[i]);
    }
  }
}

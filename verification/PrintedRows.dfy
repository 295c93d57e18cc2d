/** The rows that `exec` prints around a view (`src/main.rs`): a failure status
    before it and a recall hint after it, and what `expand` makes of the whole. */
module PrintedRows {
  import opened Text
  import Expansion
  import FoldedLogs
  import Misread
  import PatchView
  import PathFolds
  import RunFolds

  const FAIL := "[FAIL] Command failed (exit code: "

  function Signed(n: int): string {
    if n < 0 then "-" + Decimal(-n) else Decimal(n)
  }

  function Status(code: int): string {
    FAIL + Signed(code) + ")"
  }

  /** `prepend_failure_status`; `verdict` is what `failure_verdict` says. */
  function Prepended(output: string, code: int, verdict: bool): string {
    if code != 0 && !(FAIL <= output) && !verdict then Status(code) + "\n" + output else output
  }

  /** One row that says so. */
  predicate IsStatus(row: string) {
    FAIL <= row && NoLf(row)
  }

  lemma SignedNoLf(n: int)
    ensures NoLf(Signed(n))
  {
    DecimalRoundTrip(if n < 0 then -n else n);
  }

  lemma StatusIsStatus(code: int)
    ensures IsStatus(Status(code))
  {
    SignedNoLf(code);
  }

  lemma StatusStart(status: string)
    requires IsStatus(status)
    ensures |status| > 1 && status[0] == '[' && status[1] == 'F' && !(RunFolds.OPEN <= status)
  {
    assert status[1] == FAIL[1] && RunFolds.OPEN[1] == 'r';
  }

  /** It stands before every view that does not look like a failure itself. */
  lemma StatusIsPrepended(output: string, code: int)
    requires output != "" && output[0] != '[' && code != 0
    ensures Prepended(output, code, false) == Status(code) + "\n" + output && IsStatus(Status(code))
  {
    StatusIsStatus(code);
  }

  lemma StatusFirst(status: string, view: string)
    requires IsStatus(status)
    ensures var text := status + "\n" + view;
            |text| > 1 && text[0] == '[' && text[1] == 'F' && !(RunFolds.OPEN <= text)
  {
    StatusStart(status);
    assert RunFolds.OPEN[1] == 'r';
  }

  /** A text that starts with the status goes to the run decoder. */
  lemma StatusRoute(status: string, view: string, conversation: Expansion.Conversation)
    requires IsStatus(status) && Expansion.Possible(status + "\n" + view, conversation)
    ensures Expansion.Expanded(status + "\n" + view, conversation) == RunFolds.Expanded(status + "\n" + view)
  {
    StatusFirst(status, view);
    Bracketed(status + "\n" + view, conversation);
  }

  lemma Bracketed(text: string, conversation: Expansion.Conversation)
    requires |text| > 1 && text[0] == '[' && !(RunFolds.OPEN <= text) && Expansion.Possible(text, conversation)
    ensures Expansion.Expanded(text, conversation) == RunFolds.Expanded(text)
  {
    Expansion.BracketIsFirst(text);
    Expansion.Direct(text, conversation);
  }

  // ----- rows that the run decoder keeps

  /** Every row that is no repetition is a row of the decoded text. */
  lemma {:induction false} RunsKeepRows(rows: seq<string>, written: seq<string>, last: Option<string>)
    returns (all: seq<string>)
    requires AllNoLf(rows) && AllNoLf(written) && (last.Some? ==> NoLf(last.value))
    ensures var previous := if last.Some? then Some(last.value + "\n") else None;
            var r := RunFolds.Replay(Terminated(rows), Unrows(written), previous);
            r.Ok? ==> r.value == Unrows(all) && AllNoLf(all) && (forall row :: row in written ==> row in all)
                      && forall i :: 0 <= i < |rows| && !(RunFolds.OPEN <= rows[i]) ==> rows[i] in all
    decreases |rows|
  {
    all := written;
    if rows != [] {
      var previous := if last.Some? then Some(last.value + "\n") else None;
      var piece, more := rows[0] + "\n", Terminated(rows[1..]);
      match RunFolds.RepeatCount(piece)
      case None =>
        Misread.RowAppended(written, rows[0]);
        all := RunsKeepRows(rows[1..], written + [rows[0]], Some(rows[0]));
      case Some(count) =>
        var repeated := RunFolds.Repeat(count, Unrows(written), previous);
        if repeated.Ok? {
          var copies := CopiesOf(last.value, ParseUsize(count).value);
          UnrowsAppend(written, copies);
          all := RunsKeepRows(rows[1..], written + copies, last);
        }
    }
  }

  lemma {:induction false} CopiesOf(row: string, n: nat) returns (rows: seq<string>)
    requires NoLf(row)
    ensures AllNoLf(rows) && Unrows(rows) == Repeated(row + "\n", n)
  {
    rows := [];
    if n > 0 {
      var more := CopiesOf(row, n - 1);
      rows := [row] + more;
      UnrowsHead(row, more);
    }
  }


  lemma StatusKeepsRows(status: string, view: string, text: string)
    requires IsStatus(status) && EndsWithLf(view) && RunFolds.Expanded(status + "\n" + view) == Ok(text)
    ensures forall i :: 0 <= i < |Rows(view)| && !(RunFolds.OPEN <= Rows(view)[i]) ==> Rows(view)[i] in Rows(text)
  {
    var rows := [status] + Rows(view);
    StatusStart(status);
    RowsNoLf(view);
    UnrowsOfRows(view);
    UnrowsHead(status, Rows(view));
    LinesOfUnrows(rows);
    var all := RunsKeepRows(rows, [], None);
    RowsOfUnrows(all);
    assert forall i :: 0 <= i < |Rows(view)| ==> rows[i + 1] == Rows(view)[i];
  }

  // ----- a status before a view

  /** A failure status hides a Patch view: whatever text the view stands for,
      `expand` does not return it. */
  lemma FailureHidesPatch(status: string, view: string, raw: string, conversation: Expansion.Conversation)
    requires IsStatus(status)
    requires Expansion.IsPatch(view) && EndsWithLf(view) && PatchView.Decoded(view) == Ok(raw)
    requires Expansion.Possible(status + "\n" + view, conversation)
    ensures Expansion.Expanded(status + "\n" + view, conversation) != Ok(raw)
  {
    StatusRoute(status, view, conversation);
    if RunFolds.Expanded(status + "\n" + view) == Ok(raw) {
      StatusKeepsRows(status, view, raw);
      forall d: nat | Misread.HasDepth(Rows(view[|PatchView.MAGIC|..]), d)
        ensures Misread.HasDepth(Rows(raw), d)
      {
        PatchRows(view);
        DeepRowKept(Rows(view), raw, d);
      }
      Misread.PatchIsNeverThatText(view, raw);
    }
  }

  lemma PatchRows(view: string)
    requires Expansion.IsPatch(view)
    ensures Rows(view) != [] && Rows(view)[1..] == Rows(view[|PatchView.MAGIC|..])
  {
    var head, body := if PatchView.MAGIC <= view then "Patch v2" else "Patch v1", view[|PatchView.MAGIC|..];
    assert view == head + "\n" + body;
    RowsCons(head, body);
  }

  lemma DeepRowKept(rows: seq<string>, text: string, d: nat)
    requires rows != [] && Misread.HasDepth(rows[1..], d)
    requires forall i :: 0 <= i < |rows| && !(RunFolds.OPEN <= rows[i]) ==> rows[i] in Rows(text)
    ensures Misread.HasDepth(Rows(text), d)
  {
    var i :| 0 <= i < |rows[1..]| && Misread.IsDeep(rows[1..][i]) && Misread.Depth(rows[1..][i]) == d;
    var row := rows[i + 1];
    assert row == rows[1..][i] && (row[0] == '\\' || row[0] == 'E');
    var j :| 0 <= j < |Rows(text)| && Rows(text)[j] == row;
  }

  lemma {:induction false} RecordsAreNoRepetitions(lines: seq<string>, previous: string, search: bool)
    ensures forall i :: 0 <= i < |PathFolds.Records(lines, previous, search)| ==>
              !(RunFolds.OPEN <= PathFolds.Records(lines, previous, search)[i])
  {
    if lines != [] {
      var (first, next) := PathFolds.LineRecords(lines[0], previous, search);
      assert forall i :: 0 <= i < |first| ==> first[i][0] in {'@', ' ', '='};
      RecordsAreNoRepetitions(lines[1..], next, search);
    }
  }

  function FoldView(raw: string, search: bool): string {
    PathFolds.Magic(search) + Unrows(PathFolds.Records(Lines(raw), "", search))
  }

  /** The same for path and match folds, which come back with the status instead. */
  lemma FailureHidesFold(status: string, raw: string, search: bool, conversation: Expansion.Conversation)
    requires IsStatus(status) && PathFolds.Foldable(raw, search)
    requires Expansion.Possible(status + "\n" + FoldView(raw, search), conversation)
    ensures Expansion.Expanded(status + "\n" + FoldView(raw, search), conversation)
            == Ok(status + "\n" + FoldView(raw, search))
    ensures status + "\n" + FoldView(raw, search) != raw
  {
    StatusRoute(status, FoldView(raw, search), conversation);
    StatusStart(status);
    FoldRows(raw, search);
    StatusBefore(status, Rows(FoldView(raw, search)));
    PathFolds.InverseHolds(raw, search);
    Misread.PathsLoseRows(FoldView(raw, search), search, status + "\n" + FoldView(raw, search));
  }

  lemma StatusBefore(status: string, rows: seq<string>)
    requires NoLf(status) && !(RunFolds.OPEN <= status) && RunFolds.Foldable(rows)
    ensures RunFolds.Expanded(status + "\n" + Unrows(rows)) == Ok(status + "\n" + Unrows(rows))
    ensures Rows(status + "\n" + Unrows(rows)) == [status] + rows
  {
    UnrowsHead(status, rows);
    RowsOfUnrows([status] + rows);
    PlainRowsStay([status] + rows);
  }

  lemma PlainRowsStay(rows: seq<string>)
    requires RunFolds.Foldable(rows)
    ensures RunFolds.Expanded(Unrows(rows)) == Ok(Unrows(rows))
  {
    FoldedLogs.NotMarked(rows);
    if RunFolds.OPEN <= Unrows(rows) {
      FoldedLogs.FirstRowStarts(rows);
    }
    Misread.UnmarkedHasNone(Unrows(rows));
    Misread.RunsKeepIff(Unrows(rows));
  }

  lemma FoldRows(raw: string, search: bool)
    requires PathFolds.Foldable(raw, search)
    ensures var view := FoldView(raw, search); Unrows(Rows(view)) == view && RunFolds.Foldable(Rows(view))
  {
    PathFolds.FoldableRows(raw, search);
    PathFolds.RecordsClean(Lines(raw), "", search);
    RecordsAreNoRepetitions(Lines(raw), "", search);
    var head := MagicHead(search);
    HeadedRows(head, PathFolds.Records(Lines(raw), "", search));
  }

  lemma MagicHead(search: bool) returns (head: string)
    ensures head + "\n" == PathFolds.Magic(search) && NoLf(head) && !(RunFolds.OPEN <= head)
  {
    head := if search then "Matches v1" else "Paths v1";
    assert head[0] in {'M', 'P'} && RunFolds.OPEN[0] == '[';
  }

  lemma HeadedRows(head: string, rows: seq<string>)
    requires NoLf(head) && !(RunFolds.OPEN <= head) && RunFolds.Foldable(rows)
    ensures var text := head + "\n" + Unrows(rows); Unrows(Rows(text)) == text && RunFolds.Foldable(Rows(text))
  {
    UnrowsHead(head, rows);
    RowsOfUnrows([head] + rows);
  }

  /** A view with an LMR heading can only come back as a text that starts with the
      status and that heading. */
  lemma FailureHidesLmr(status: string, head: string, view: string, raw: string, conversation: Expansion.Conversation)
    requires IsStatus(status) && FoldedLogs.LmrHeading(head) && head + "\n" <= view
    requires Expansion.Possible(status + "\n" + view, conversation)
    ensures Expansion.Expanded(status + "\n" + view, conversation) == Ok(raw) ==>
              status + "\n" + (head + "\n") <= raw
  {
    StatusRoute(status, view, conversation);
    StatusStart(status);
    LmrIsPlain(head);
    assert view == head + "\n" + view[|head| + 1..];
    HeadKept(status, head, view[|head| + 1..]);
  }

  lemma LmrIsPlain(head: string)
    requires FoldedLogs.LmrHeading(head)
    ensures NoLf(head) && !(RunFolds.OPEN <= head)
  {
    assert head[0] == 'L' && RunFolds.OPEN[0] == '[';
  }

  lemma HeadKept(status: string, head: string, rest: string)
    requires NoLf(status) && !(RunFolds.OPEN <= status) && NoLf(head) && !(RunFolds.OPEN <= head)
    ensures var r := RunFolds.Expanded(status + "\n" + (head + "\n" + rest));
            r.Ok? ==> status + "\n" + (head + "\n") <= r.value
  {
    RunFolds.AfterHead(status, head + "\n" + rest);
    PiecesCons(head, rest);
    RunFolds.PlainPiece(head);
    RunFolds.ReplayPlain(head, Pieces(rest), status + "\n", Some(status + "\n"));
    RunFolds.ReplayExtends(Pieces(rest), status + "\n" + (head + "\n"), Some(head + "\n"));
  }

  // ----- a status before a folded log

  /** A folded log gives the text back after the status, whatever its heading. */
  lemma FailureStays(status: string, raw: string, conversation: Expansion.Conversation)
    requires IsStatus(status) && !RunFolds.LogsGuard(raw)
    requires Expansion.Possible(status + "\n" + FoldedLogs.View(raw), conversation)
    ensures Expansion.Expanded(status + "\n" + FoldedLogs.View(raw), conversation)
            == if RunFolds.Bounded(Lines(raw), |status| + 1) then Ok(status + "\n" + Unrows(Lines(raw)))
               else Err
    ensures Expansion.Expanded(status + "\n" + FoldedLogs.View(raw), conversation) != Ok(raw)
  {
    StatusStart(status);
    StatusRoute(status, FoldedLogs.View(raw), conversation);
    RunFolds.UnguardedIsFoldable(raw);
    RunFolds.HeadedReplay(status, Lines(raw));
    StatusIsExtra(status, raw);
  }

  lemma StatusIsExtra(status: string, raw: string)
    requires NoLf(status) && !RunFolds.LogsGuard(raw)
    ensures status + "\n" + Unrows(Lines(raw)) != raw
  {
    RunFolds.UnguardedIsFoldable(raw);
    RunFolds.LinesAreExact(raw);
    UnrowsHead(status, Lines(raw));
    RowsOfUnrows([status] + Lines(raw));
  }

  // ----- rows after a view

  /** The row in which `exec` says that both captured streams had output. */
  predicate IsCaptureNote(row: string) {
    "[capture: " <= row && NoLf(row)
  }

  lemma CaptureIsNoHint(row: string)
    requires IsCaptureNote(row)
    ensures row != "" && !PatchView.IsHint(row)
  {
    assert row[1] == 'c';
  }

  /** The Patch decoder refuses that row, with or without a recall hint after it. */
  lemma CaptureBreaksPatch(raw: string, row: string, after: seq<string>, conversation: Expansion.Conversation)
    requires !PatchView.Foreign(raw) && IsCaptureNote(row) && AllNoLf(after)
    ensures Expansion.Expanded(PatchView.Stream(raw) + Unrows([row] + after), conversation) == Err
  {
    CaptureIsNoHint(row);
    assert ([row] + after)[0] == row;
    Expansion.PatchThroughExpand(raw, [row] + after, conversation);
  }

  /** A row of the kind that `exec` prints: it starts with a bracket. */
  predicate IsNote(row: string) {
    NoLf(row) && row != "" && row[0] == '[' && !(RunFolds.OPEN <= row) && !IsRawHint(row)
  }

  /** With such a row after its view, a folded log never comes back alone, whatever
      its heading. */
  lemma NoteNeverAlone(raw: string, note: string, conversation: Expansion.Conversation)
    requires !RunFolds.LogsGuard(raw) && IsNote(note)
    requires Expansion.Possible(FoldedLogs.View(raw) + (note + "\n"), conversation)
    ensures Expansion.Expanded(FoldedLogs.View(raw) + (note + "\n"), conversation) != Ok(raw)
  {
    var view := FoldedLogs.View(raw) + (note + "\n");
    FoldedLogs.ViewShape(raw);
    FoldedLogs.Headings(RunFolds.Records(Lines(raw)));
    NotedView(raw, note);
    if Expansion.IsPatch(view) {
      NotedPatchLoses(raw, note);
    } else if conversation.Some? {
      FoldedLogs.SameFirstChar(raw);
      Expansion.ConversationDiffers(raw, view, conversation);
    } else if Expansion.IsPath(view) {
      NotedFoldBreaks(raw, note);
    } else if Expansion.IsLmr(view) && !FoldedLogs.HasRun(Lines(raw)) {
      FoldedLogs.HintBreaksLmr(FoldedLogs.View(raw), note);
      NotMarked(raw, note);
    } else {
      FoldedLogs.HintStays(raw, note, conversation);
    }
  }

  /** The rows of such a view, and its heading. */
  lemma NotedView(raw: string, note: string)
    requires !RunFolds.LogsGuard(raw) && IsNote(note)
    ensures var records := RunFolds.Records(Lines(raw));
            var view := FoldedLogs.View(raw) + (note + "\n");
            view == Unrows(records + [note]) && Rows(view) == records + [note] && records != []
            && (Expansion.IsPatch(view) || Expansion.IsPath(view) <==> FoldedLogs.PatchOrPathHeading(Lines(raw)[0]))
            && (Expansion.IsLmr(view) <==> FoldedLogs.LmrHeading(Lines(raw)[0]))
  {
    var records := RunFolds.Records(Lines(raw));
    FoldedLogs.ViewShape(raw);
    FoldedLogs.HintedView(records, note);
    FoldedLogs.Headings(records + [note]);
    RowsOfUnrows(records + [note]);
  }

  lemma NotMarked(raw: string, note: string)
    requires !RunFolds.LogsGuard(raw) && IsNote(note) && !FoldedLogs.HasRun(Lines(raw))
    ensures !Contains(FoldedLogs.View(raw) + (note + "\n"), Misread.REPEAT)
  {
    NotedView(raw, note);
    RunFolds.UnguardedIsFoldable(raw);
    FoldedLogs.RunShows(Lines(raw));
    FoldedLogs.NotMarked(Lines(raw) + [note]);
  }

  lemma BehindHead(rows: seq<string>, note: string)
    requires rows != []
    ensures (rows + [note])[1..] == rows[1..] + [note] && (rows + [note])[0] == rows[0]
    ensures Unrows(rows + [note]) == rows[0] + "\n" + Unrows(rows[1..] + [note])
  {
  }

  lemma NotedPatchLoses(raw: string, note: string)
    requires !RunFolds.LogsGuard(raw) && IsNote(note) && Expansion.IsPatch(FoldedLogs.View(raw) + (note + "\n"))
    ensures PatchView.Decoded(FoldedLogs.View(raw) + (note + "\n")) != Ok(raw)
  {
    var view, records := FoldedLogs.View(raw) + (note + "\n"), RunFolds.Records(Lines(raw));
    NotedView(raw, note);
    FoldedLogs.ViewShape(raw);
    PatchRows(view);
    BehindHead(records, note);
    forall d: nat | Misread.HasDepth(Rows(view[|PatchView.MAGIC|..]), d)
      ensures Misread.HasDepth(Rows(raw), d)
    {
      NoteIsNotDeep(records[1..], note, d);
      FoldedLogs.SameDepths(raw, d);
    }
    Misread.PatchIsNeverThatText(view, raw);
  }

  lemma NoteIsNotDeep(rows: seq<string>, note: string, d: nat)
    requires IsNote(note) && Misread.HasDepth(rows + [note], d)
    ensures Misread.HasDepth(rows, d)
  {
    var all := rows + [note];
    var i :| 0 <= i < |all| && Misread.IsDeep(all[i]) && Misread.Depth(all[i]) == d;
    assert i < |rows| ==> rows[i] == all[i];
  }

  lemma NotedFoldBreaks(raw: string, note: string)
    requires !RunFolds.LogsGuard(raw) && IsNote(note) && Expansion.IsPath(FoldedLogs.View(raw) + (note + "\n"))
    ensures PathFolds.Expanded(FoldedLogs.View(raw) + (note + "\n")) == Err
  {
    NotedView(raw, note);
    FoldedLogs.ViewShape(raw);
    NotedRowsBreak(RunFolds.Records(Lines(raw)), note, PathFolds.MATCHES <= FoldedLogs.View(raw) + (note + "\n"));
  }

  lemma NotedRowsBreak(rows: seq<string>, note: string, search: bool)
    requires AllNoLf(rows) && rows != [] && IsNote(note) && PathFolds.Magic(search) <= Unrows(rows + [note])
    ensures PathFolds.Expanded(Unrows(rows + [note])) == Err
  {
    var head := MagicHead(search);
    FoldedLogs.HeadedBy(rows + [note], head);
    BehindHead(rows, note);
    FoldedLogs.BadLastRow(rows[1..], note, search);
  }
}

/** Folded logs through `expand`, the one decoder that the program offers for
    them (`src/main.rs`): `logs` and `log_runs` with what a heading in the first
    row and a recall hint after the last one do to the round trip. */
module FoldedLogs {
  import opened Text
  import Expansion
  import JsonString
  import LinesView
  import Misread
  import PatchView
  import PathFolds
  import RunFolds
  import TextDictionary

  /** The view of `logs`. */
  function View(raw: string): string {
    Unrows(RunFolds.Records(Lines(raw)))
  }

  predicate PatchOrPathHeading(row: string) {
    row == "Patch v1" || row == "Patch v2" || row == "Paths v1" || row == "Matches v1"
  }

  predicate LmrHeading(row: string) {
    row == "LMR-TEXT/1" || row == "LMR-LINES/2" || row == "LMR-LINES/3"
  }

  /** Two neighbouring rows are equal, so that something is folded. */
  predicate HasRun(rows: seq<string>) {
    exists i :: 0 < i < |rows| && rows[i - 1] == rows[i]
  }

  // ----- the rows of a folded view

  lemma {:induction false} RecordIsRow(rows: seq<string>, i: nat)
    requires i < |RunFolds.Records(rows)|
    ensures RunFolds.Records(rows)[i] in rows || RunFolds.OPEN <= RunFolds.Records(rows)[i]
    decreases |rows|
  {
    var n := RunLength(rows);
    var first := RunFolds.RunRecords(rows[0], n);
    if i >= |first| {
      RecordIsRow(rows[n..], i - |first|);
    }
  }

  lemma {:induction false} RecordsShort(rows: seq<string>)
    ensures |RunFolds.Records(rows)| <= |rows|
    ensures rows != [] ==> RunFolds.Records(rows) != [] && RunFolds.Records(rows)[0] == rows[0]
    decreases |rows|
  {
    if rows != [] {
      RecordsShort(rows[RunLength(rows)..]);
    }
  }

  lemma TailRun(rows: seq<string>)
    requires rows != []
    ensures HasRun(rows) <==> RunLength(rows) > 1 || HasRun(rows[1..])
  {
    if RunLength(rows) > 1 {
      assert rows[1 - 1] == rows[1];
    }
    if i :| 0 < i < |rows[1..]| && rows[1..][i - 1] == rows[1..][i] {
      assert rows[i + 1 - 1] == rows[i + 1];
    }
    if i :| 0 < i < |rows| && rows[i - 1] == rows[i] {
      assert i > 1 ==> rows[1..][i - 1 - 1] == rows[1..][i - 1];
    }
  }

  /** Without equal neighbours folding changes nothing; with them it writes a
      repetition row after the first row. */
  lemma {:induction false} RunShows(rows: seq<string>)
    ensures if HasRun(rows) then
              exists k :: 0 < k < |RunFolds.Records(rows)| && RunFolds.OPEN <= RunFolds.Records(rows)[k]
            else RunFolds.Records(rows) == rows
    decreases |rows|
  {
    if rows != [] {
      TailRun(rows);
      var records := RunFolds.Records(rows);
      if RunLength(rows) > 1 {
        assert RunFolds.OPEN <= records[1];
      } else {
        RunShows(rows[1..]);
        assert records == [rows[0]] + RunFolds.Records(rows[1..]);
        if HasRun(rows[1..]) {
          var k :| 0 < k < |RunFolds.Records(rows[1..])| && RunFolds.OPEN <= RunFolds.Records(rows[1..])[k];
          assert records[k + 1] == RunFolds.Records(rows[1..])[k];
        }
      }
    }
  }

  lemma {:induction false} MarkOccurs(rows: seq<string>, k: nat)
    requires 0 < k < |rows| && RunFolds.OPEN <= rows[k]
    ensures Contains(Unrows(rows), Misread.REPEAT)
  {
    var rest := Unrows(rows[1..]);
    if k == 1 {
      assert Unrows(rows)[|rows[0]|..] == "\n" + rest;
      assert rest == rows[1] + "\n" + Unrows(rows[1..][1..]);
      assert Misread.REPEAT == "\n" + RunFolds.OPEN;
    } else {
      MarkOccurs(rows[1..], k - 1);
      Expansion.MarkInRest(rows[0] + "\n", rest);
    }
  }

  lemma {:induction false} MarkIsARow(rows: seq<string>, i: nat)
    requires AllNoLf(rows) && i <= |Unrows(rows)| && Misread.REPEAT <= Unrows(rows)[i..]
    ensures exists k :: 0 < k < |rows| && RunFolds.OPEN <= rows[k]
  {
    var text := Unrows(rows);
    assert text[i..][0] == '\n';
    if rows != [] {
      var size, rest := |rows[0]|, Unrows(rows[1..]);
      if i == size {
        assert text[i..] == "\n" + rest && text[i..][1..] == rest;
        assert Misread.REPEAT[1..] == RunFolds.OPEN;
        FirstRowStarts(rows[1..]);
      } else if i > size {
        assert text[i..] == rest[i - size - 1..];
        MarkIsARow(rows[1..], i - size - 1);
        var k :| 0 < k < |rows[1..]| && RunFolds.OPEN <= rows[1..][k];
        assert RunFolds.OPEN <= rows[k + 1];
      }
    }
  }

  lemma FirstRowStarts(rows: seq<string>)
    requires RunFolds.OPEN <= Unrows(rows)
    ensures rows != [] && RunFolds.OPEN <= rows[0]
  {
    RowStarts(RunFolds.OPEN, rows[0], Unrows(rows[1..]));
  }

  lemma RowStarts(pattern: string, row: string, rest: string)
    requires NoLf(pattern)
    ensures pattern <= row + "\n" + rest ==> pattern <= row
  {
    assert (row + "\n" + rest)[|row|] == '\n';
    assert (row + "\n" + rest)[..|row|] == row;
  }

  /** The view holds a repetition exactly when something is folded. */
  lemma ViewMarked(rows: seq<string>)
    requires RunFolds.Foldable(rows)
    ensures Contains(Unrows(RunFolds.Records(rows)), Misread.REPEAT) <==> HasRun(rows)
  {
    RunShows(rows);
    if HasRun(rows) {
      var k :| 0 < k < |RunFolds.Records(rows)| && RunFolds.OPEN <= RunFolds.Records(rows)[k];
      MarkOccurs(RunFolds.Records(rows), k);
    } else {
      NotMarked(rows);
    }
  }

  lemma NotMarked(rows: seq<string>)
    requires RunFolds.Foldable(rows)
    ensures !Contains(Unrows(rows), Misread.REPEAT)
  {
    forall i | 0 <= i <= |Unrows(rows)| && Misread.REPEAT <= Unrows(rows)[i..]
      ensures false
    {
      MarkIsARow(rows, i);
    }
  }

  // ----- headings

  lemma HeadedBy(rows: seq<string>, head: string)
    requires AllNoLf(rows) && rows != [] && NoLf(head)
    ensures head + "\n" <= Unrows(rows) <==> rows[0] == head
  {
    var a, b, rest := head + "\n", rows[0] + "\n", Unrows(rows[1..]);
    assert a[..|a| - 1] == head && b[..|b| - 1] == rows[0];
    if a <= b + rest {
      assert a + (b + rest)[|a|..] == b + rest;
      Misread.FirstRowUnique(a, (b + rest)[|a|..], b, rest);
    }
  }

  lemma Headings(rows: seq<string>)
    requires AllNoLf(rows) && rows != []
    ensures Expansion.IsPatch(Unrows(rows)) || Expansion.IsPath(Unrows(rows)) <==> PatchOrPathHeading(rows[0])
    ensures Expansion.IsLmr(Unrows(rows)) <==> LmrHeading(rows[0])
  {
    HeadedBy(rows, "Patch v1");
    HeadedBy(rows, "Patch v2");
    HeadedBy(rows, "Paths v1");
    HeadedBy(rows, "Matches v1");
    HeadedBy(rows, "LMR-TEXT/1");
    HeadedBy(rows, "LMR-LINES/2");
    HeadedBy(rows, "LMR-LINES/3");
  }

  // ----- `logs`

  lemma ViewShape(raw: string)
    requires !RunFolds.LogsGuard(raw)
    ensures RunFolds.Foldable(Lines(raw)) && Lines(raw) != []
    ensures var records := RunFolds.Records(Lines(raw));
            AllNoLf(records) && records != [] && records[0] == Lines(raw)[0] && Rows(View(raw)) == records
            && |records| <= |Rows(raw)| && !(RunFolds.OPEN <= View(raw)) && EndsWithLf(View(raw))
  {
    RunFolds.UnguardedIsFoldable(raw);
    RunFolds.LinesAreExact(raw);
    RunFolds.RecordsNoLf(Lines(raw));
    RecordsShort(Lines(raw));
    RowsOfUnrows(RunFolds.Records(Lines(raw)));
    ViewOpens(RunFolds.Records(Lines(raw)));
  }

  lemma ViewOpens(rows: seq<string>)
    requires rows != [] && AllNoLf(rows) && !(RunFolds.OPEN <= rows[0])
    ensures !(RunFolds.OPEN <= Unrows(rows)) && EndsWithLf(Unrows(rows))
  {
    UnrowsIsJoin(rows);
    if RunFolds.OPEN <= Unrows(rows) {
      FirstRowStarts(rows);
    }
  }

  /** A folded text has the rows of backslashes and terminators that its view has. */
  lemma SameDepths(raw: string, d: nat)
    requires !RunFolds.LogsGuard(raw) && Misread.HasDepth(Rows(View(raw))[1..], d)
    ensures Misread.HasDepth(Rows(raw), d)
  {
    ViewShape(raw);
    var records := RunFolds.Records(Lines(raw));
    var i :| 0 <= i < |records[1..]| && Misread.IsDeep(records[1..][i]) && Misread.Depth(records[1..][i]) == d;
    var row := records[i + 1];
    RecordIsRow(Lines(raw), i + 1);
    assert row[0] == '\\' || row[0] == 'E';
    var j :| 0 <= j < |Lines(raw)| && Lines(raw)[j] == row;
    RunFolds.LinesAreExact(raw);
    Misread.DeepWithCr(row);
    CrOrNot(Rows(raw)[j]);
    assert Misread.IsDeep(Rows(raw)[j]) && Misread.Depth(Rows(raw)[j]) == d;
  }

  lemma CrOrNot(row: string)
    ensures row == StripCr(row) || row == StripCr(row) + "\r"
  {
  }

  lemma PatchHeadingLoses(raw: string)
    requires !RunFolds.LogsGuard(raw) && Expansion.IsPatch(View(raw))
    ensures PatchView.Decoded(View(raw)) != Ok(raw)
  {
    var view := View(raw);
    var head, body := if PatchView.MAGIC <= view then "Patch v2" else "Patch v1", view[|PatchView.MAGIC|..];
    assert view == head + "\n" + body;
    RowsCons(head, body);
    assert Rows(view)[1..] == Rows(body);
    forall d: nat | Misread.HasDepth(Rows(body), d)
      ensures Misread.HasDepth(Rows(raw), d)
    {
      SameDepths(raw, d);
    }
    Misread.PatchIsNeverThatText(view, raw);
  }

  lemma SameFirstChar(raw: string)
    requires !RunFolds.LogsGuard(raw)
    ensures raw != "" && raw[0] == '[' ==> View(raw) != "" && View(raw)[0] == '['
  {
    ViewShape(raw);
    RunFolds.LinesAreExact(raw);
    UnrowsOfRows(raw);
    CrOrNot(Rows(raw)[0]);
    assert raw == Rows(raw)[0] + "\n" + Unrows(Rows(raw)[1..]);
    assert View(raw)[0] == if Lines(raw)[0] == "" then '\n' else Lines(raw)[0][0];
  }

  /** The rest of the text decides nothing here: the first row, whether anything
      is folded, and what the JSON test says. */
  predicate ReachesRuns(raw: string, conversation: Expansion.Conversation)
    requires Lines(raw) != []
  {
    conversation.None? && !PatchOrPathHeading(Lines(raw)[0]) && (LmrHeading(Lines(raw)[0]) ==> HasRun(Lines(raw)))
  }

  /** The view of `logs` through `expand`. It gives the text back if and only if it
      reaches the run decoder, no row ends with CRLF, and no repetition ends beyond
      512 MiB. (A text that starts with an LMR heading and has nothing to fold is
      its own view, and is decoded as what it claims to be: mostly refused, as in
      `UnendedLmrIsRefused`, but `SelfReading.LogReadsItself` comes back.) */
  lemma LogsThroughExpand(raw: string, conversation: Expansion.Conversation)
    requires !RunFolds.LogsGuard(raw) && Expansion.Possible(View(raw), conversation)
    ensures Lines(raw) != []
    ensures LmrHeading(Lines(raw)[0]) && !HasRun(Lines(raw)) ==>
              Expansion.IsLmr(View(raw)) && Expansion.Expanded(View(raw), conversation) == Expansion.LmrDecoded(View(raw))
    ensures !(LmrHeading(Lines(raw)[0]) && !HasRun(Lines(raw))) ==>
              (Expansion.Expanded(View(raw), conversation) == Ok(raw)
               <==> ReachesRuns(raw, conversation) && !Contains(raw, "\r\n") && RunFolds.Bounded(Lines(raw), 0))
  {
    var view := View(raw);
    ViewShape(raw);
    Headings(RunFolds.Records(Lines(raw)));
    ViewMarked(Lines(raw));
    Expansion.LmrLetter(view);
    if Expansion.IsPatch(view) {
      PatchHeadingLoses(raw);
    } else if conversation.Some? {
      SameFirstChar(raw);
      Expansion.ConversationDiffers(raw, view, conversation);
      Expansion.BraceIsNotLmr(view, conversation);
    } else if Expansion.IsPath(view) {
      Misread.PathsLoseRows(view, PathFolds.MATCHES <= view, raw);
    } else if Expansion.IsLmr(view) && !HasRun(Lines(raw)) {
    } else {
      Expansion.Direct(view, conversation);
      RunFolds.LogsRoundTrip(raw);
    }
  }

  /** Under an LMR heading, a text without a row `!0` or `!1` is refused. */
  lemma UnendedLmrIsRefused(view: string)
    requires Expansion.IsLmr(view) && Rows(view) != []
    requires forall i :: 0 <= i < |Rows(view)| ==> Rows(view)[i] != "!0" && Rows(view)[i] != "!1"
    ensures Expansion.LmrDecoded(view) == Err
  {
    var records := Rows(view)[1..];
    if TextDictionary.MAGIC <= view {
      if records != [] {
        var body := TextDictionary.Body(records[1..]);
        assert forall i :: 0 <= i < |body| ==> body[i] == records[i + 1] == Rows(view)[i + 2];
      }
    } else {
      assert forall i :: 0 <= i < |records| ==> !LinesView.IsEnd(records[i]);
      assert LinesView.EndIndex(records) == |records|;
    }
  }

  /** Any log under a Patch, path or match heading, such as the rows `Paths v1`,
      `a` and `a`: the run decoder reads its view, and `expand` does not. */
  lemma HeadedLogIsLost(rows: seq<string>)
    requires AllNoLf(rows) && rows != [] && PatchOrPathHeading(rows[0])
    requires '[' !in Unrows(rows) && '\r' !in Unrows(rows) && |Unrows(rows)| <= LIMIT
    ensures var raw := Unrows(rows);
            !RunFolds.LogsGuard(raw) && RunFolds.Expanded(View(raw)) == Ok(raw)
            && Expansion.Expanded(View(raw), None) != Ok(raw)
  {
    var raw := Unrows(rows);
    UnrowsIsJoin(rows);
    PatternStart(raw, RunFolds.OPEN);
    PatternStart(raw, "\r\n");
    RunFolds.LogsRoundTrip(raw);
    RunFolds.LinesAreExact(raw);
    RowsOfUnrows(rows);
    UnrowsInjectiveLines(raw, rows);
    LogsThroughExpand(raw, None);
  }

  lemma UnrowsInjectiveLines(raw: string, rows: seq<string>)
    requires AllNoLf(rows) && raw == Unrows(rows) && !RunFolds.LogsGuard(raw) && !Contains(raw, "\r\n")
    ensures Lines(raw) == rows
  {
    RunFolds.LinesAreExact(raw);
    RunFolds.UnguardedIsFoldable(raw);
    UnrowsInjective(Lines(raw), rows);
  }

  lemma PatternStart(s: string, pattern: string)
    requires pattern != ""
    ensures Contains(s, pattern) ==> pattern[0] in s
  {
    if Contains(s, pattern) {
      var i :| 0 <= i <= |s| && pattern <= s[i..];
      assert s[i..][0] == pattern[0];
    }
  }

  // ----- a recall hint after the view

  /** `exec` may append a row that tells how to recall the original. The run
      decoder copies it, so that the text never comes back alone. */
  lemma HintStays(raw: string, hint: string, conversation: Expansion.Conversation)
    requires !RunFolds.LogsGuard(raw) && NoLf(hint) && !(RunFolds.OPEN <= hint)
    requires Lines(raw) != [] ==> ReachesRuns(raw, conversation)
    ensures Expansion.Expanded(View(raw) + (hint + "\n"), conversation)
            == if RunFolds.Bounded(Lines(raw), 0) then Ok(Unrows(Lines(raw)) + (hint + "\n")) else Err
    ensures Expansion.Expanded(View(raw) + (hint + "\n"), conversation) != Ok(raw)
  {
    ViewShape(raw);
    var records := RunFolds.Records(Lines(raw));
    HintedView(records, hint);
    Headings(records + [hint]);
    ViewMarked(Lines(raw));
    if HasRun(Lines(raw)) {
      Expansion.MarkInFront(View(raw), hint + "\n");
    }
    ViewOpens(records + [hint]);
    Expansion.Direct(View(raw) + (hint + "\n"), conversation);
    Misread.RunsKeepRow(View(raw), hint);
    RunFolds.FoldRoundTrip(Lines(raw));
    OneRowMore(raw, hint);
  }

  lemma HintedView(rows: seq<string>, hint: string)
    ensures Unrows(rows) + (hint + "\n") == Unrows(rows + [hint])
  {
    Misread.RowAppended(rows, hint);
  }

  lemma OneRowMore(raw: string, hint: string)
    requires !RunFolds.LogsGuard(raw) && NoLf(hint)
    ensures Unrows(Lines(raw)) + (hint + "\n") != raw
  {
    RunFolds.LinesAreExact(raw);
    RunFolds.UnguardedIsFoldable(raw);
    HintedView(Lines(raw), hint);
    RowsOfUnrows(Lines(raw) + [hint]);
  }

  /** The path and match folds refuse such a row. */
  lemma HintBreaksFold(raw: string, search: bool, hint: string, conversation: Expansion.Conversation)
    requires PathFolds.Foldable(raw, search) && NoLf(hint) && hint != "" && hint[0] == '['
    requires conversation.None?
    ensures var view := PathFolds.Magic(search) + Unrows(PathFolds.Records(Lines(raw), "", search));
            Expansion.Expanded(view + (hint + "\n"), conversation) == Err
  {
    var records := PathFolds.Records(Lines(raw), "", search);
    PathFolds.FoldableRows(raw, search);
    PathFolds.RecordsClean(Lines(raw), "", search);
    BufferEnd(PathFolds.Magic(search), records, hint);
    BadLastRow(records, hint, search);
    Expansion.FoldRoute(PathFolds.Magic(search) + Unrows(records + [hint]), search, conversation);
  }

  lemma BadLastRow(rows: seq<string>, hint: string, search: bool)
    requires AllNoLf(rows) && NoLf(hint) && hint != "" && hint[0] == '['
    ensures PathFolds.Expanded(PathFolds.Magic(search) + Unrows(rows + [hint])) == Err
  {
    LinesOfUnrows(rows + [hint]);
    SnocStrip(rows, hint);
    Bracketed(hint);
    PathFolds.ExpandedBody(search, Unrows(rows + [hint]));
    Misread.UnfoldBad(StripCrs(rows), StripCr(hint), None, search, "");
  }

  /** An LMR view takes only the `[raw: ...]` form of the hint; the decoder
      refuses any other row after the view. */
  lemma HintBreaksLmr(view: string, hint: string)
    requires Expansion.IsLmr(view) && EndsWithLf(view) && NoLf(hint)
    requires !IsRawHint(hint) && hint != "!0" && hint != "!1"
    ensures Expansion.IsLmr(view + (hint + "\n")) && Expansion.LmrDecoded(view + (hint + "\n")) == Err
  {
    RowAfter(view, hint);
    KeepsMagic(view, hint + "\n");
    if TextDictionary.MAGIC <= view {
      TextRefuses(Rows(view)[1..], hint);
    } else {
      LinesRefuses(Rows(view)[1..], hint, LinesView.MAGIC3 <= view + (hint + "\n"));
    }
  }

  lemma RowAfter(view: string, hint: string)
    requires EndsWithLf(view) && NoLf(hint)
    ensures Rows(view) != [] && Rows(view + (hint + "\n"))[1..] == Rows(view)[1..] + [hint]
  {
    UnrowsOfRows(view);
    RowsNoLf(view);
    RowAfterRows(Rows(view), hint);
  }

  lemma RowAfterRows(rows: seq<string>, hint: string)
    requires AllNoLf(rows) && rows != [] && NoLf(hint)
    ensures Rows(Unrows(rows) + (hint + "\n"))[1..] == rows[1..] + [hint]
  {
    HintedView(rows, hint);
    RowsOfUnrows(rows + [hint]);
  }

  lemma KeepsMagic(view: string, more: string)
    ensures TextDictionary.MAGIC <= view ==> TextDictionary.MAGIC <= view + more
    ensures Expansion.IsLines(view) ==> Expansion.IsLines(view + more) && !(TextDictionary.MAGIC <= view + more)
  {
    if Expansion.IsLines(view) {
      assert view[4] == 'L' && (view + more)[4] == 'L';
    }
  }

  lemma TextRefuses(records: seq<string>, hint: string)
    requires !IsRawHint(hint) && hint != "!0" && hint != "!1"
    ensures TextDictionary.DecodedRecords(records + [hint]) == Err
  {
    if records != [] {
      assert (records + [hint])[1..] == records[1..] + [hint];
      assert TextDictionary.Body(records[1..] + [hint]) == records[1..] + [hint];
    }
  }

  lemma LinesRefuses(records: seq<string>, hint: string, version3: bool)
    requires !IsRawHint(hint) && hint != "!0" && hint != "!1"
    ensures LinesView.DecodedRecords(records + [hint], version3) == Err
  {
    var all := records + [hint];
    var end := LinesView.EndIndex(all);
    if end < |all| {
      assert end < |records| && all[end + 1..] == records[end + 1..] + [hint];
    }
  }

  lemma Bracketed(hint: string)
    requires hint != "" && hint[0] == '['
    ensures StripCr(hint) != "" && StripCr(hint)[0] == '['
    ensures !("@" <= StripCr(hint)) && !(" " <= StripCr(hint)) && !("=" <= StripCr(hint))
  {
  }

  lemma SnocStrip(rows: seq<string>, row: string)
    ensures StripCrs(rows + [row]) == StripCrs(rows) + [StripCr(row)]
  {
  }

  // ----- `log_runs`

  function LevelView(raw: string): string {
    RunFolds.Prefix(raw) + Unrows(RunFolds.Records(Lines(RunFolds.Body(raw))))
  }

  /** A view that `log_runs` keeps always comes back through `expand`: its first
      row is the stderr boundary or starts with a level. */
  lemma LogRunsThroughExpand(raw: string, conversation: Expansion.Conversation)
    requires RunFolds.IsLog(raw) && !Contains(RunFolds.Body(raw), "\r\n")
    requires RunFolds.Bounded(Lines(RunFolds.Body(raw)), |RunFolds.Prefix(raw)|)
    requires Expansion.Possible(LevelView(raw), conversation)
    ensures Expansion.Expanded(LevelView(raw), conversation) == Ok(raw)
  {
    LevelStart(raw);
    Harmless(LevelView(raw), conversation);
    Expansion.Direct(LevelView(raw), conversation);
    RunFolds.LogRunsCheck(raw);
  }

  /** With a recall hint the hint comes back too. */
  lemma LevelHintStays(raw: string, hint: string, conversation: Expansion.Conversation)
    requires RunFolds.IsLog(raw) && !Contains(RunFolds.Body(raw), "\r\n")
    requires RunFolds.Bounded(Lines(RunFolds.Body(raw)), |RunFolds.Prefix(raw)|)
    requires NoLf(hint) && !(RunFolds.OPEN <= hint)
    requires Expansion.Possible(LevelView(raw) + (hint + "\n"), conversation)
    ensures Expansion.Expanded(LevelView(raw) + (hint + "\n"), conversation) == Ok(raw + (hint + "\n"))
  {
    LevelStart(raw);
    var view := LevelView(raw) + (hint + "\n");
    assert view[0] == LevelView(raw)[0] && view[1] == LevelView(raw)[1];
    Harmless(view, conversation);
    Expansion.Direct(view, conversation);
    RunFolds.LogRunsCheck(raw);
    Misread.RunsKeepRow(LevelView(raw), hint);
  }

  predicate LevelLike(view: string) {
    |view| >= 2 && (view[0] in {'I', 'D', 'W', 'E', 'C'} || (view[0] == '[' && view[1] == 's'))
  }

  lemma Harmless(view: string, conversation: Expansion.Conversation)
    requires LevelLike(view) && Expansion.Possible(view, conversation)
    ensures conversation.None? && !Expansion.IsPatch(view) && !Expansion.IsPath(view) && !Expansion.IsLmr(view)
    ensures !(RunFolds.OPEN <= view)
  {
    assert JsonString.SkipWhitespace(view) == view;
  }

  lemma LevelStart(raw: string)
    requires RunFolds.IsLog(raw)
    ensures LevelLike(LevelView(raw)) && EndsWithLf(LevelView(raw))
  {
    var lines := Lines(RunFolds.Body(raw));
    var records := RunFolds.Records(lines);
    RecordsShort(lines);
    assert RunFolds.HasLevel(lines[0]);
    LevelText(records);
    BehindPrefix(RunFolds.Prefix(raw), Unrows(records));
  }

  lemma LevelText(rows: seq<string>)
    requires rows != [] && RunFolds.HasLevel(rows[0])
    ensures var text := Unrows(rows); |text| >= 2 && text[0] in {'I', 'D', 'W', 'E', 'C'} && EndsWithLf(text)
  {
    UnrowsIsJoin(rows);
    var row := rows[0];
    assert |row| >= 2 && row[0] in {'I', 'D', 'W', 'E', 'C'};
    assert Unrows(rows) == row + "\n" + Unrows(rows[1..]);
  }

  lemma BehindPrefix(prefix: string, text: string)
    requires prefix == "" || prefix == RunFolds.STDERR
    requires |text| >= 2 && text[0] in {'I', 'D', 'W', 'E', 'C'} && EndsWithLf(text)
    ensures LevelLike(prefix + text) && EndsWithLf(prefix + text)
  {
    if prefix != "" {
      assert (prefix + text)[0] == '[' && (prefix + text)[1] == 's';
    } else {
      assert prefix + text == text;
    }
  }
}

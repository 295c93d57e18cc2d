/** Views that no encoder writes, and what the decoders do with them: the folds of
    `src/reversible_views.rs`, LMR-LINES and LMR-TEXT (`src/lossless_filters.rs`)
    and Patch v2 (`src/patch_view.rs`). */
module Refusals {
  import opened Text
  import JsonString
  import PatchView
  import RunFolds
  import PathFolds
  import LinesView
  import LinesEncoders
  import TextDictionary

  // ----- path and match folds

  /** Each row is a prefix, a rest after some prefix, or a row kept whole. */
  predicate IsFold(lines: seq<string>, prefixed: bool) {
    forall i :: 0 <= i < |lines| ==>
      "@" <= lines[i] || "=" <= lines[i]
      || (" " <= lines[i] && (prefixed || exists j :: 0 <= j < i && "@" <= lines[j]))
  }

  /** A fold is decoded if and only if it has only such rows. */
  lemma FoldAccepted(search: bool, body: string)
    ensures PathFolds.Expanded(PathFolds.Magic(search) + body).Ok? <==> IsFold(Lines(body), false)
  {
    PathFolds.ExpandedBody(search, body);
    UnfoldAccepts(Lines(body), None, search, "");
  }

  lemma {:induction false} UnfoldAccepts(lines: seq<string>, prefix: Option<string>, search: bool, out: string)
    ensures PathFolds.Unfold(lines, prefix, search, out).Ok? <==> IsFold(lines, prefix.Some?)
  {
    if lines != [] {
      var row, rest := lines[0], lines[1..];
      FoldCons(lines, prefix.Some?);
      if "@" <= row {
        UnfoldAccepts(rest, Some(row[1..]), search, out);
      } else if " " <= row {
        if prefix.Some? {
          UnfoldAccepts(rest, prefix, search,
                        out + (prefix.value + (if search then ":" else "") + row[1..] + "\n"));
        }
      } else if "=" <= row {
        UnfoldAccepts(rest, prefix, search, out + (row[1..] + "\n"));
      }
    }
  }

  lemma FoldCons(lines: seq<string>, prefixed: bool)
    requires lines != []
    ensures IsFold(lines, prefixed) <==>
            ("@" <= lines[0] || "=" <= lines[0] || (" " <= lines[0] && prefixed))
            && IsFold(lines[1..], prefixed || "@" <= lines[0])
  {
    assert forall i :: 0 <= i < |lines| - 1 ==> lines[1..][i] == lines[i + 1];
    if IsFold(lines, prefixed) {
      forall i | 0 <= i < |lines| - 1
        ensures var row := lines[1..][i];
                "@" <= row || "=" <= row
                || (" " <= row && (prefixed || "@" <= lines[0] || exists j :: 0 <= j < i && "@" <= lines[1..][j]))
      {
        if " " <= lines[i + 1] && !prefixed {
          var j :| 0 <= j < i + 1 && "@" <= lines[j];
          assert j > 0 ==> "@" <= lines[1..][j - 1];
        }
      }
    }
    if IsFold(lines[1..], prefixed || "@" <= lines[0]) {
      forall i | 1 <= i < |lines|
        ensures "@" <= lines[i] || "=" <= lines[i]
                || (" " <= lines[i] && (prefixed || exists j :: 0 <= j < i && "@" <= lines[j]))
      {
        assert lines[i] == lines[1..][i - 1];
        if " " <= lines[i] && !prefixed && !("@" <= lines[0]) {
          assert lines[i][0] == ' ';
          var j :| 0 <= j < i - 1 && "@" <= lines[1..][j];
          assert "@" <= lines[j + 1];
        }
      }
    }
  }

  // ----- runs

  /** A repetition whose count is no `usize`, or that no row comes before. */
  predicate IsBadRepetition(pieces: seq<string>, k: nat)
    requires k < |pieces|
  {
    RunFolds.RepeatCount(pieces[k]).Some?
    && (ParseUsize(RunFolds.RepeatCount(pieces[k]).value).None?
        || forall j :: 0 <= j < k ==> RunFolds.RepeatCount(pieces[j]).Some?)
  }

  lemma BadRepetitionIsRefused(view: string, k: nat)
    requires k < |Pieces(view)| && IsBadRepetition(Pieces(view), k)
    ensures RunFolds.Expanded(view) == Err
  {
    BadPieceFails(Pieces(view), k, "", None);
  }

  lemma {:induction false} BadPieceFails(pieces: seq<string>, k: nat, out: string, previous: Option<string>)
    requires k < |pieces| && RunFolds.RepeatCount(pieces[k]).Some?
    requires ParseUsize(RunFolds.RepeatCount(pieces[k]).value).None?
             || (previous.None? && forall j :: 0 <= j < k ==> RunFolds.RepeatCount(pieces[j]).Some?)
    ensures RunFolds.Replay(pieces, out, previous) == Err
  {
    if k > 0 {
      var rest := pieces[1..];
      assert rest[k - 1] == pieces[k];
      match RunFolds.RepeatCount(pieces[0]) {
        case None =>
          BadPieceFails(rest, k - 1, out + pieces[0], Some(pieces[0]));
        case Some(count) =>
          var r := RunFolds.Repeat(count, out, previous);
          if r.Ok? {
            assert forall j :: 0 <= j < k - 1 ==> rest[j] == pieces[j + 1];
            BadPieceFails(rest, k - 1, r.value, previous);
          }
      }
    }
  }

  // ----- LMR-LINES

  /** A reference, block, repetition or prefix is decoded if and only if it names
      what the decoder already holds and stays within the limits. */
  lemma RecordAccepted(st: LinesView.State, n: nat, count: nat)
    requires n < USIZE_LIMIT && count < USIZE_LIMIT && |st.rows| <= 1_000_000 && |st.prefixes| < USIZE_LIMIT
    ensures LinesView.Step("&" + Decimal(n), st, true).Ok? <==>
            n < |st.rows| && st.bytes + |st.rows[n]| + 1 <= 536_870_912 && |st.rows| + 1 <= 1_000_000
    ensures LinesView.Step("&" + Decimal(n) + ":" + Decimal(count), st, true).Ok? <==>
            count > 0 && n + count <= |st.rows| && |st.rows| + count <= 1_000_000
            && st.bytes + |Unrows(st.rows[n..n + count])| <= 536_870_912
    ensures LinesView.Step("=" + Decimal(n), st, true).Ok? <==>
            st.rows != [] && |st.rows| + n <= 1_000_000
            && st.bytes + (|st.rows[|st.rows| - 1]| + 1) * n <= 536_870_912
    ensures LinesView.Step("@" + Decimal(n), st, true).Ok? <==>
            n < |st.prefixes| && |st.prefixes[n]| <= 536_870_912
  {
    ReferenceAccepted(st, n);
    BlockAccepted(st, n, count);
    TimesAccepted(st, n);
    PrefixAccepted(st, n);
  }

  lemma ReferenceAccepted(st: LinesView.State, n: nat)
    requires n < USIZE_LIMIT
    ensures LinesView.Step("&" + Decimal(n), st, true).Ok? <==>
            n < |st.rows| && st.bytes + |st.rows[n]| + 1 <= 536_870_912 && |st.rows| + 1 <= 1_000_000
  {
    var record := "&" + Decimal(n);
    DecimalRoundTrip(n);
    assert record[0] == '&' && record[1..] == Decimal(n);
    assert SplitOnce(Decimal(n), ':').None?;
  }

  lemma BlockAccepted(st: LinesView.State, n: nat, count: nat)
    requires n < USIZE_LIMIT && count < USIZE_LIMIT
    ensures LinesView.Step("&" + Decimal(n) + ":" + Decimal(count), st, true).Ok? <==>
            count > 0 && n + count <= |st.rows| && |st.rows| + count <= 1_000_000
            && st.bytes + |Unrows(st.rows[n..n + count])| <= 536_870_912
  {
    DecimalRoundTrip(n);
    DecimalRoundTrip(count);
    LinesEncoders.BlockStep(n, count, st);
    BlockIs(Decimal(n), Decimal(count), n, count, st);
  }

  lemma BlockIs(number: string, size: string, n: nat, count: nat, st: LinesView.State)
    requires ParseUsize(number) == Some(n) && ParseUsize(size) == Some(count)
    ensures LinesView.Block(number, size, st).Ok? <==>
            count > 0 && n + count <= |st.rows| && |st.rows| + count <= 1_000_000
            && st.bytes + |Unrows(st.rows[n..n + count])| <= 536_870_912
  {
  }

  lemma TimesAccepted(st: LinesView.State, n: nat)
    requires n < USIZE_LIMIT
    ensures LinesView.Step("=" + Decimal(n), st, true).Ok? <==>
            st.rows != [] && |st.rows| + n <= 1_000_000
            && st.bytes + (|st.rows[|st.rows| - 1]| + 1) * n <= 536_870_912
  {
    var record := "=" + Decimal(n);
    DecimalRoundTrip(n);
    assert record[0] == '=' && record[1..] == Decimal(n);
  }

  lemma PrefixAccepted(st: LinesView.State, n: nat)
    requires n < USIZE_LIMIT
    ensures LinesView.Step("@" + Decimal(n), st, true).Ok? <==>
            n < |st.prefixes| && |st.prefixes[n]| <= 536_870_912
  {
    var record := "@" + Decimal(n);
    DecimalRoundTrip(n);
    assert record[0] == '@' && record[1..] == Decimal(n);
    assert SplitOnce(Decimal(n), ':').None?;
    assert Decimal(n)[0] != '"';
  }

  // ----- LMR-TEXT

  /** After any escaped text, a tilde ends the decoding with a failure unless a
      known letter or a second tilde follows. */
  lemma UnknownAliasIsRefused(text: string, rest: string, dictionary: map<char, string>)
    requires rest == "" || (rest[0] != '~' && rest[0] !in dictionary)
    ensures TextDictionary.Unescape(TextDictionary.EscapeTildes(text) + ("~" + rest), dictionary, "") == Err
  {
    TextDictionary.GapDecodes(text, "~" + rest, dictionary, "");
    assert ("~" + rest)[0] == '~';
    assert rest != "" ==> ("~" + rest)[1] == rest[0];
  }

  // ----- Patch v2

  /** A record that fails whatever came before it. */
  predicate IsBadPatchRecord(row: string) {
    ("End " <= row && row != "End 0" && row != "End 1")
    || ("Repeat " <= row && ParseUsize(row[7..]).None?)
    || ("F " <= row && '\t' !in row[2..])
    || ("FT " <= row && '\t' !in row[3..])
  }

  lemma BadPatchRecordFails(row: string, st: PatchView.State)
    requires IsBadPatchRecord(row)
    ensures !PatchView.IsEnd(row) && PatchView.Step(row, st, true) == Err
  {
    assert row[0] == 'E' || row[0] == 'R' || row[0] == 'F';
    if "F " <= row {
      assert row[1] == ' ';
    } else if "FT " <= row {
      assert row[1] == 'T';
    }
  }

  /** A view is refused if such a record comes before its end record. */
  lemma BadPatchIsRefused(view: string, k: nat)
    requires PatchView.MAGIC <= view
    requires var rows := Rows(view[|PatchView.MAGIC|..]);
             k < |rows| && IsBadPatchRecord(rows[k]) && forall j :: 0 <= j < k ==> !PatchView.IsEnd(rows[j])
    ensures PatchView.Decoded(view) == Err
  {
    BadRowFails(Rows(view[|PatchView.MAGIC|..]), k, PatchView.State("", ""));
  }

  lemma {:induction false} BadRowFails(rows: seq<string>, k: nat, st: PatchView.State)
    requires k < |rows| && IsBadPatchRecord(rows[k]) && forall j :: 0 <= j < k ==> !PatchView.IsEnd(rows[j])
    ensures PatchView.Replay(rows, st, true) == Err
  {
    if k == 0 {
      BadPatchRecordFails(rows[0], st);
    } else {
      var next := PatchView.Step(rows[0], st, true);
      if next.Ok? {
        assert forall j :: 0 <= j < k - 1 ==> rows[1..][j] == rows[j + 1];
        BadRowFails(rows[1..], k - 1, next.value);
      }
    }
  }

  /** A repetition needs a row before it. */
  lemma OrphanRepetitionIsRefused(view: string)
    requires PatchView.MAGIC <= view
    requires Rows(view[|PatchView.MAGIC|..]) != [] && "Repeat " <= Rows(view[|PatchView.MAGIC|..])[0]
    ensures PatchView.Decoded(view) == Err
  {
    OrphanFails(Rows(view[|PatchView.MAGIC|..]), PatchView.State("", ""));
  }

  lemma OrphanFails(rows: seq<string>, st: PatchView.State)
    requires rows != [] && "Repeat " <= rows[0] && st.previous == ""
    ensures PatchView.Replay(rows, st, true) == Err
  {
    assert rows[0][0] == 'R';
    assert PatchView.Chunk(rows[0], st, true) == PatchView.Repetition(rows[0][7..], st);
  }

  /** Row `k` is the first end record, and nothing but trailer rows follows it. */
  predicate EndsAt(rows: seq<string>, k: nat) {
    k < |rows| && PatchView.IsEnd(rows[k]) && PatchView.IsTrailer(rows[k + 1..])
    && forall j :: 0 <= j < k ==> !PatchView.IsEnd(rows[j]) && !IsBadPatchRecord(rows[j])
  }

  /** Whatever is decoded ends so, and has at most 512 MiB. */
  lemma PatchAccepted(view: string)
    requires PatchView.MAGIC <= view && PatchView.Decoded(view).Ok?
    ensures exists k: nat :: EndsAt(Rows(view[|PatchView.MAGIC|..]), k)
    ensures |PatchView.Decoded(view).value| <= 536_870_912
  {
    var rows := Rows(view[|PatchView.MAGIC|..]);
    var k := AcceptedRows(rows, PatchView.State("", ""));
    assert EndsAt(rows, k);
  }

  lemma {:induction false} AcceptedRows(rows: seq<string>, st: PatchView.State) returns (k: nat)
    requires PatchView.Replay(rows, st, true).Ok? && |st.out| <= 536_870_912
    ensures EndsAt(rows, k)
    ensures |PatchView.Replay(rows, st, true).value| <= 536_870_912
  {
    if PatchView.IsEnd(rows[0]) {
      k := 0;
    } else {
      var next := PatchView.Step(rows[0], st, true).value;
      k := AcceptedRows(rows[1..], next);
      k := k + 1;
      assert rows[1..][k..] == rows[k + 1..];
      forall j | 0 <= j < k
        ensures !PatchView.IsEnd(rows[j]) && !IsBadPatchRecord(rows[j])
      {
        if j == 0 {
          if IsBadPatchRecord(rows[0]) {
            BadPatchRecordFails(rows[0], st);
          }
        } else {
          assert rows[j] == rows[1..][j - 1];
        }
      }
    }
  }
}

/** The entry point `expand` of `src/lossless_filters.rs`: which decoder a view
    reaches, and what that does to the round trips of the encoders. */
module Expansion {
  import opened Text
  import JsonString
  import PatchView
  import PathFolds
  import RunFolds
  import LinesView
  import LinesChoices
  import LinesEncoders
  import TextDictionary
  import Misread

  const REPEAT := Misread.REPEAT

  /** What the JSON branch makes of `view`: `Some` only for a conversation fold. */
  type Conversation = Option<Result<string>>

  /** A conversation fold is an object, which starts with a brace; its expansion is
      a printed array, which starts with a bracket. */
  predicate Possible(view: string, conversation: Conversation) {
    var t := JsonString.SkipWhitespace(view);
    conversation.Some? ==>
      t != "" && t[0] == '{'
      && (conversation.value.Ok? ==> conversation.value.value != "" && conversation.value.value[0] == '[')
  }

  predicate IsPatch(view: string) {
    PatchView.LEGACY <= view || PatchView.MAGIC <= view
  }

  predicate IsPath(view: string) {
    PathFolds.PATHS <= view || PathFolds.MATCHES <= view
  }

  predicate IsLmr(view: string) {
    TextDictionary.MAGIC <= view || IsLines(view)
  }

  predicate IsLines(view: string) {
    LinesView.MAGIC2 <= view || LinesView.MAGIC3 <= view
  }

  predicate IsFold(view: string) {
    IsPath(view) || Contains(view, REPEAT)
  }

  function LmrDecoded(view: string): Result<string>
    requires IsLmr(view)
  {
    if TextDictionary.MAGIC <= view then TextDictionary.DecodedRecords(Rows(view)[1..]) else LinesView.Decoded(view)
  }

  function Expanded(view: string, conversation: Conversation): Result<string> {
    if IsPatch(view) then PatchView.Decoded(view)
    else if conversation.Some? then conversation.value
    else if IsFold(view) then PathFolds.Expanded(view)
    else if IsLmr(view) then LmrDecoded(view)
    else Ok(view)
  }

  method Expand(view: string, conversation: Conversation) returns (result: Result<string>)
    ensures result == Expanded(view, conversation)
  {
    if IsPatch(view) {
      result := PatchView.Expand(view);
    } else if conversation.Some? {
      result := conversation.value;
    } else if IsFold(view) {
      result := PathFolds.Expand(view);
    } else if TextDictionary.MAGIC <= view {
      result := TextDictionary.ExpandText(view);
    } else if IsLines(view) {
      result := LinesView.ExpandRecords(Rows(view)[1..], LinesView.MAGIC3 <= view);
    } else {
      result := Ok(view);
    }
  }

  // ----- the `[repeat ` test comes before the LMR magics

  /** A view whose first row is `magic`, once it contains a repeat marker,
      expands to a text that still starts with that row. */
  lemma DivertedKeepsMagic(view: string, head: string)
    requires head != "" && head[0] == 'L' && NoLf(head) && head + "\n" <= view
    ensures RunFolds.Expanded(view).Ok? ==> head + "\n" <= RunFolds.Expanded(view).value
  {
    var rest := view[|head| + 1..];
    assert view == head + "\n" + rest;
    RunFolds.PlainPiece(head);
    RunFolds.FirstRowKept(head, rest);
  }

  lemma PrefixOfPrefix(a: string, b: string, c: string)
    ensures a <= b && b <= c ==> a <= c
  {
    if a <= b && b <= c {
      assert a == b[..|a|] == c[..|a|];
    }
  }

  lemma LmrRoute(view: string, conversation: Conversation, head: string)
    requires Possible(view, conversation)
    requires "LMR-" <= head && head + "\n" <= view
    ensures !IsPatch(view) && !IsPath(view) && conversation.None?
  {
    PrefixOfPrefix("LMR-", head + "\n", view);
    assert view[0] == "LMR-"[0];
  }

  /** A marker in an LMR view keeps `expand` from ever giving the text back. */
  lemma DivertedLosesText(raw: string, view: string, conversation: Conversation, head: string)
    requires Possible(view, conversation) && NoLf(head)
    requires "LMR-" <= head && head + "\n" <= view && !(head + "\n" <= raw)
    requires Contains(view, REPEAT)
    ensures Expanded(view, conversation) != Ok(raw)
  {
    LmrRoute(view, conversation, head);
    assert head[0] == "LMR-"[0];
    DivertedKeepsMagic(view, head);
  }

  /** An LMR-LINES stream that its own decoder inverts is inverted by `expand`
      exactly when it contains no repeat marker. */
  lemma LinesThroughExpand(raw: string, stream: string, version3: bool, conversation: Conversation)
    requires Possible(stream, conversation)
    requires LinesView.Magic(version3) <= stream && !(LinesView.Magic(version3) <= raw)
    requires LinesView.Decoded(stream) == if LinesView.Fits(Rows(raw)) then Ok(raw) else Err
    ensures Expanded(stream, conversation) == Ok(raw)
            <==> LinesView.Fits(Rows(raw)) && !Contains(stream, REPEAT)
  {
    var head := if version3 then "LMR-LINES/3" else "LMR-LINES/2";
    assert LinesView.Magic(version3) == head + "\n";
    assert head[..4] == "LMR-";
    if Contains(stream, REPEAT) {
      DivertedLosesText(raw, stream, conversation, head);
    } else {
      LinesRoute(stream, version3, conversation, head);
    }
  }

  lemma LinesRoute(stream: string, version3: bool, conversation: Conversation, head: string)
    requires Possible(stream, conversation) && !Contains(stream, REPEAT)
    requires "LMR-" <= head && LinesView.Magic(version3) == head + "\n" && head + "\n" <= stream
    ensures IsLines(stream) && Expanded(stream, conversation) == LinesView.Decoded(stream)
  {
    LmrRoute(stream, conversation, head);
    LinesNotText(stream, version3);
  }

  lemma LinesNotText(stream: string, version3: bool)
    requires LinesView.Magic(version3) <= stream
    ensures IsLines(stream) && !(TextDictionary.MAGIC <= stream)
  {
    assert stream[4] == LinesView.Magic(version3)[4];
  }

  /** The same for LMR-TEXT. */
  lemma TextThroughExpand(raw: string, cut: TextDictionary.Cut, words: seq<string>, conversation: Conversation)
    requires TextDictionary.IsCut(raw, cut) && |words| <= 52 && !("LMR-" <= raw)
    requires Possible(TextDictionary.Stream(raw, cut, words), conversation)
    ensures Expanded(TextDictionary.Stream(raw, cut, words), conversation) == Ok(raw)
            <==> |TextDictionary.Trimmed(raw)| <= LIMIT
                 && !Contains(TextDictionary.Stream(raw, cut, words), REPEAT)
  {
    var view := TextDictionary.Stream(raw, cut, words);
    TextDictionary.RoundTrip(raw, cut, words, []);
    assert view + Unrows([]) == view;
    TextRoute(raw, view, conversation);
  }

  lemma TextRoute(raw: string, view: string, conversation: Conversation)
    requires Possible(view, conversation)
    requires TextDictionary.MAGIC <= view && !("LMR-" <= raw)
    ensures if Contains(view, REPEAT) then Expanded(view, conversation) != Ok(raw)
            else Expanded(view, conversation) == TextDictionary.DecodedRecords(Rows(view)[1..])
  {
    var head := "LMR-TEXT/1";
    assert TextDictionary.MAGIC == head + "\n" && head[..4] == "LMR-";
    PrefixOfPrefix("LMR-", head + "\n", raw);
    LmrRoute(view, conversation, head);
    if Contains(view, REPEAT) {
      DivertedLosesText(raw, view, conversation, head);
    }
  }

  /** Every Patch stream reaches the Patch decoder, with whatever rows after it. */
  lemma PatchThroughExpand(raw: string, trailer: seq<string>, conversation: Conversation)
    requires !PatchView.Foreign(raw) && AllNoLf(trailer)
    ensures Expanded(PatchView.Stream(raw) + Unrows(trailer), conversation)
            == if PatchView.TerminatedLength(raw) <= LIMIT && PatchView.IsTrailer(trailer) then Ok(raw) else Err
  {
    PatchView.RoundTrip(raw, trailer);
  }

  /** Every fold that `fold` keeps is inverted by `expand`. */
  lemma FoldThroughExpand(raw: string, search: bool, conversation: Conversation)
    requires PathFolds.Foldable(raw, search)
    requires Possible(PathFolds.Magic(search) + Unrows(PathFolds.Records(Lines(raw), "", search)), conversation)
    ensures Expanded(PathFolds.Magic(search) + Unrows(PathFolds.Records(Lines(raw), "", search)), conversation)
            == Ok(raw)
  {
    var view := PathFolds.Magic(search) + Unrows(PathFolds.Records(Lines(raw), "", search));
    PathFolds.InverseHolds(raw, search);
    FoldRoute(view, search, conversation);
  }

  lemma FoldRoute(view: string, search: bool, conversation: Conversation)
    requires Possible(view, conversation) && PathFolds.Magic(search) <= view
    ensures Expanded(view, conversation) == PathFolds.Expanded(view)
  {
    assert view[0] == PathFolds.Magic(search)[0] && view[3] == PathFolds.Magic(search)[3];
  }

  // ----- texts that are not views

  /** The run decoder is what `expand` applies to everything else. */
  lemma Direct(view: string, conversation: Conversation)
    requires conversation.None? && !IsPatch(view) && !IsPath(view) && !(RunFolds.OPEN <= view)
    requires IsLmr(view) ==> Contains(view, REPEAT)
    ensures Expanded(view, conversation) == RunFolds.Expanded(view)
  {
    if !Contains(view, REPEAT) {
      Misread.UnmarkedHasNone(view);
      Misread.RunsKeepIff(view);
    }
  }

  lemma BracketIsFirst(s: string)
    requires s != "" && s[0] == '['
    ensures JsonString.SkipWhitespace(s) == s
  {
  }

  /** A conversation fold never gives back a text that starts as its view does. */
  lemma ConversationDiffers(text: string, view: string, conversation: Conversation)
    requires Possible(view, conversation) && conversation.Some?
    requires text != "" && text[0] == '[' ==> view != "" && view[0] == '['
    ensures conversation.value != Ok(text)
  {
    if view != "" && view[0] == '[' {
      BracketIsFirst(view);
    }
  }

  lemma OwnRows(text: string)
    requires IsPatch(text)
    ensures var body := text[|PatchView.MAGIC|..];
            forall d: nat :: Misread.HasDepth(Rows(body), d) ==> Misread.HasDepth(Rows(text), d)
  {
    var head := if PatchView.MAGIC <= text then "Patch v2" else "Patch v1";
    var body := text[|PatchView.MAGIC|..];
    assert text == head + "\n" + body;
    RowsCons(head, body);
    forall d: nat | Misread.HasDepth(Rows(body), d)
      ensures Misread.HasDepth(Rows(text), d)
    {
      Misread.DepthLater(head, Rows(body), d);
    }
  }

  /** When `expand` leaves a text as it is: a Patch, path or match heading always
      changes it, and elsewhere exactly a repetition row does. A text with an LMR
      heading and no line that starts like one is decoded as a view. */
  lemma TextIsKept(text: string, conversation: Conversation)
    requires Possible(text, conversation)
    ensures IsLmr(text) && !Contains(text, REPEAT) ==> Expanded(text, conversation) == LmrDecoded(text)
    ensures !(IsLmr(text) && !Contains(text, REPEAT)) ==>
              (Expanded(text, conversation) == Ok(text)
               <==> conversation.None? && !IsPatch(text) && !IsPath(text)
                    && (Contains(text, REPEAT) ==> Misread.NoRepetition(Pieces(text))))
  {
    if IsPatch(text) {
      OwnRows(text);
      Misread.PatchIsNeverThatText(text, text);
      PatchIsNotLmr(text);
    } else if conversation.Some? {
      ConversationDiffers(text, text, conversation);
      BraceIsNotLmr(text, conversation);
    } else if IsPath(text) {
      Misread.PathsLoseRows(text, PathFolds.MATCHES <= text, text);
      PathIsNotLmr(text);
    } else {
      Misread.RunsKeepIff(text);
    }
  }

  lemma PatchIsNotLmr(text: string)
    requires IsPatch(text)
    ensures !IsLmr(text)
  {
    assert text[0] == 'P';
  }

  lemma PathIsNotLmr(text: string)
    requires IsPath(text)
    ensures !IsLmr(text)
  {
    assert text[0] == 'P' || text[0] == 'M';
  }

  lemma LetterIsFirst(s: string)
    ensures s != "" && s[0] == 'L' ==> JsonString.SkipWhitespace(s) == s
  {
  }

  lemma LmrLetter(text: string)
    ensures IsLmr(text) ==> text != "" && text[0] == 'L'
  {
  }

  lemma BraceIsNotLmr(text: string, conversation: Conversation)
    requires Possible(text, conversation) && conversation.Some?
    ensures !IsLmr(text)
  {
    LetterIsFirst(text);
    LmrLetter(text);
  }

  // ----- the encoders followed by `expand`

  /** What comes back through `expand` when the encoder returned the text itself. */
  ghost predicate KeptAsText(text: string, back: Result<string>, conversation: Conversation) {
    if IsLmr(text) && !Contains(text, REPEAT) then back == LmrDecoded(text)
    else back == Ok(text)
         <==> conversation.None? && !IsPatch(text) && !IsPath(text)
              && (Contains(text, REPEAT) ==> Misread.NoRepetition(Pieces(text)))
  }

  /** `factor_lines` or `factor_blocks`, then `expand`. */
  method LinesInverse(raw: string, version3: bool, json: string -> Conversation)
    returns (view: string, back: Result<string>)
    requires forall v :: Possible(v, json(v))
    ensures |view| <= |raw|
    ensures view != raw ==> (back == Ok(raw) <==> LinesView.Fits(Rows(raw)) && !Contains(view, REPEAT))
    ensures view == raw ==> KeptAsText(raw, back, json(raw))
  {
    ghost var stream;
    if version3 {
      view, stream := LinesEncoders.FactorBlocks(raw);
    } else {
      view, stream := LinesEncoders.FactorLines(raw);
    }
    back := Expand(view, json(view));
    if view != raw {
      PrefixOfPrefix("LMR-LINES/", LinesView.Magic(version3), raw);
      LinesThroughExpand(raw, stream, version3, json(view));
    } else {
      TextIsKept(raw, json(raw));
    }
  }

  /** `render`, then `expand`. */
  method PatchInverse(raw: string, tokensSaved: (string, string) -> int, json: string -> Conversation)
    returns (view: string, back: Result<string>)
    requires forall v :: Possible(v, json(v))
    ensures |view| <= |raw|
    ensures view != raw ==> back == if PatchView.TerminatedLength(raw) <= LIMIT then Ok(raw) else Err
    ensures view == raw ==> KeptAsText(raw, back, json(raw))
  {
    view := PatchView.Render(raw, tokensSaved);
    back := Expand(view, json(view));
    if view != raw {
      PatchThroughExpand(raw, [], json(view));
      assert PatchView.Stream(raw) + Unrows([]) == PatchView.Stream(raw);
    } else {
      TextIsKept(raw, json(raw));
    }
  }

  // ----- a text that its own encoder loses

  /** A text whose words leave a line that starts like a repetition in a gap. */
  predicate GapMarked(cut: TextDictionary.Cut) {
    Contains(cut.tail, REPEAT) || exists k :: 0 <= k < |cut.matches| && Contains(cut.matches[k].0, REPEAT)
  }

  lemma {:induction false} EscapeKeepsMark(gap: string, i: nat)
    requires i <= |gap| && REPEAT <= gap[i..]
    ensures Contains(TextDictionary.EscapeTildes(gap), REPEAT)
  {
    if i == 0 {
      var rest := gap[|REPEAT|..];
      assert gap == REPEAT + rest;
      TextDictionary.EscapeAppend(REPEAT, rest);
      TextDictionary.NoTildes(REPEAT);
      assert TextDictionary.EscapeTildes(gap)[0..] == REPEAT + TextDictionary.EscapeTildes(rest);
    } else {
      assert gap[1..][i - 1..] == gap[i..];
      EscapeKeepsMark(gap[1..], i - 1);
      MarkInRest(if gap[0] == '~' then "~~" else [gap[0]], TextDictionary.EscapeTildes(gap[1..]));
    }
  }

  lemma MarkInRest(front: string, rest: string)
    requires Contains(rest, REPEAT)
    ensures Contains(front + rest, REPEAT)
  {
    var i :| 0 <= i <= |rest| && REPEAT <= rest[i..];
    assert (front + rest)[|front| + i..] == rest[i..];
  }

  lemma MarkInFront(front: string, rest: string)
    requires Contains(front, REPEAT)
    ensures Contains(front + rest, REPEAT)
  {
    var i :| 0 <= i <= |front| && REPEAT <= front[i..];
    assert (front + rest)[i..] == front[i..] + rest;
  }

  lemma {:induction false} PayloadKeepsMark(matches: seq<(string, string)>, tail: string, words: seq<string>)
    requires |words| <= 52 && GapMarked(TextDictionary.Cut(matches, tail))
    ensures Contains(TextDictionary.Payload(matches, tail, words), REPEAT)
  {
    if matches == [] {
      GapKeepsMark(tail);
    } else {
      var word := TextDictionary.WordText(matches[0].1, words);
      var more := TextDictionary.Payload(matches[1..], tail, words);
      var gap := TextDictionary.EscapeTildes(matches[0].0);
      if Contains(matches[0].0, REPEAT) {
        GapKeepsMark(matches[0].0);
        MarkInFront(gap, word + more);
      } else {
        RestMarked(matches, tail);
        PayloadKeepsMark(matches[1..], tail, words);
        MarkInRest(word, more);
        MarkInRest(gap, word + more);
      }
    }
  }

  lemma GapKeepsMark(gap: string)
    requires Contains(gap, REPEAT)
    ensures Contains(TextDictionary.EscapeTildes(gap), REPEAT)
  {
    var i :| 0 <= i <= |gap| && REPEAT <= gap[i..];
    EscapeKeepsMark(gap, i);
  }

  lemma RestMarked(matches: seq<(string, string)>, tail: string)
    requires matches != [] && !Contains(matches[0].0, REPEAT) && GapMarked(TextDictionary.Cut(matches, tail))
    ensures GapMarked(TextDictionary.Cut(matches[1..], tail))
  {
    if !Contains(tail, REPEAT) {
      var k :| 0 <= k < |matches| && Contains(matches[k].0, REPEAT);
      assert matches[1..][k - 1] == matches[k];
    }
  }

  /** `factor_text` encodes every text of 4096 bytes with a word worth an alias,
      whether or not that is shorter; if a line of it starts like a repetition,
      `expand` never gives it back. */
  method DivertedText(raw: string, cut: TextDictionary.Cut, ranked: seq<string>, conversation: Conversation)
    returns (view: string, back: Result<string>)
    requires TextDictionary.IsCut(raw, cut) && GapMarked(cut)
    requires |raw| >= 4096 && !("LMR-" <= raw) && ranked != []
    requires Possible(TextDictionary.Stream(raw, cut, TextDictionary.Aliased(ranked)), conversation)
    ensures view == TextDictionary.Stream(raw, cut, TextDictionary.Aliased(ranked))
    ensures back != Ok(raw)
    ensures |TextDictionary.Trimmed(raw)| <= LIMIT ==> TextDictionary.DecodedRecords(Rows(view)[1..]) == Ok(raw)
  {
    view := TextDictionary.FactorText(raw, cut, ranked);
    back := Expand(view, conversation);
    DivertedStream(raw, cut, TextDictionary.Aliased(ranked), conversation);
  }

  lemma DivertedStream(raw: string, cut: TextDictionary.Cut, words: seq<string>, conversation: Conversation)
    requires TextDictionary.IsCut(raw, cut) && GapMarked(cut) && !("LMR-" <= raw) && |words| <= 52
    requires Possible(TextDictionary.Stream(raw, cut, words), conversation)
    ensures var view := TextDictionary.Stream(raw, cut, words);
            Expanded(view, conversation) != Ok(raw)
            && (|TextDictionary.Trimmed(raw)| <= LIMIT ==> TextDictionary.DecodedRecords(Rows(view)[1..]) == Ok(raw))
  {
    StreamKeepsMark(raw, cut, words);
    TextThroughExpand(raw, cut, words, conversation);
    TextDictionary.RoundTrip(raw, cut, words, []);
    assert TextDictionary.Stream(raw, cut, words) + Unrows([]) == TextDictionary.Stream(raw, cut, words);
  }

  lemma StreamKeepsMark(raw: string, cut: TextDictionary.Cut, words: seq<string>)
    requires |words| <= 52 && GapMarked(cut)
    ensures Contains(TextDictionary.Stream(raw, cut, words), REPEAT)
  {
    PayloadKeepsMark(cut.matches, cut.tail, words);
    MarkInMiddle(TextDictionary.MAGIC, TextDictionary.Header(TextDictionary.SortedEntries(words)), "\n",
                 TextDictionary.Payload(cut.matches, cut.tail, words), if EndsWithLf(raw) then "" else "\n",
                 EndRecord(raw), "\n");
  }

  lemma MarkInMiddle(a: string, b: string, c: string, middle: string, x: string, y: string, z: string)
    requires Contains(middle, REPEAT)
    ensures Contains(a + b + c + middle + x + y + z, REPEAT)
  {
    MarkInRest(a + b + c, middle);
    MarkInFront(a + b + c + middle, x);
    MarkInFront(a + b + c + middle + x, y);
    MarkInFront(a + b + c + middle + x + y, z);
  }

  /** A row that looks like a repetition is enough to divert a stream that its
      own decoder reads back. */
  lemma DivertedRow(row: string)
    requires "[repeat " <= row && NoLf(row) && |row| < LIMIT
    ensures var raw := row + "\n";
            var view := LinesView.MAGIC3 + raw + "!1\n";
            LinesView.Decoded(view) == Ok(raw) && Expanded(view, None) != Ok(raw)
  {
    var raw := row + "\n";
    var view := LinesView.MAGIC3 + raw + "!1\n";
    assert row[0] == '[';
    ExampleDecodes(row);
    assert REPEAT <= view[11..];
    LmrHead(view, LinesView.MAGIC3);
    DivertedLosesText(raw, view, None, "LMR-LINES/3");
  }

  lemma LmrHead(view: string, magic: string)
    requires magic == "LMR-LINES/3\n" && magic <= view
    ensures "LMR-" <= "LMR-LINES/3" && "LMR-LINES/3" + "\n" <= view
  {
    assert "LMR-LINES/3"[..4] == "LMR-";
  }

  lemma ExampleDecodes(row: string)
    requires NoLf(row) && row != "" && !LinesChoices.NeedsEscape(row) && |row| < LIMIT
    ensures LinesView.Decoded(LinesView.MAGIC3 + (row + "\n") + "!1\n") == Ok(row + "\n")
  {
    var out, lines := LinesView.MAGIC3 + (row + "\n"), [row];
    UnrowsOne(row);
    RowsOfUnrows(lines);
    ExampleEncodes(row);
    LinesEncoders.Finishes(row + "\n", out, lines, true, LinesEncoders.At(lines, 1, "", []), []);
    ExampleText(out);
  }

  lemma ExampleEncodes(row: string)
    requires NoLf(row) && row != "" && !LinesChoices.NeedsEscape(row)
    ensures LinesEncoders.Encodes(LinesView.MAGIC3 + (row + "\n"), [row], true, [row],
                                  LinesEncoders.At([row], 1, "", []))
  {
    var lines := [row];
    LinesEncoders.Starts(true, lines);
    assert lines[0][0..] == row;
    LinesEncoders.LiteralLeads(lines, 0, "", [], true);
    LinesEncoders.Writes(LinesView.MAGIC3, [], true, lines, LinesEncoders.At(lines, 0, "", []), row,
                         LinesEncoders.At(lines, 1, "", []));
    assert [] + [row] == lines;
  }

  lemma ExampleText(out: string)
    ensures out + ("!1" + "\n") + Unrows([]) == out + "!1\n"
  {
  }
}

/** Which texts LMR-TEXT carries through `expand` (`factor_text` in
    `src/lossless_filters.rs`): the rows of a text that look like repetitions are
    those of its stream, because no word of the pattern fits into such a mark. */
module RepeatRows {
  import opened Text
  import Expansion
  import FoldedLogs
  import Misread
  import RunFolds
  import TextDictionary

  const OPEN := RunFolds.OPEN
  const REPEAT := Misread.REPEAT

  // ----- the word pattern

  predicate IsLetter(c: char) {
    'a' <= c <= 'z' || 'A' <= c <= 'Z' || c == '_'
  }

  predicate IsUrlChar(c: char) {
    IsLetter(c) || IsDigit(c) || c == '.' || c == '/' || c == '-'
  }

  /** `[A-Za-z_][A-Za-z_0-9]{9,}` */
  predicate IsIdentifier(word: string) {
    |word| >= 10 && IsLetter(word[0]) && forall i :: 0 <= i < |word| ==> IsLetter(word[i]) || IsDigit(word[i])
  }

  /** `https?://[A-Za-z0-9./_-]+/` */
  predicate IsUrl(word: string) {
    var size := if "https://" <= word then 8 else 7;
    ("https://" <= word || "http://" <= word) && |word| >= size + 2 && word[|word| - 1] == '/'
    && forall i :: size <= i < |word| ==> IsUrlChar(word[i])
  }

  predicate FromPattern(word: string) {
    IsIdentifier(word) || IsUrl(word)
  }

  /** The text cut at words of the pattern. */
  predicate IsPatternCut(raw: string, cut: TextDictionary.Cut) {
    raw == TextDictionary.Source(cut.matches, cut.tail) && AllPattern(cut.matches)
  }

  predicate AllPattern(matches: seq<(string, string)>) {
    forall k :: 0 <= k < |matches| ==> FromPattern(matches[k].1)
  }

  predicate WordChar(c: char) {
    c != '[' && c != ' ' && c != '\n' && c != '~'
  }

  predicate Apart(word: string) {
    |word| > 6 && forall i :: 0 <= i < |word| ==> WordChar(word[i])
  }

  lemma PatternIsApart(word: string)
    requires FromPattern(word)
    ensures Apart(word) && TextDictionary.IsWord(word)
  {
    if IsUrl(word) {
      var size := if "https://" <= word then 8 else 7;
      assert word[..size] == if "https://" <= word then "https://" else "http://";
      forall i | 0 <= i < |word|
        ensures WordChar(word[i])
      {
        assert i < size ==> word[i] == word[..size][i];
      }
    }
  }

  // ----- marks and words

  lemma WordChars(text: string, gap: nat, word: string)
    requires Apart(word) && gap + |word| <= |text| && text[gap..gap + |word|] == word
    ensures forall p :: gap <= p < gap + |word| ==> WordChar(text[p])
  {
    assert forall p :: gap <= p < gap + |word| ==> text[p] == text[gap..gap + |word|][p - gap];
  }

  /** A mark lies before the word or after it. */
  lemma MarkIsApart(text: string, gap: nat, word: string, mark: string, i: nat)
    requires Apart(word) && (mark == OPEN || mark == REPEAT)
    requires gap + |word| <= |text| && text[gap..gap + |word|] == word
    requires i <= |text| && mark <= text[i..]
    ensures i + |mark| <= gap || i >= gap + |word|
  {
    assert forall j :: 0 <= j < |mark| ==> text[i + j] == text[i..][j] == mark[j];
    assert mark[|mark| - 1] == ' ' && (mark == REPEAT ==> mark[1] == '[');
    WordChars(text, gap, word);
    assert !WordChar(text[i]) && !WordChar(text[i + |mark| - 1]) && (mark == REPEAT ==> !WordChar(text[i + 1]));
  }

  /** A mark in the text lies in a gap between words. */
  lemma {:induction false} MarkInGap(matches: seq<(string, string)>, tail: string, i: nat)
    requires AllPattern(matches)
    requires i <= |TextDictionary.Source(matches, tail)| && REPEAT <= TextDictionary.Source(matches, tail)[i..]
    ensures Expansion.GapMarked(TextDictionary.Cut(matches, tail))
  {
    if matches != [] {
      var gap, word, rest := matches[0].0, matches[0].1, TextDictionary.Source(matches[1..], tail);
      var text := gap + word + rest;
      PatternIsApart(word);
      MarkIsApart(text, |gap|, word, REPEAT, i);
      if i + |REPEAT| <= |gap| {
        assert REPEAT <= gap[i..] by {
          assert text[i..][..|REPEAT|] == gap[i..][..|REPEAT|];
        }
        assert Contains(matches[0].0, REPEAT);
      } else {
        assert text[i..] == rest[i - |gap| - |word|..];
        MarkInGap(matches[1..], tail, i - |gap| - |word|);
        LaterGap(matches, tail);
      }
    }
  }

  lemma LaterGap(matches: seq<(string, string)>, tail: string)
    requires matches != [] && Expansion.GapMarked(TextDictionary.Cut(matches[1..], tail))
    ensures Expansion.GapMarked(TextDictionary.Cut(matches, tail))
  {
    if !Contains(tail, REPEAT) {
      var k :| 0 <= k < |matches[1..]| && Contains(matches[1..][k].0, REPEAT);
      assert matches[k + 1] == matches[1..][k];
    }
  }

  /** A mark at the front of the text is at the front of the payload. */
  lemma FrontMark(matches: seq<(string, string)>, tail: string, words: seq<string>)
    requires AllPattern(matches) && |words| <= 52 && OPEN <= TextDictionary.Source(matches, tail)
    ensures OPEN <= TextDictionary.Payload(matches, tail, words)
  {
    if matches == [] {
      FrontEscape(tail);
    } else {
      var gap, word := matches[0].0, matches[0].1;
      var text := gap + word + TextDictionary.Source(matches[1..], tail);
      PatternIsApart(word);
      assert text[0..] == text;
      MarkIsApart(text, |gap|, word, OPEN, 0);
      assert text[..|OPEN|] == gap[..|OPEN|];
      FrontEscape(gap);
    }
  }

  lemma FrontEscape(s: string)
    requires OPEN <= s
    ensures OPEN <= TextDictionary.EscapeTildes(s)
  {
    var rest := s[|OPEN|..];
    assert s == OPEN + rest;
    TextDictionary.EscapeAppend(OPEN, rest);
    TextDictionary.NoTildes(OPEN);
  }

  // ----- marks and the decoder

  /** Decoding reaches every LF of a payload that it accepts. */
  lemma {:induction false} ReachesLf(payload: string, i: nat, dictionary: map<char, string>, out: string)
    returns (before: string)
    requires i < |payload| && payload[i] == '\n' && '\n' !in dictionary
    requires TextDictionary.Unescape(payload, dictionary, out).Ok?
    ensures TextDictionary.Unescape(payload, dictionary, out)
            == TextDictionary.Unescape(payload[i..], dictionary, before)
  {
    if i == 0 {
      assert payload[0..] == payload;
      before := out;
    } else if payload[0] != '~' {
      before := ReachesLf(payload[1..], i - 1, dictionary, out + [payload[0]]);
      assert payload[1..][i - 1..] == payload[i..];
    } else {
      var text := if payload[1] == '~' then "~" else dictionary[payload[1]];
      before := ReachesLf(payload[2..], i - 2, dictionary, out + text);
      assert payload[2..][i - 2..] == payload[i..];
    }
  }

  /** Text without tildes is copied. */
  lemma {:induction false} Copies(plain: string, rest: string, dictionary: map<char, string>, out: string)
    requires '~' !in plain && TextDictionary.Unescape(plain + rest, dictionary, out).Ok?
    ensures out + plain <= TextDictionary.Unescape(plain + rest, dictionary, out).value
  {
    if plain == "" {
      assert plain + rest == rest && out + plain == out;
      Keeps(rest, dictionary, out);
    } else {
      assert (plain + rest)[1..] == plain[1..] + rest;
      Copies(plain[1..], rest, dictionary, out + [plain[0]]);
      assert out + [plain[0]] + plain[1..] == out + plain;
    }
  }

  lemma {:induction false} Keeps(payload: string, dictionary: map<char, string>, out: string)
    requires TextDictionary.Unescape(payload, dictionary, out).Ok?
    ensures out <= TextDictionary.Unescape(payload, dictionary, out).value
    decreases |payload|
  {
    if payload != "" {
      var text := if payload[0] != '~' then [payload[0]] else if payload[1] == '~' then "~" else dictionary[payload[1]];
      var more := payload[if payload[0] != '~' then 1 else 2..];
      Keeps(more, dictionary, out + text);
      Expansion.PrefixOfPrefix(out, out + text, TextDictionary.Unescape(more, dictionary, out + text).value);
    }
  }

  /** A mark in a payload is a mark in its text. */
  lemma MarkDecodes(payload: string, dictionary: map<char, string>, text: string)
    requires TextDictionary.Unescape(payload, dictionary, "") == Ok(text) && '\n' !in dictionary
    ensures OPEN <= payload ==> OPEN <= text
    ensures Contains(payload, REPEAT) ==> Contains(text, REPEAT)
  {
    if OPEN <= payload {
      FrontDecodes(OPEN, payload, dictionary, "", text);
      assert "" + OPEN == OPEN;
    }
    if Contains(payload, REPEAT) {
      var i :| 0 <= i <= |payload| && REPEAT <= payload[i..];
      assert payload[i] == payload[i..][0] == '\n';
      var before := ReachesLf(payload, i, dictionary, "");
      FrontDecodes(REPEAT, payload[i..], dictionary, before, text);
      MarkAfter(before, text);
    }
  }

  lemma FrontDecodes(mark: string, payload: string, dictionary: map<char, string>, out: string, text: string)
    requires '~' !in mark && mark <= payload && TextDictionary.Unescape(payload, dictionary, out) == Ok(text)
    ensures out + mark <= text
  {
    assert payload == mark + payload[|mark|..];
    Copies(mark, payload[|mark|..], dictionary, out);
  }

  lemma MarkAfter(before: string, text: string)
    requires before + REPEAT <= text
    ensures Contains(text, REPEAT)
  {
    assert text[|before|..][..|REPEAT|] == (before + REPEAT)[|before|..];
  }

  // ----- rows

  /** Some row starts like a repetition. */
  predicate HasRepeatRow(s: string) {
    exists k :: 0 <= k < |Rows(s)| && OPEN <= Rows(s)[k]
  }

  predicate Marked(s: string) {
    OPEN <= s || Contains(s, REPEAT)
  }

  lemma MarkBeforeLf(s: string)
    ensures Marked(s + "\n") <==> Marked(s)
  {
    if OPEN <= s + "\n" {
      assert (s + "\n")[|OPEN| - 1] == ' ';
      assert (s + "\n")[..|OPEN|] == s[..|OPEN|];
    }
    if Contains(s + "\n", REPEAT) {
      var i :| 0 <= i <= |s + "\n"| && REPEAT <= (s + "\n")[i..];
      assert (s + "\n")[i..][|REPEAT| - 1] == ' ';
      assert (s + "\n")[i..][..|REPEAT|] == s[i..][..|REPEAT|];
    }
    if Contains(s, REPEAT) {
      Expansion.MarkInFront(s, "\n");
    }
  }

  lemma RowsMarked(rows: seq<string>)
    requires AllNoLf(rows)
    ensures Contains(Unrows(rows), REPEAT) <==> exists k :: 0 < k < |rows| && OPEN <= rows[k]
    ensures OPEN <= Unrows(rows) <==> rows != [] && OPEN <= rows[0]
  {
    if Contains(Unrows(rows), REPEAT) {
      var i :| 0 <= i <= |Unrows(rows)| && REPEAT <= Unrows(rows)[i..];
      FoldedLogs.MarkIsARow(rows, i);
    }
    if k :| 0 < k < |rows| && OPEN <= rows[k] {
      FoldedLogs.MarkOccurs(rows, k);
    }
    if OPEN <= Unrows(rows) {
      FoldedLogs.FirstRowStarts(rows);
    }
  }

  lemma RepeatRowIs(s: string)
    ensures HasRepeatRow(s) <==> Marked(s)
  {
    var rows := Rows(s);
    RowsNoLf(s);
    UnrowsOfRows(s);
    RowsMarked(rows);
    MarkBeforeLf(s);
  }

  // ----- the stream

  /** A stream is marked exactly when its payload has such a row. */
  lemma StreamMarked(raw: string, cut: TextDictionary.Cut, words: seq<string>, trimmed: string)
    requires |words| <= 52
    requires TextDictionary.Payload(cut.matches, cut.tail, words)
             == TextDictionary.Payload(cut.matches, trimmed, words) + if EndsWithLf(raw) then "\n" else ""
    ensures Contains(TextDictionary.Stream(raw, cut, words), REPEAT)
            <==> Marked(TextDictionary.Payload(cut.matches, trimmed, words))
  {
    var view := TextDictionary.Stream(raw, cut, words);
    var payload := TextDictionary.Payload(cut.matches, trimmed, words);
    TextDictionary.StreamRecords(raw, cut, words, trimmed, []);
    assert view + Unrows([]) == view;
    RowsNoLf(view);
    UnrowsOfRows(view);
    RowsMarked(Rows(view));
    RecordsMarked(Rows(view), TextDictionary.Header(TextDictionary.SortedEntries(words)), Rows(payload + "\n"),
                  EndRecord(raw));
    RepeatRowIs(payload + "\n");
    MarkBeforeLf(payload);
  }

  lemma RecordsMarked(rows: seq<string>, header: string, records: seq<string>, end: string)
    requires rows != [] && rows[1..] == [header] + records + ([end] + [])
    requires header != "" && header[0] == '{' && end != "" && end[0] == '!'
    ensures (exists k :: 0 < k < |rows| && OPEN <= rows[k]) <==> exists k :: 0 <= k < |records| && OPEN <= records[k]
  {
    assert forall k :: 0 <= k < |records| ==> rows[k + 2] == rows[1..][k + 1] == records[k];
    assert rows[1] == rows[1..][0] == header && rows[|records| + 2] == rows[1..][|records| + 1] == end;
    assert |rows| == |records| + 3;
  }

  /** For a cut of the pattern, the payload is marked exactly when the text is. */
  lemma PayloadMarked(matches: seq<(string, string)>, tail: string, words: seq<string>)
    requires AllPattern(matches) && |words| <= 52 && |TextDictionary.Source(matches, tail)| <= LIMIT
    ensures Marked(TextDictionary.Payload(matches, tail, words)) <==> Marked(TextDictionary.Source(matches, tail))
  {
    var text := TextDictionary.Source(matches, tail);
    forall k | 0 <= k < |matches|
      ensures TextDictionary.IsWord(matches[k].1)
    {
      PatternIsApart(matches[k].1);
    }
    TextDictionary.PayloadRead(matches, tail, words);
    TextDictionary.HeaderKnows(words);
    var dictionary := TextDictionary.ParseHeader(TextDictionary.Header(TextDictionary.SortedEntries(words))).value;
    assert '\n' !in dictionary;
    MarkDecodes(TextDictionary.Payload(matches, tail, words), dictionary, text);
    if OPEN <= text {
      FrontMark(matches, tail, words);
    }
    if Contains(text, REPEAT) {
      var i :| 0 <= i <= |text| && REPEAT <= text[i..];
      MarkInGap(matches, tail, i);
      Expansion.PayloadKeepsMark(matches, tail, words);
    }
  }

  /** An LMR-TEXT stream comes back through `expand` exactly when the text without
      its final LF is within 512 MiB and no row of it starts with `[repeat `. */
  lemma TextComesBack(raw: string, cut: TextDictionary.Cut, words: seq<string>, conversation: Expansion.Conversation)
    requires IsPatternCut(raw, cut) && |words| <= 52 && !("LMR-" <= raw)
    requires Expansion.Possible(TextDictionary.Stream(raw, cut, words), conversation)
    ensures Expansion.Expanded(TextDictionary.Stream(raw, cut, words), conversation) == Ok(raw)
            <==> |TextDictionary.Trimmed(raw)| <= LIMIT && !HasRepeatRow(raw)
  {
    PatternCutIsCut(raw, cut);
    Expansion.TextThroughExpand(raw, cut, words, conversation);
    if |TextDictionary.Trimmed(raw)| <= LIMIT {
      StreamIsMarked(raw, cut, words);
      RawMarked(raw);
    }
  }

  lemma StreamIsMarked(raw: string, cut: TextDictionary.Cut, words: seq<string>)
    requires IsPatternCut(raw, cut) && TextDictionary.IsCut(raw, cut) && |words| <= 52
    requires |TextDictionary.Trimmed(raw)| <= LIMIT
    ensures Contains(TextDictionary.Stream(raw, cut, words), REPEAT) <==> Marked(TextDictionary.Trimmed(raw))
  {
    var trimmed := TextDictionary.TrimCut(raw, cut, words);
    StreamMarked(raw, cut, words, trimmed);
    PayloadMarked(cut.matches, trimmed, words);
  }

  lemma RawMarked(raw: string)
    ensures Marked(TextDictionary.Trimmed(raw)) <==> HasRepeatRow(raw)
  {
    MarkBeforeLf(TextDictionary.Trimmed(raw));
    TextDictionary.TrimmedBack(raw);
    RepeatRowIs(raw);
  }

  lemma PatternCutIsCut(raw: string, cut: TextDictionary.Cut)
    requires IsPatternCut(raw, cut)
    ensures TextDictionary.IsCut(raw, cut)
  {
    forall k | 0 <= k < |cut.matches|
      ensures TextDictionary.IsWord(cut.matches[k].1)
    {
      PatternIsApart(cut.matches[k].1);
    }
  }
}

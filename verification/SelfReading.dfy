/** A log under an LMR heading that is its own expansion: an LMR-TEXT view whose
    dictionary holds its payload (`expand_text` in `src/lossless_filters.rs`).
    It shows that no test of the heading decides whether such a log comes back. */
module SelfReading {
  import opened Text
  import Expansion
  import FoldedLogs
  import JsonString
  import RunFolds
  import TextDictionary

  // ----- texts spelled without quotes, line feeds and backslashes

  function SpelledChar(c: char): string {
    if c == '"' then "~q" else if c == '\n' then "~n" else if c == '\\' then "~b" else [c]
  }

  function Spelled(s: string): (spelled: string)
    ensures |s| <= |spelled| <= 2 * |s|
  {
    if s == "" then "" else SpelledChar(s[0]) + Spelled(s[1..])
  }

  /** Characters that JSON writes as they are, and no bracket. */
  predicate PlainChar(c: char) {
    c >= ' ' && c != '"' && c != '\\' && c != '['
  }

  predicate Plain(s: string) {
    forall i :: 0 <= i < |s| ==> PlainChar(s[i])
  }

  predicate Spellable(s: string) {
    forall i :: 0 <= i < |s| ==> s[i] != '~' && (PlainChar(s[i]) || s[i] in {'"', '\n', '\\'})
  }

  lemma {:induction false} SpelledIsPlain(s: string)
    requires Spellable(s)
    ensures Plain(Spelled(s))
  {
    if s != "" {
      SpelledIsPlain(s[1..]);
    }
  }

  lemma {:induction false} PlainEscape(s: string)
    requires Plain(s)
    ensures JsonString.Escape(s) == s
  {
    if s != "" {
      PlainEscape(s[1..]);
    }
  }

  /** The dictionary of the three spelled characters and one word. */
  function Entries(word: string): seq<(char, string)> {
    [('q', "\""), ('n', "\n"), ('b', "\\"), ('a', word)]
  }

  predicate Spells(dictionary: map<char, string>) {
    {'q', 'n', 'b'} <= dictionary.Keys
    && dictionary['q'] == "\"" && dictionary['n'] == "\n" && dictionary['b'] == "\\"
  }

  lemma {:induction false} SpelledDecodes(s: string, rest: string, dictionary: map<char, string>, out: string)
    requires Spellable(s) && Spells(dictionary) && |out| + |s| <= LIMIT
    ensures TextDictionary.Unescape(Spelled(s) + rest, dictionary, out)
            == TextDictionary.Unescape(rest, dictionary, out + s)
  {
    if s == "" {
      assert Spelled(s) + rest == rest && out + s == out;
    } else {
      var more := Spelled(s[1..]) + rest;
      ConcatAssoc(SpelledChar(s[0]), Spelled(s[1..]), rest);
      CharDecodes(s[0], more, dictionary, out);
      SpelledDecodes(s[1..], rest, dictionary, out + [s[0]]);
      assert out + [s[0]] + s[1..] == out + s;
    }
  }

  lemma CharDecodes(c: char, more: string, dictionary: map<char, string>, out: string)
    requires c != '~' && Spells(dictionary) && |out| < LIMIT
    ensures TextDictionary.Unescape(SpelledChar(c) + more, dictionary, out)
            == TextDictionary.Unescape(more, dictionary, out + [c])
  {
    var text := SpelledChar(c) + more;
    assert text[0] == '~' ==> text[2..] == more;
    assert text[0] != '~' ==> text[1..] == more;
  }

  /** A reference to the word. */
  lemma WordDecodes(rest: string, dictionary: map<char, string>, out: string)
    requires 'a' in dictionary && |out| + |dictionary['a']| <= LIMIT
    ensures TextDictionary.Unescape("~a" + rest, dictionary, out)
            == TextDictionary.Unescape(rest, dictionary, out + dictionary['a'])
  {
    assert ("~a" + rest)[2..] == rest;
  }

  // ----- the text

  /** A member of the header before another one. */
  function Member(key: char, escaped: string): string {
    "\"" + [key] + "\":\"" + escaped + "\","
  }

  /** The header up to its word. */
  const FRONT := "{" + Member('q', "\\\"") + Member('n', "\\n") + Member('b', "\\\\") + "\"a\":\""

  const HEAD := TextDictionary.MAGIC + FRONT

  const AFTER := "\"}\n"

  const END := "\n!1"

  /** A payload that writes what stands around its two copies of a word. */
  function Payload(head: string, after: string, end: string): string {
    Spelled(head) + ("~a" + (Spelled(after) + ("~a" + Spelled(end))))
  }

  /** The word is the payload itself. */
  const WORD := Payload(HEAD, AFTER, END)

  lemma PartsAreSpellable()
    ensures Spellable(HEAD) && Spellable(AFTER) && Spellable(END)
  {
  }

  lemma PayloadIsPlain(head: string, after: string, end: string)
    requires Spellable(head) && Spellable(after) && Spellable(end)
    ensures Plain(Payload(head, after, end))
  {
    SpelledIsPlain(head);
    SpelledIsPlain(after);
    SpelledIsPlain(end);
  }

  lemma WordIsPlain()
    ensures Plain(WORD) && 0 < |WORD| <= 1000 && WORD[0] == 'L'
  {
    PartsAreSpellable();
    PayloadIsPlain(HEAD, AFTER, END);
    assert HEAD[0] == 'L' && |HEAD| <= 100;
  }

  lemma KeyIs(key: char)
    requires PlainChar(key)
    ensures JsonString.Encode([key]) == "\"" + [key] + "\""
  {
    PlainEscape([key]);
  }

  lemma MemberText(key: char, escaped: string, rest: string)
    ensures ("\"" + [key] + "\"") + (":" + (("\"" + escaped + "\"") + ("," + rest))) == Member(key, escaped) + rest
  {
  }

  lemma MemberIs(key: char, value: string, more: seq<(char, string)>)
    requires PlainChar(key) && more != []
    ensures TextDictionary.Members([(key, value)] + more)
            == Member(key, JsonString.Escape(value)) + TextDictionary.Members(more)
  {
    var entries := [(key, value)] + more;
    assert entries[1..] == more;
    TextDictionary.MembersHead(entries);
    KeyIs(key);
    MemberText(key, JsonString.Escape(value), TextDictionary.Members(more));
  }

  lemma LastMemberIs(word: string)
    requires Plain(word)
    ensures TextDictionary.Members([('a', word)]) == "\"a\":\"" + word + "\"}"
  {
    KeyIs('a');
    PlainEscape(word);
  }

  lemma EscapeOne(c: char)
    ensures JsonString.Escape([c]) == JsonString.EscapeChar(c)
  {
    assert [c][1..] == "";
    assert JsonString.Escape([c][1..]) == "";
  }

  lemma EntriesAre(word: string)
    ensures Entries(word) == [('q', "\"")] + ([('n', "\n")] + ([('b', "\\")] + [('a', word)]))
  {
  }

  lemma ThreeMembers(q: string, n: string, b: string, last: seq<(char, string)>)
    requires last != []
    ensures TextDictionary.Members([('q', q)] + ([('n', n)] + ([('b', b)] + last)))
            == Member('q', JsonString.Escape(q))
               + (Member('n', JsonString.Escape(n)) + (Member('b', JsonString.Escape(b)) + TextDictionary.Members(last)))
  {
    MemberIs('b', b, last);
    MemberIs('n', n, [('b', b)] + last);
    MemberIs('q', q, [('n', n)] + ([('b', b)] + last));
  }

  lemma FrontText(q: string, n: string, b: string, rest: string)
    ensures "{" + (q + (n + (b + ("\"a\":\"" + rest)))) == "{" + q + n + b + "\"a\":\"" + rest
  {
  }

  lemma HeaderIs(word: string)
    requires Plain(word)
    ensures TextDictionary.Header(Entries(word)) == FRONT + (word + "\"}")
  {
    EntriesAre(word);
    ThreeMembers("\"", "\n", "\\", [('a', word)]);
    LastMemberIs(word);
    EscapeOne('"');
    EscapeOne('\n');
    EscapeOne('\\');
    ConcatAssoc("\"a\":\"", word, "\"}");
    FrontText(Member('q', "\\\""), Member('n', "\\n"), Member('b', "\\\\"), word + "\"}");
  }

  /** Decoding the payload writes the three parts around two copies of the word. */
  lemma PayloadExpands(head: string, after: string, end: string, word: string, dictionary: map<char, string>)
    requires Spellable(head) && Spellable(after) && Spellable(end)
    requires Spells(dictionary) && 'a' in dictionary && dictionary['a'] == word
    requires |head| + |word| + |after| + |word| + |end| <= LIMIT
    ensures TextDictionary.Unescape(Payload(head, after, end), dictionary, "")
            == Ok(head + word + after + word + end)
  {
    SpelledDecodes(head, "~a" + (Spelled(after) + ("~a" + Spelled(end))), dictionary, "");
    assert "" + head == head;
    WordDecodes(Spelled(after) + ("~a" + Spelled(end)), dictionary, head);
    SpelledDecodes(after, "~a" + Spelled(end), dictionary, head + word);
    WordDecodes(Spelled(end), dictionary, head + word + after);
    assert Spelled(end) + "" == Spelled(end);
    SpelledDecodes(end, "", dictionary, head + word + after + word);
  }

  // ----- the log, for any header and word

  /** The dictionary that is read from the header. */
  lemma HeaderReads(word: string) returns (dictionary: map<char, string>)
    ensures TextDictionary.ParseHeader(TextDictionary.Header(Entries(word))) == Some(dictionary)
    ensures Spells(dictionary) && 'a' in dictionary && dictionary['a'] == word
    ensures |dictionary| <= 52 && forall c :: c in dictionary ==> TextDictionary.IsLetter(c)
  {
    var entries := Entries(word);
    KeysDiffer(word);
    TextDictionary.HeaderRoundTrip(entries);
    dictionary := TextDictionary.ParseHeader(TextDictionary.Header(entries)).value;
    TextDictionary.KeyCount(entries, dictionary);
    EntriesAreRead(word, dictionary);
  }

  lemma KeysDiffer(word: string)
    ensures TextDictionary.DistinctKeys(Entries(word)) && |Entries(word)| == 4
    ensures forall k :: 0 <= k < 4 ==> TextDictionary.IsLetter(Entries(word)[k].0)
  {
  }

  lemma EntriesAreRead(word: string, dictionary: map<char, string>)
    requires TextDictionary.Names(Entries(word), dictionary)
    ensures Spells(dictionary) && 'a' in dictionary && dictionary['a'] == word
  {
    var entries := Entries(word);
    assert entries[0].0 == 'q' && entries[1].0 == 'n' && entries[2].0 == 'b' && entries[3].0 == 'a';
  }

  function RowsOf(header: string, word: string): seq<string> {
    ["LMR-TEXT/1"] + ([header] + ([word] + ["!1"]))
  }

  function TextOf(header: string, word: string): string {
    "LMR-TEXT/1" + "\n" + (header + "\n" + (word + "\n" + ("!1" + "\n")))
  }

  lemma TextRows(header: string, word: string)
    requires NoLf(header) && NoLf(word)
    ensures AllNoLf(RowsOf(header, word)) && Rows(TextOf(header, word)) == RowsOf(header, word)
    ensures EndsWithLf(TextOf(header, word)) && Unrows(RowsOf(header, word)) == TextOf(header, word)
  {
    UnrowsOne("!1");
    UnrowsHead(word, ["!1"]);
    UnrowsHead(header, [word] + ["!1"]);
    UnrowsHead("LMR-TEXT/1", [header] + ([word] + ["!1"]));
    RowsOfUnrows(RowsOf(header, word));
  }

  lemma RecordsOf(header: string, word: string)
    ensures RowsOf(header, word)[1..] == [header] + [word] + (["!1"] + [])
  {
  }

  lemma NotIn(header: string, word: string, c: char)
    requires c !in header && c !in word && c in {'[', '\r'}
    ensures c !in TextOf(header, word)
  {
  }

  lemma PayloadDecodes(word: string, text: string, dictionary: map<char, string>)
    requires TextDictionary.ParseHeader(TextDictionary.Header(Entries(word))) == Some(dictionary)
    requires |dictionary| <= 52 && forall c :: c in dictionary ==> TextDictionary.IsLetter(c)
    requires TextDictionary.Unescape(word, dictionary, "") == Ok(text)
    ensures TextDictionary.DecodedRecords(RowsOf(TextDictionary.Header(Entries(word)), word)[1..]) == Ok(text + "\n")
  {
    var header := TextDictionary.Header(Entries(word));
    TextDictionary.DecodedStream(header, [word], "!1", []);
    RecordsOf(header, word);
  }

  lemma NoRun(header: string, word: string)
    requires header != "" && header[0] == '{' && word != "" && word[0] == 'L'
    ensures !FoldedLogs.HasRun(RowsOf(header, word))
  {
  }

  /** Such a log is its own view, which reaches the decoder of LMR-TEXT. */
  lemma LogOf(header: string, word: string)
    requires NoLf(header) && NoLf(word) && '[' !in header && '\r' !in header && '[' !in word && '\r' !in word
    requires header != "" && header[0] == '{' && word != "" && word[0] == 'L'
    ensures var raw := TextOf(header, word);
            !RunFolds.LogsGuard(raw) && FoldedLogs.View(raw) == raw && Lines(raw) == RowsOf(header, word)
            && !FoldedLogs.HasRun(Lines(raw))
            && Expansion.Expanded(raw, None) == TextDictionary.DecodedRecords(RowsOf(header, word)[1..])
  {
    var raw, rows := TextOf(header, word), RowsOf(header, word);
    TextRows(header, word);
    NotIn(header, word, '[');
    NotIn(header, word, '\r');
    FoldedLogs.PatternStart(raw, RunFolds.OPEN);
    FoldedLogs.PatternStart(raw, "\r\n");
    FoldedLogs.UnrowsInjectiveLines(raw, rows);
    NoRun(header, word);
    FoldedLogs.RunShows(rows);
    FoldedLogs.LogsThroughExpand(raw, None);
  }

  // ----- the log itself

  const HEADER := FRONT + (WORD + "\"}")

  const ITSELF := TextOf(HEADER, WORD)

  lemma PlainHeader(front: string, word: string)
    requires '[' !in front && '\r' !in front && NoLf(front) && front != "" && Plain(word)
    ensures var header := front + (word + "\"}");
            '[' !in header && '\r' !in header && NoLf(header) && header[0] == front[0]
  {
  }

  lemma FrontIsPlain()
    ensures '[' !in FRONT && '\r' !in FRONT && NoLf(FRONT) && FRONT != "" && FRONT[0] == '{'
  {
  }

  lemma PartsOf(front: string, word: string)
    ensures (TextDictionary.MAGIC + front) + word + AFTER + word + END + "\n" == TextOf(front + (word + "\"}"), word)
  {
  }

  lemma DecodesToItself()
    ensures TextDictionary.DecodedRecords(RowsOf(HEADER, WORD)[1..]) == Ok(ITSELF)
  {
    var dictionary := HeaderReads(WORD);
    WordIsPlain();
    HeaderIs(WORD);
    PartsAreSpellable();
    PayloadExpands(HEAD, AFTER, END, WORD, dictionary);
    PayloadDecodes(WORD, HEAD + WORD + AFTER + WORD + END, dictionary);
    PartsOf(FRONT, WORD);
  }

  /** This log has an LMR heading and nothing to fold, and `expand` gives it back. */
  lemma LogReadsItself()
    ensures !RunFolds.LogsGuard(ITSELF) && FoldedLogs.View(ITSELF) == ITSELF
    ensures var rows := Lines(ITSELF);
            rows != [] && FoldedLogs.LmrHeading(rows[0]) && !FoldedLogs.HasRun(rows)
    ensures Expansion.Expanded(ITSELF, None) == Ok(ITSELF)
  {
    WordIsPlain();
    FrontIsPlain();
    PlainHeader(FRONT, WORD);
    LogOf(HEADER, WORD);
    DecodesToItself();
  }
}

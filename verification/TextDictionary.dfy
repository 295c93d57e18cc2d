/** LMR-TEXT/1 (`factor_text`, `expand_text` in `src/lossless_filters.rs`):
    frequent words become `~` and a letter, a literal tilde becomes `~~`, and
    the header is a JSON object naming each letter. The regex that finds words
    and the score that ranks them are parameters. */
module TextDictionary {
  import opened Text
  import JsonString

  const MAGIC := "LMR-TEXT/1\n"

  // ----- the header: a JSON object from letters to words

  function Members(entries: seq<(char, string)>): string
    requires entries != []
  {
    JsonString.Encode([entries[0].0]) + ":" + JsonString.Encode(entries[0].1)
    + if |entries| == 1 then "}" else "," + Members(entries[1..])
  }

  function Header(entries: seq<(char, string)>): string {
    if entries == [] then "{}" else "{" + Members(entries)
  }

  /** Members of an object after its brace, and the text after the closing one. */
  function ParseMembers(s: string): (r: Option<(seq<(string, string)>, string)>)
    decreases |s|
  {
    match JsonString.ParseFirst(s)
    case None => None
    case Some((key, afterKey)) =>
      var colon := JsonString.SkipWhitespace(afterKey);
      if !(":" <= colon) then None
      else
        match JsonString.ParseFirst(colon[1..])
        case None => None
        case Some((value, afterValue)) =>
          var next := JsonString.SkipWhitespace(afterValue);
          if "}" <= next then Some(([(key, value)], next[1..]))
          else if "," <= next then
            match ParseMembers(next[1..])
            case None => None
            case Some((more, rest)) => Some(([(key, value)] + more, rest))
          else None
  }

  /** The dictionary that later members override; a key is one character. */
  function Dictionary(members: seq<(string, string)>): (r: Option<map<char, string>>) {
    if members == [] then Some(map[])
    else
      var last := members[|members| - 1];
      match Dictionary(members[..|members| - 1])
      case None => None
      case Some(known) => if |last.0| == 1 then Some(known[last.0[0] := last.1]) else None
  }

  function ParseHeader(s: string): Option<map<char, string>> {
    var t := JsonString.SkipWhitespace(s);
    if !("{" <= t) then None
    else
      var u := JsonString.SkipWhitespace(t[1..]);
      if "}" <= u then (if JsonString.SkipWhitespace(u[1..]) == "" then Some(map[]) else None)
      else
        match ParseMembers(t[1..])
        case None => None
        case Some((members, rest)) =>
          if JsonString.SkipWhitespace(rest) == "" then Dictionary(members) else None
  }

  function Named(entries: seq<(char, string)>): (members: seq<(string, string)>)
    ensures |members| == |entries|
    ensures forall k :: 0 <= k < |entries| ==> members[k] == ([entries[k].0], entries[k].1)
  {
    if entries == [] then [] else [([entries[0].0], entries[0].1)] + Named(entries[1..])
  }

  /** One member at the front of an object's text. */
  lemma MemberParses(key: string, value: string, end: string)
    requires end != "" && (end[0] == '}' || end[0] == ',')
    ensures ParseMembers(JsonString.Encode(key) + (":" + (JsonString.Encode(value) + end)))
            == if end[0] == '}' then Some(([(key, value)], end[1..]))
               else match ParseMembers(end[1..])
                    case None => None
                    case Some((more, rest)) => Some(([(key, value)] + more, rest))
  {
    var text := JsonString.Encode(value) + end;
    JsonString.FirstRoundTrip(key, ":" + text);
    JsonString.FirstRoundTrip(value, end);
    MemberSteps(JsonString.Encode(key) + (":" + text), key, text, value, end);
  }

  /** The steps of one member, for any text that holds it. */
  lemma MemberSteps(s: string, key: string, text: string, value: string, end: string)
    requires JsonString.ParseFirst(s) == Some((key, ":" + text)) && JsonString.ParseFirst(text) == Some((value, end))
    requires end != "" && (end[0] == '}' || end[0] == ',')
    ensures ParseMembers(s)
            == if end[0] == '}' then Some(([(key, value)], end[1..]))
               else match ParseMembers(end[1..])
                    case None => None
                    case Some((more, rest)) => Some(([(key, value)] + more, rest))
  {
    var colon := ":" + text;
    assert colon[1..] == text;
    assert JsonString.SkipWhitespace(colon) == colon && JsonString.SkipWhitespace(end) == end;
  }

  function AfterMember(entries: seq<(char, string)>): string
    requires entries != []
  {
    if |entries| == 1 then "}" else "," + Members(entries[1..])
  }

  lemma MembersHead(entries: seq<(char, string)>)
    requires entries != []
    ensures Members(entries)
            == JsonString.Encode([entries[0].0]) + (":" + (JsonString.Encode(entries[0].1) + AfterMember(entries)))
  {
    Regroup(JsonString.Encode([entries[0].0]), ":", JsonString.Encode(entries[0].1), AfterMember(entries));
  }

  lemma {:induction false} MembersParse(entries: seq<(char, string)>)
    requires entries != []
    ensures ParseMembers(Members(entries)) == Some((Named(entries), ""))
  {
    MembersHead(entries);
    MemberParses([entries[0].0], entries[0].1, AfterMember(entries));
    if |entries| == 1 {
      assert AfterMember(entries)[1..] == "";
      assert Named(entries) == [([entries[0].0], entries[0].1)];
    } else {
      assert AfterMember(entries)[1..] == Members(entries[1..]);
      MembersParse(entries[1..]);
    }
  }

  predicate DistinctKeys(entries: seq<(char, string)>) {
    forall i, j :: 0 <= i < j < |entries| ==> entries[i].0 != entries[j].0
  }

  predicate Names(entries: seq<(char, string)>, dictionary: map<char, string>) {
    (forall k :: 0 <= k < |entries| ==> entries[k].0 in dictionary && dictionary[entries[k].0] == entries[k].1)
    && forall c :: c in dictionary ==> exists k :: 0 <= k < |entries| && entries[k].0 == c
  }

  lemma NamesSnoc(entries: seq<(char, string)>, entry: (char, string), known: map<char, string>)
    requires Names(entries, known)
    requires forall k :: 0 <= k < |entries| ==> entries[k].0 != entry.0
    ensures Names(entries + [entry], known[entry.0 := entry.1])
  {
    var all := entries + [entry];
    var next := known[entry.0 := entry.1];
    forall c | c in next
      ensures exists k :: 0 <= k < |all| && all[k].0 == c
    {
      if c == entry.0 {
        assert all[|entries|].0 == c;
      } else {
        var k :| 0 <= k < |entries| && entries[k].0 == c;
        assert all[k].0 == c;
      }
    }
  }

  lemma NamedSnoc(entries: seq<(char, string)>)
    requires entries != []
    ensures var n := |entries| - 1;
            Named(entries)[..n] == Named(entries[..n]) && Named(entries)[n] == ([entries[n].0], entries[n].1)
  {
  }

  lemma {:induction false} DictionaryOf(entries: seq<(char, string)>)
    requires DistinctKeys(entries)
    ensures IsDictionary(entries)
  {
    if entries != [] {
      var front, last := entries[..|entries| - 1], entries[|entries| - 1];
      DictionaryOf(front);
      DictionaryStep(entries, front, last);
    }
  }

  /** The dictionary read from the named entries has exactly those entries. */
  predicate IsDictionary(entries: seq<(char, string)>) {
    match Dictionary(Named(entries))
    case None => false
    case Some(dictionary) => Names(entries, dictionary)
  }

  lemma DictionaryStep(entries: seq<(char, string)>, front: seq<(char, string)>, last: (char, string))
    requires entries == front + [last] && DistinctKeys(entries)
    requires IsDictionary(front)
    ensures IsDictionary(entries)
  {
    assert entries[..|entries| - 1] == front;
    NamedSnoc(entries);
    DictionarySnoc(Named(entries), Named(front), last);
    forall k | 0 <= k < |front|
      ensures front[k].0 != last.0
    {
      assert entries[k].0 != entries[|front|].0;
    }
    NamesSnoc(front, last, Dictionary(Named(front)).value);
  }

  lemma DictionarySnoc(members: seq<(string, string)>, front: seq<(string, string)>, last: (char, string))
    requires members != [] && members[..|members| - 1] == front
    requires members[|members| - 1] == ([last.0], last.1) && Dictionary(front).Some?
    ensures Dictionary(members) == Some(Dictionary(front).value[last.0 := last.1])
  {
  }

  /** The header is read back as exactly the entries it was written from. */
  lemma HeaderRoundTrip(entries: seq<(char, string)>)
    requires DistinctKeys(entries)
    ensures ParseHeader(Header(entries)).Some? && Names(entries, ParseHeader(Header(entries)).value)
  {
    DictionaryOf(entries);
    if entries == [] {
      EmptyHeader();
    } else {
      MembersParse(entries);
      JsonString.EncodeNoLf([entries[0].0]);
      BracedHeader(Members(entries));
    }
  }

  lemma EmptyHeader()
    ensures ParseHeader("{}") == Some(map[])
  {
    assert "{}"[1..] == "}" && "}"[1..] == "";
  }

  lemma BracedHeader(members: string)
    requires members != "" && members[0] == '"'
    ensures ParseHeader("{" + members)
            == match ParseMembers(members)
               case None => None
               case Some((all, rest)) => if JsonString.SkipWhitespace(rest) == "" then Dictionary(all) else None
  {
    assert ("{" + members)[1..] == members;
  }

  // ----- the payload

  predicate IsLetter(c: char) {
    'a' <= c <= 'z' || 'A' <= c <= 'Z'
  }

  /** Decoding of the payload after `out`. */
  function Unescape(payload: string, dictionary: map<char, string>, out: string): Result<string> {
    if payload == "" then Ok(out)
    else if payload[0] != '~' then
      if |out| + 1 > LIMIT then Err else Unescape(payload[1..], dictionary, out + [payload[0]])
    else if |payload| < 2 then Err
    else
      var key := payload[1];
      if key != '~' && key !in dictionary then Err
      else
        var text := if key == '~' then "~" else dictionary[key];
        if |out| + |text| > LIMIT then Err else Unescape(payload[2..], dictionary, out + text)
  }

  /** The payload rows and the end record, with a final hint dropped. */
  function Body(rows: seq<string>): seq<string> {
    if rows != [] && IsRawHint(rows[|rows| - 1]) then rows[..|rows| - 1] else rows
  }

  function DecodedRecords(records: seq<string>): Result<string> {
    if records == [] then Err
    else
      match ParseHeader(records[0])
      case None => Err
      case Some(dictionary) =>
        var body := Body(records[1..]);
        if |dictionary| > 52 || (exists c :: c in dictionary && !IsLetter(c)) then Err
        else if body == [] || (body[|body| - 1] != "!0" && body[|body| - 1] != "!1") then Err
        else
          match Unescape(Join(body[..|body| - 1]), dictionary, "")
          case Err => Err
          case Ok(text) => Ok(text + if body[|body| - 1] == "!1" then "\n" else "")
  }

  /** `expand_text`. */
  method ExpandText(view: string) returns (result: Result<string>)
    requires MAGIC <= view
    ensures result == DecodedRecords(Rows(view)[1..])
  {
    var records := Rows(view)[1..];
    if records == [] || ParseHeader(records[0]).None? {
      return Err;
    }
    var dictionary := ParseHeader(records[0]).value;
    if |dictionary| > 52 || exists c :: c in dictionary && !IsLetter(c) {
      return Err;
    }
    var body := Body(records[1..]);
    if body == [] || (body[|body| - 1] != "!0" && body[|body| - 1] != "!1") {
      return Err;
    }
    var text := UnescapeAll(Join(body[..|body| - 1]), dictionary);
    result := if text.Err? then Err else Ok(text.value + if body[|body| - 1] == "!1" then "\n" else "");
  }

  method UnescapeAll(payload: string, dictionary: map<char, string>) returns (text: Result<string>)
    ensures text == Unescape(payload, dictionary, "")
  {
    var out, i := "", 0;
    assert payload[0..] == payload;
    while i < |payload|
      invariant i <= |payload|
      invariant Unescape(payload[i..], dictionary, out) == Unescape(payload, dictionary, "")
    {
      assert payload[i..][1..] == payload[i + 1..];
      if payload[i] == '~' {
        if i + 1 == |payload| {
          return Err;
        }
        var key := payload[i + 1];
        assert payload[i..][2..] == payload[i + 2..];
        if key == '~' {
          out := out + "~";
        } else if key in dictionary && |out| + |dictionary[key]| <= LIMIT {
          out := out + dictionary[key];
        } else {
          return Err;
        }
        i := i + 2;
      } else {
        out := out + [payload[i]];
        i := i + 1;
      }
      if |out| > LIMIT {
        return Err;
      }
    }
    text := Ok(out);
  }

  // ----- encoder

  /** A text cut by the word regex: each match with the gap before it. */
  datatype Cut = Cut(matches: seq<(string, string)>, tail: string)

  function Source(matches: seq<(string, string)>, tail: string): string {
    if matches == [] then tail else matches[0].0 + matches[0].1 + Source(matches[1..], tail)
  }

  predicate IsWord(word: string) {
    word != "" && '~' !in word && '\n' !in word
  }

  predicate IsCut(raw: string, cut: Cut) {
    raw == Source(cut.matches, cut.tail)
    && forall k :: 0 <= k < |cut.matches| ==> IsWord(cut.matches[k].1)
  }

  predicate Distinct(words: seq<string>) {
    forall i, j :: 0 <= i < j < |words| ==> words[i] != words[j]
  }

  /** `str::replace('~', "~~")`. */
  function EscapeTildes(s: string): string {
    if s == "" then "" else (if s[0] == '~' then "~~" else [s[0]]) + EscapeTildes(s[1..])
  }

  /** The aliases in order: a to z, then A to Z. */
  function Letter(k: nat): char
    requires k < 52
  {
    if k < 26 then 'a' + k as char else 'A' + (k - 26) as char
  }

  function Aliased(ranked: seq<string>): seq<string> {
    if |ranked| > 52 then ranked[..52] else ranked
  }

  function IndexOf(words: seq<string>, word: string): (k: nat)
    ensures k <= |words| && (k < |words| ==> words[k] == word)
  {
    if words == [] || words[0] == word then 0 else 1 + IndexOf(words[1..], word)
  }

  function WordText(word: string, words: seq<string>): string
    requires |words| <= 52
  {
    var k := IndexOf(words, word);
    if k < |words| then ['~', Letter(k)] else word
  }

  function Entries(words: seq<string>, from: nat, until: nat): (entries: seq<(char, string)>)
    requires from <= until <= |words| <= 52
    ensures |entries| == until - from
    ensures forall k :: 0 <= k < until - from ==> entries[k] == (Letter(from + k), words[from + k])
    decreases until - from
  {
    if from == until then [] else [(Letter(from), words[from])] + Entries(words, from + 1, until)
  }

  /** The dictionary in the order of its letters, capitals first. */
  function SortedEntries(words: seq<string>): seq<(char, string)>
    requires |words| <= 52
  {
    if |words| <= 26 then Entries(words, 0, |words|)
    else Entries(words, 26, |words|) + Entries(words, 0, 26)
  }

  function Payload(matches: seq<(string, string)>, tail: string, words: seq<string>): string
    requires |words| <= 52
  {
    if matches == [] then EscapeTildes(tail)
    else
      EscapeTildes(matches[0].0) + (WordText(matches[0].1, words) + Payload(matches[1..], tail, words))
  }

  function Stream(raw: string, cut: Cut, words: seq<string>): string
    requires |words| <= 52
  {
    MAGIC + Header(SortedEntries(words)) + "\n" + Payload(cut.matches, cut.tail, words)
    + (if EndsWithLf(raw) then "" else "\n") + EndRecord(raw) + "\n"
  }

  /** `factor_text`, after the words have been found and ranked. */
  method FactorText(raw: string, cut: Cut, ranked: seq<string>) returns (view: string)
    requires IsCut(raw, cut)
    ensures view == if |raw| < 4096 || "LMR-" <= raw || ranked == [] then raw
                    else Stream(raw, cut, Aliased(ranked))
  {
    if |raw| < 4096 || "LMR-" <= raw || ranked == [] {
      return raw;
    }
    var words := Aliased(ranked);
    var payload := EncodePayload(cut, words);
    view := MAGIC + Header(SortedEntries(words)) + "\n" + payload;
    view := view + if EndsWithLf(raw) then "" else "\n";
    view := view + EndRecord(raw) + "\n";
  }

  method EncodePayload(cut: Cut, words: seq<string>) returns (payload: string)
    requires |words| <= 52
    ensures payload == Payload(cut.matches, cut.tail, words)
  {
    ghost var whole := Payload(cut.matches, cut.tail, words);
    payload := "";
    var i := 0;
    assert cut.matches[0..] == cut.matches;
    while i < |cut.matches|
      invariant i <= |cut.matches|
      invariant payload + Payload(cut.matches[i..], cut.tail, words) == whole
    {
      PayloadStep(payload, cut, i, words);
      payload := payload + EscapeTildes(cut.matches[i].0);
      payload := payload + WordText(cut.matches[i].1, words);
      i := i + 1;
    }
    payload := payload + EscapeTildes(cut.tail);
  }

  // ----- what the aliases save

  function Tildes(s: string): nat {
    if s == "" then 0 else (if s[0] == '~' then 1 else 0) + Tildes(s[1..])
  }

  function GapTildes(matches: seq<(string, string)>, tail: string): nat {
    if matches == [] then Tildes(tail) else Tildes(matches[0].0) + GapTildes(matches[1..], tail)
  }

  /** One of the 52 words with the best scores. */
  predicate IsAliased(word: string, ranked: seq<string>) {
    exists k :: 0 <= k < 52 && k < |ranked| && ranked[k] == word
  }

  /** Bytes of the words that have an alias, beyond two for each occurrence. */
  function Saved(matches: seq<(string, string)>, ranked: seq<string>): int {
    if matches == [] then 0
    else (if IsAliased(matches[0].1, ranked) then |matches[0].1| - 2 else 0) + Saved(matches[1..], ranked)
  }

  lemma {:induction false} EscapedLength(s: string)
    ensures |EscapeTildes(s)| == |s| + Tildes(s)
  {
    if s != "" {
      EscapedLength(s[1..]);
    }
  }

  lemma {:induction false} WordTextLength(word: string, words: seq<string>)
    requires |words| <= 52
    ensures |WordText(word, words)| == if word in words then 2 else |word|
  {
    IndexOfIs(words, word);
  }

  lemma {:induction false} IndexOfIs(words: seq<string>, word: string)
    ensures IndexOf(words, word) < |words| <==> word in words
  {
    if words != [] && words[0] != word {
      IndexOfIs(words[1..], word);
    }
  }

  /** Every occurrence of one of the 52 best words takes two bytes of the
      payload, and every other byte one, or two for a tilde. */
  lemma {:induction false} AliasesAreUsed(matches: seq<(string, string)>, tail: string, ranked: seq<string>)
    ensures |Payload(matches, tail, Aliased(ranked))|
            == |Source(matches, tail)| + GapTildes(matches, tail) - Saved(matches, ranked)
  {
    if matches == [] {
      EscapedLength(tail);
    } else {
      var (gap, word) := matches[0];
      EscapedLength(gap);
      WordTextLength(word, Aliased(ranked));
      assert word in Aliased(ranked) <==> IsAliased(word, ranked);
      AliasesAreUsed(matches[1..], tail, ranked);
    }
  }

  lemma PayloadStep(buffer: string, cut: Cut, i: nat, words: seq<string>)
    requires |words| <= 52 && i < |cut.matches|
    ensures buffer + EscapeTildes(cut.matches[i].0) + WordText(cut.matches[i].1, words)
            + Payload(cut.matches[i + 1..], cut.tail, words)
            == buffer + Payload(cut.matches[i..], cut.tail, words)
  {
    assert cut.matches[i..][1..] == cut.matches[i + 1..];
    Regroup(buffer, EscapeTildes(cut.matches[i].0), WordText(cut.matches[i].1, words),
            Payload(cut.matches[i + 1..], cut.tail, words));
  }

  // ----- round trip

  lemma {:induction false} GapDecodes(s: string, rest: string, dictionary: map<char, string>, out: string)
    requires |out| <= LIMIT
    ensures Unescape(EscapeTildes(s) + rest, dictionary, out)
            == if |out| + |s| <= LIMIT then Unescape(rest, dictionary, out + s) else Err
  {
    if s == "" {
      assert EscapeTildes(s) + rest == rest && out + s == out;
    } else {
      CharDecodes(s[0], EscapeTildes(s[1..]) + rest, dictionary, out);
      ConcatAssoc(if s[0] == '~' then "~~" else [s[0]], EscapeTildes(s[1..]), rest);
      assert out + [s[0]] + s[1..] == out + s;
      if |out| + 1 <= LIMIT {
        GapDecodes(s[1..], rest, dictionary, out + [s[0]]);
      }
    }
  }

  lemma CharDecodes(c: char, more: string, dictionary: map<char, string>, out: string)
    ensures Unescape((if c == '~' then "~~" else [c]) + more, dictionary, out)
            == if |out| + 1 <= LIMIT then Unescape(more, dictionary, out + [c]) else Err
  {
    assert ("~~" + more)[2..] == more && ([c] + more)[1..] == more;
  }

  lemma {:induction false} NoTildes(s: string)
    requires '~' !in s
    ensures EscapeTildes(s) == s
  {
    if s != "" {
      NoTildes(s[1..]);
    }
  }

  predicate Knows(dictionary: map<char, string>, words: seq<string>) {
    |words| <= 52
    && forall k :: 0 <= k < |words| ==> Letter(k) in dictionary && dictionary[Letter(k)] == words[k]
  }

  lemma WordDecodes(word: string, words: seq<string>, rest: string, dictionary: map<char, string>, out: string)
    requires |out| <= LIMIT && Knows(dictionary, words) && '~' !in word
    ensures Unescape(WordText(word, words) + rest, dictionary, out)
            == if |out| + |word| <= LIMIT then Unescape(rest, dictionary, out + word) else Err
  {
    var k := IndexOf(words, word);
    if k < |words| {
      var text := ['~', Letter(k)] + rest;
      assert text[2..] == rest;
    } else {
      NoTildes(word);
      GapDecodes(word, rest, dictionary, out);
    }
  }

  lemma {:induction false} PayloadDecodes(matches: seq<(string, string)>, tail: string, words: seq<string>,
                                          dictionary: map<char, string>, out: string)
    requires |out| <= LIMIT && Knows(dictionary, words)
    requires forall k :: 0 <= k < |matches| ==> IsWord(matches[k].1)
    ensures var text := Source(matches, tail);
            Unescape(Payload(matches, tail, words), dictionary, out)
            == if |out| + |text| <= LIMIT then Ok(out + text) else Err
  {
    if matches == [] {
      GapDecodes(tail, "", dictionary, out);
      assert EscapeTildes(tail) + "" == EscapeTildes(tail);
    } else {
      var (gap, word) := matches[0];
      var rest, more := Payload(matches[1..], tail, words), Source(matches[1..], tail);
      MatchDecodes(gap, word, words, rest, dictionary, out);
      if |out + gap + word| <= LIMIT {
        PayloadDecodes(matches[1..], tail, words, dictionary, out + gap + word);
      }
      SourceHead(out, gap, word, more);
    }
  }

  lemma SourceHead(out: string, gap: string, word: string, more: string)
    ensures out + gap + word + more == out + (gap + word + more)
  {
  }

  lemma MatchDecodes(gap: string, word: string, words: seq<string>, rest: string, dictionary: map<char, string>,
                     out: string)
    requires |out| <= LIMIT && Knows(dictionary, words) && '~' !in word
    ensures Unescape(EscapeTildes(gap) + (WordText(word, words) + rest), dictionary, out)
            == if |out| + |gap| + |word| <= LIMIT then Unescape(rest, dictionary, out + gap + word) else Err
  {
    GapDecodes(gap, WordText(word, words) + rest, dictionary, out);
    if |out| + |gap| <= LIMIT {
      WordDecodes(word, words, rest, dictionary, out + gap);
    }
  }

  lemma EntryOf(words: seq<string>, k: nat)
    requires k < |words| <= 52
    ensures exists j :: 0 <= j < |SortedEntries(words)| && SortedEntries(words)[j] == (Letter(k), words[k])
  {
    if |words| <= 26 {
      assert SortedEntries(words)[k] == (Letter(k), words[k]);
    } else {
      EntryOfMany(words, k);
    }
  }

  lemma EntryOfMany(words: seq<string>, k: nat)
    requires k < |words| && 26 < |words| <= 52
    ensures exists j :: 0 <= j < |SortedEntries(words)| && SortedEntries(words)[j] == (Letter(k), words[k])
  {
    var capitals, small := Entries(words, 26, |words|), Entries(words, 0, 26);
    assert SortedEntries(words) == capitals + small;
    InEither(capitals, small, (Letter(k), words[k]), if k < 26 then k else k - 26, k >= 26);
  }

  lemma InEither<T>(a: seq<T>, b: seq<T>, x: T, k: nat, first: bool)
    requires if first then k < |a| && a[k] == x else k < |b| && b[k] == x
    ensures exists j :: 0 <= j < |a + b| && (a + b)[j] == x
  {
    assert (a + b)[if first then k else |a| + k] == x;
  }

  /** Rank of the word in place `j` of the sorted dictionary. */
  function Rank(words: seq<string>, j: nat): (k: nat)
    requires j < |words| <= 52
    ensures k < |words|
  {
    if |words| <= 26 then j else if j < |words| - 26 then j + 26 else j - (|words| - 26)
  }

  lemma SortedAt(words: seq<string>, j: nat)
    requires j < |words| <= 52
    ensures |SortedEntries(words)| == |words| && SortedEntries(words)[j].0 == Letter(Rank(words, j))
  {
    if |words| > 26 {
      ManyAt(words, Entries(words, 26, |words|), Entries(words, 0, 26), j);
    }
  }

  lemma ManyAt(words: seq<string>, capitals: seq<(char, string)>, small: seq<(char, string)>, j: nat)
    requires j < |words| && 26 < |words| <= 52 && |capitals| == |words| - 26 && |small| == 26
    requires forall k :: 0 <= k < |capitals| ==> capitals[k].0 == Letter(26 + k)
    requires forall k :: 0 <= k < 26 ==> small[k].0 == Letter(k)
    ensures (capitals + small)[j].0 == Letter(Rank(words, j))
  {
    assert (capitals + small)[j] == if j < |capitals| then capitals[j] else small[j - |capitals|];
  }

  lemma LettersDiffer(a: nat, b: nat)
    requires a < 52 && b < 52 && a != b
    ensures Letter(a) != Letter(b)
  {
  }

  lemma EntriesAreLetters(words: seq<string>)
    requires |words| <= 52
    ensures |SortedEntries(words)| == |words| && DistinctKeys(SortedEntries(words))
    ensures forall j :: 0 <= j < |words| ==> IsLetter(SortedEntries(words)[j].0)
  {
    var entries := SortedEntries(words);
    forall j | 0 <= j < |words|
      ensures IsLetter(entries[j].0)
    {
      SortedAt(words, j);
    }
    forall i, j | 0 <= i < j < |words|
      ensures entries[i].0 != entries[j].0
    {
      SortedAt(words, i);
      SortedAt(words, j);
      LettersDiffer(Rank(words, i), Rank(words, j));
    }
  }

  /** The header read back knows every alias, and only letters. */
  lemma HeaderKnows(words: seq<string>)
    requires |words| <= 52
    ensures ParseHeader(Header(SortedEntries(words))).Some?
    ensures var dictionary := ParseHeader(Header(SortedEntries(words))).value;
            Knows(dictionary, words) && |dictionary| <= 52 && forall c :: c in dictionary ==> IsLetter(c)
  {
    var entries := SortedEntries(words);
    EntriesAreLetters(words);
    HeaderRoundTrip(entries);
    var dictionary := ParseHeader(Header(entries)).value;
    forall k | 0 <= k < |words|
      ensures Letter(k) in dictionary && dictionary[Letter(k)] == words[k]
    {
      EntryOf(words, k);
    }
    KeyCount(entries, dictionary);
  }

  lemma KeyCount(entries: seq<(char, string)>, dictionary: map<char, string>)
    requires Names(entries, dictionary)
    ensures |dictionary| <= |entries|
  {
    var keys := set k | 0 <= k < |entries| :: entries[k].0;
    assert dictionary.Keys <= keys;
    KeySet(entries);
    SubsetSize(dictionary.Keys, keys);
  }

  lemma {:induction false} KeySet(entries: seq<(char, string)>)
    ensures |set k | 0 <= k < |entries| :: entries[k].0| <= |entries|
  {
    var keys := set k | 0 <= k < |entries| :: entries[k].0;
    if entries != [] {
      var n := |entries| - 1;
      var fewer := set k | 0 <= k < n :: entries[..n][k].0;
      KeySet(entries[..n]);
      assert keys == fewer + {entries[n].0};
    }
  }

  lemma {:induction false} SubsetSize<T>(a: set<T>, b: set<T>)
    requires a <= b
    ensures |a| <= |b|
  {
    if a != {} {
      var x :| x in a;
      SubsetSize(a - {x}, b - {x});
    }
  }

  // ----- the whole view

  lemma {:induction false} SourceTail(matches: seq<(string, string)>, tail: string, last: string, words: seq<string>)
    requires |words| <= 52 && '~' !in last
    ensures Source(matches, tail + last) == Source(matches, tail) + last
    ensures Payload(matches, tail + last, words) == Payload(matches, tail, words) + last
  {
    if matches == [] {
      EscapeAppend(tail, last);
      NoTildes(last);
    } else {
      var gap, word := matches[0].0, matches[0].1;
      SourceTail(matches[1..], tail, last, words);
      ConcatAssoc(gap + word, Source(matches[1..], tail), last);
      var text, more := WordText(word, words), Payload(matches[1..], tail, words);
      ConcatAssoc(text, more, last);
      ConcatAssoc(EscapeTildes(gap), text + more, last);
    }
  }

  lemma {:induction false} EscapeAppend(a: string, b: string)
    ensures EscapeTildes(a + b) == EscapeTildes(a) + EscapeTildes(b)
  {
    if a == "" {
      assert a + b == b;
    } else {
      EscapeAppend(a[1..], b);
      assert (a + b)[1..] == a[1..] + b;
      var first := if a[0] == '~' then "~~" else [a[0]];
      ConcatAssoc(first, EscapeTildes(a[1..]), EscapeTildes(b));
    }
  }

  /** A final LF is never part of a word. */
  lemma {:induction false} TailEndsText(matches: seq<(string, string)>, tail: string)
    requires forall k :: 0 <= k < |matches| ==> IsWord(matches[k].1)
    ensures EndsWithLf(Source(matches, tail)) <==> EndsWithLf(tail)
    ensures matches != [] ==> Source(matches, tail) != ""
  {
    if matches != [] {
      TailEndsText(matches[1..], tail);
      var rest := Source(matches[1..], tail);
      if rest == "" {
        var word := matches[0].1;
        assert word[|word| - 1] in word;
        assert Source(matches, tail) == matches[0].0 + word;
      }
    }
  }

  /** The text without its final LF. */
  function Trimmed(raw: string): string {
    if EndsWithLf(raw) then raw[..|raw| - 1] else raw
  }

  /** The cut of the trimmed text. */
  lemma TrimCut(raw: string, cut: Cut, words: seq<string>)
    returns (trimmed: string)
    requires IsCut(raw, cut) && |words| <= 52
    ensures Source(cut.matches, trimmed) == Trimmed(raw)
    ensures Payload(cut.matches, cut.tail, words)
            == Payload(cut.matches, trimmed, words) + if EndsWithLf(raw) then "\n" else ""
  {
    TailEndsText(cut.matches, cut.tail);
    if EndsWithLf(raw) {
      trimmed := cut.tail[..|cut.tail| - 1];
      assert trimmed + "\n" == cut.tail;
      SourceTail(cut.matches, trimmed, "\n", words);
    } else {
      trimmed := cut.tail;
    }
  }

  lemma {:induction false} HeaderNoLf(entries: seq<(char, string)>)
    ensures NoLf(Header(entries))
    ensures entries != [] ==> NoLf(Members(entries))
    decreases |entries|
  {
    if entries != [] {
      JsonString.EncodeNoLf([entries[0].0]);
      JsonString.EncodeNoLf(entries[0].1);
      if |entries| > 1 {
        HeaderNoLf(entries[1..]);
      }
    }
  }

  /** The records of a stream: the header, the rows of the payload, the end. */
  lemma StreamRecords(raw: string, cut: Cut, words: seq<string>, trimmed: string, trailer: seq<string>)
    requires |words| <= 52 && AllNoLf(trailer)
    requires Payload(cut.matches, cut.tail, words)
             == Payload(cut.matches, trimmed, words) + if EndsWithLf(raw) then "\n" else ""
    ensures var payload := Payload(cut.matches, trimmed, words);
            var view := Stream(raw, cut, words) + Unrows(trailer);
            MAGIC <= view
            && Rows(view)[1..] == [Header(SortedEntries(words))] + Rows(payload + "\n") + ([EndRecord(raw)] + trailer)
            && Rows(payload + "\n") != [] && Join(Rows(payload + "\n")) == payload
  {
    var payload := Payload(cut.matches, trimmed, words);
    PayloadRows(payload);
    StreamText(raw, cut, words, payload, Rows(payload + "\n"), trailer);
    HeaderNoLf(SortedEntries(words));
    RecordRows(Header(SortedEntries(words)), Rows(payload + "\n"), [EndRecord(raw)] + trailer);
  }

  lemma PayloadRows(payload: string)
    ensures var rows := Rows(payload + "\n");
            AllNoLf(rows) && Unrows(rows) == payload + "\n" && rows != [] && Join(rows) == payload
  {
    var rows := Rows(payload + "\n");
    RowsNoLf(payload + "\n");
    UnrowsOfRows(payload + "\n");
    UnrowsIsJoin(rows);
    assert (Join(rows) + "\n")[..|payload|] == (payload + "\n")[..|payload|];
  }

  lemma RecordRows(header: string, rows: seq<string>, end: seq<string>)
    requires NoLf(header) && AllNoLf(rows) && AllNoLf(end)
    ensures var view := "LMR-TEXT/1" + "\n" + (header + "\n" + (Unrows(rows) + Unrows(end)));
            MAGIC <= view && Rows(view)[1..] == [header] + rows + end
  {
    RowsCons("LMR-TEXT/1", header + "\n" + (Unrows(rows) + Unrows(end)));
    RowsCons(header, Unrows(rows) + Unrows(end));
    RowsUnrows(rows, Unrows(end));
    RowsOfUnrows(end);
    ConcatAssoc([header], rows, end);
  }

  lemma StreamText(raw: string, cut: Cut, words: seq<string>, payload: string, rows: seq<string>, trailer: seq<string>)
    requires |words| <= 52
    requires Payload(cut.matches, cut.tail, words) == payload + if EndsWithLf(raw) then "\n" else ""
    requires Unrows(rows) == payload + "\n"
    ensures Stream(raw, cut, words) + Unrows(trailer)
            == "LMR-TEXT/1" + "\n"
               + (Header(SortedEntries(words)) + "\n" + (Unrows(rows) + Unrows([EndRecord(raw)] + trailer)))
  {
    UnrowsHead(EndRecord(raw), trailer);
    assert Payload(cut.matches, cut.tail, words) + (if EndsWithLf(raw) then "" else "\n") == Unrows(rows);
    StreamParts(Header(SortedEntries(words)), Payload(cut.matches, cut.tail, words),
                if EndsWithLf(raw) then "" else "\n", EndRecord(raw), Unrows(trailer));
  }

  lemma StreamParts(header: string, payload: string, last: string, end: string, trailer: string)
    ensures MAGIC + header + "\n" + payload + last + end + "\n" + trailer
            == "LMR-TEXT/1" + "\n" + (header + "\n" + ((payload + last) + (end + "\n" + trailer)))
  {
  }

  /** The view decodes to the text, whatever words were chosen, exactly when the
      text without its final LF is within 512 MiB. */
  lemma RoundTrip(raw: string, cut: Cut, words: seq<string>, trailer: seq<string>)
    requires IsCut(raw, cut) && |words| <= 52
    requires trailer == [] || (|trailer| == 1 && NoLf(trailer[0]) && IsRawHint(trailer[0]))
    ensures var view := Stream(raw, cut, words) + Unrows(trailer);
            MAGIC <= view
            && DecodedRecords(Rows(view)[1..]) == if |Trimmed(raw)| <= LIMIT then Ok(raw) else Err
  {
    var trimmed := TrimCut(raw, cut, words);
    StreamDecodes(raw, cut, words, trimmed, trailer);
    PayloadRead(cut.matches, trimmed, words);
    TrimmedBack(raw);
  }

  lemma StreamDecodes(raw: string, cut: Cut, words: seq<string>, trimmed: string, trailer: seq<string>)
    requires |words| <= 52
    requires trailer == [] || (|trailer| == 1 && NoLf(trailer[0]) && IsRawHint(trailer[0]))
    requires Payload(cut.matches, cut.tail, words)
             == Payload(cut.matches, trimmed, words) + if EndsWithLf(raw) then "\n" else ""
    ensures MAGIC <= Stream(raw, cut, words) + Unrows(trailer)
    ensures ParseHeader(Header(SortedEntries(words))).Some?
    ensures DecodedRecords(Rows(Stream(raw, cut, words) + Unrows(trailer))[1..])
            == match Unescape(Payload(cut.matches, trimmed, words), ParseHeader(Header(SortedEntries(words))).value, "")
               case Err => Err
               case Ok(text) => Ok(text + if EndRecord(raw) == "!1" then "\n" else "")
  {
    StreamRecords(raw, cut, words, trimmed, trailer);
    HeaderKnows(words);
    DecodedStream(Header(SortedEntries(words)), Rows(Payload(cut.matches, trimmed, words) + "\n"),
                  EndRecord(raw), trailer);
  }

  lemma TrimmedBack(raw: string)
    ensures Trimmed(raw) + (if EndsWithLf(raw) then "\n" else "") == raw
  {
  }

  lemma PayloadRead(matches: seq<(string, string)>, tail: string, words: seq<string>)
    requires |words| <= 52
    requires forall k :: 0 <= k < |matches| ==> IsWord(matches[k].1)
    ensures ParseHeader(Header(SortedEntries(words))).Some?
    ensures Unescape(Payload(matches, tail, words), ParseHeader(Header(SortedEntries(words))).value, "")
            == if |Source(matches, tail)| <= LIMIT then Ok(Source(matches, tail)) else Err
  {
    HeaderKnows(words);
    PayloadDecodes(matches, tail, words, ParseHeader(Header(SortedEntries(words))).value, "");
    assert "" + Source(matches, tail) == Source(matches, tail);
  }

  lemma BodyOf(header: string, rows: seq<string>, end: string, trailer: seq<string>)
    requires end == "!0" || end == "!1"
    requires trailer == [] || (|trailer| == 1 && IsRawHint(trailer[0]))
    ensures var records := [header] + rows + ([end] + trailer);
            records[0] == header && Body(records[1..]) == rows + [end]
  {
    var records := [header] + rows + ([end] + trailer);
    assert end[0] == '!';
    assert records[1..] == rows + [end] + trailer;
    if trailer == [] {
      assert records[1..][|records[1..]| - 1] == end;
      assert rows + [end] + trailer == rows + [end];
    } else {
      assert records[1..][..|records[1..]| - 1] == rows + [end];
    }
  }

  lemma DecodedBody(records: seq<string>, rows: seq<string>, end: string)
    requires records != [] && ParseHeader(records[0]).Some? && |ParseHeader(records[0]).value| <= 52
    requires forall c :: c in ParseHeader(records[0]).value ==> IsLetter(c)
    requires Body(records[1..]) == rows + [end] && (end == "!0" || end == "!1")
    ensures DecodedRecords(records)
            == match Unescape(Join(rows), ParseHeader(records[0]).value, "")
               case Err => Err
               case Ok(text) => Ok(text + if end == "!1" then "\n" else "")
  {
    assert (rows + [end])[..|rows|] == rows;
  }

  lemma DecodedStream(header: string, rows: seq<string>, end: string, trailer: seq<string>)
    requires ParseHeader(header).Some? && |ParseHeader(header).value| <= 52
    requires forall c :: c in ParseHeader(header).value ==> IsLetter(c)
    requires end == "!0" || end == "!1"
    requires trailer == [] || (|trailer| == 1 && IsRawHint(trailer[0]))
    ensures DecodedRecords([header] + rows + ([end] + trailer))
            == match Unescape(Join(rows), ParseHeader(header).value, "")
               case Err => Err
               case Ok(text) => Ok(text + if end == "!1" then "\n" else "")
  {
    BodyOf(header, rows, end, trailer);
    DecodedBody([header] + rows + ([end] + trailer), rows, end);
  }
}

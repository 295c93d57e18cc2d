/** The path and match folds of `src/reversible_views.rs`. `fold` keeps its view
    only if `expand` gives the original back; `Fold` shows that this test can
    never fail, so the only refusals are the explicit shape tests. */
module PathFolds {
  import opened Text
  import RunFolds

  const MATCHES := "Matches v1\n"
  const PATHS := "Paths v1\n"

  function Magic(search: bool): string {
    if search then MATCHES else PATHS
  }

  // ----- shape of one line

  /** A line kept whole, or a shared prefix with the rest of the line. */
  datatype Cell = Whole | Split(prefix: string, suffix: string)

  predicate IsSeparator(c: char) {
    c == '/' || c == '\\'
  }

  predicate HasSeparator(s: string) {
    exists i :: 0 <= i < |s| && IsSeparator(s[i])
  }

  /** Whether the colon at `offset` ends a path that a line number follows. */
  predicate IsMatchColon(line: string, offset: nat)
    requires offset < |line| && line[offset] == ':'
  {
    var file, tail := line[..offset], line[offset + 1..];
    match SplitOnce(tail, ':')
    case None => false
    case Some((number, _)) =>
      HasSeparator(file) && '\t' !in file
      && number != "" && number[0] != '0' && AllDigits(number)
  }

  /** First such colon at or after `from`. */
  function MatchColon(line: string, from: nat): (r: Option<nat>)
    requires from <= |line|
    ensures r.Some? ==> from <= r.value < |line| && line[r.value] == ':' && IsMatchColon(line, r.value)
    ensures forall k :: from <= k < (if r.Some? then r.value else |line|) && line[k] == ':'
                        ==> !IsMatchColon(line, k)
    decreases |line| - from
  {
    if from == |line| then None
    else if line[from] == ':' && IsMatchColon(line, from) then Some(from)
    else MatchColon(line, from + 1)
  }

  function LastSeparator(line: string): (r: Option<nat>)
    ensures r.Some? ==> r.value < |line| && IsSeparator(line[r.value])
    ensures forall k :: (if r.Some? then r.value + 1 else 0) <= k < |line| ==> !IsSeparator(line[k])
  {
    if line == "" then None
    else if IsSeparator(line[|line| - 1]) then Some(|line| - 1)
    else LastSeparator(line[..|line| - 1])
  }

  function MatchCell(line: string): Option<Cell> {
    match MatchColon(line, 0)
    case None => None
    case Some(offset) => Some(Split(line[..offset], line[offset + 1..]))
  }

  function PathCell(line: string): Option<Cell> {
    if EndsWith(line, ":") || '\t' in line || " " <= line || "@" <= line then None
    else
      match LastSeparator(line)
      case None => if line == "" then None else Some(Whole)
      case Some(at) =>
        if at + 1 == |line| then Some(Whole) else Some(Split(line[..at + 1], line[at + 1..]))
  }

  function CellOf(line: string, search: bool): Option<Cell> {
    if search then MatchCell(line) else PathCell(line)
  }

  predicate Shaped(lines: seq<string>, search: bool) {
    forall i :: 0 <= i < |lines| ==> CellOf(lines[i], search).Some?
  }

  /** Everything that `fold` may refuse. */
  predicate Foldable(raw: string, search: bool) {
    EndsWithLf(raw) && '\r' !in raw && |Lines(raw)| >= 5 && Shaped(Lines(raw), search)
  }

  ghost predicate IsPathCut(line: string, directory: string, name: string) {
    line == directory + name && directory != "" && IsSeparator(directory[|directory| - 1])
    && name != "" && forall k :: 0 <= k < |name| ==> !IsSeparator(name[k])
  }

  /** A path is cut after its last separator. */
  lemma PathSplits(line: string, directory: string, name: string)
    ensures CellOf(line, false) == Some(Split(directory, name)) <==>
            IsPathCut(line, directory, name)
            && line[|line| - 1] != ':' && '\t' !in line && line[0] != ' ' && line[0] != '@'
  {
    if IsPathCut(line, directory, name) {
      CutIsLast(line, directory, name);
    }
    var at := LastSeparator(line);
    if at.Some? && at.value + 1 < |line| {
      LastIsCut(line, line[..at.value + 1], line[at.value + 1..]);
    }
    assert line != "" ==> line[|line| - 1..] == [line[|line| - 1]];
  }

  lemma CutIsLast(line: string, directory: string, name: string)
    requires IsPathCut(line, directory, name)
    ensures LastSeparator(line) == Some(|directory| - 1)
    ensures line[..|directory|] == directory && line[|directory|..] == name
  {
    assert line[|directory| - 1] == directory[|directory| - 1];
    assert forall k :: 0 <= k < |name| ==> name[k] == line[|directory| + k];
    assert forall k :: |directory| <= k < |line| ==> line[k] == name[k - |directory|];
  }

  lemma LastIsCut(line: string, directory: string, name: string)
    requires line == directory + name && directory != "" && name != ""
    requires LastSeparator(line) == Some(|directory| - 1)
    ensures IsPathCut(line, directory, name)
  {
    assert line[|directory| - 1] == directory[|directory| - 1];
    forall k | 0 <= k < |name|
      ensures !IsSeparator(name[k])
    {
      assert name[k] == line[|directory| + k];
    }
  }

  /** The lines that make `fold` refuse a text of paths. */
  lemma PathRefused(line: string)
    ensures CellOf(line, false) == None <==>
            line == "" || line[|line| - 1] == ':' || '\t' in line || line[0] == ' ' || line[0] == '@'
  {
    assert line != "" ==> line[|line| - 1..] == [line[|line| - 1]];
  }

  /** A match: a path with a separator and no tab, a line number, and the text. */
  predicate IsMatch(line: string, file: string, number: string, text: string) {
    line == file + ":" + number + ":" + text
    && HasSeparator(file) && '\t' !in file && ':' !in number && number != "" && number[0] != '0' && AllDigits(number)
  }

  /** A match is cut at the first colon that a match allows. */
  lemma MatchSplits(line: string, file: string, rest: string)
    ensures CellOf(line, true) == Some(Split(file, rest)) <==>
            (exists number: string, text: string :: rest == number + ":" + text && IsMatch(line, file, number, text))
            && forall shorter: string, number: string, text: string ::
                 IsMatch(line, shorter, number, text) ==> |file| <= |shorter|
  {
    var at := MatchColon(line, 0);
    forall other: string, number: string, text: string | IsMatch(line, other, number, text)
      ensures at.Some? && at.value <= |other|
    {
      MatchIsColon(line, other, number, text);
    }
    if at.Some? {
      FirstMatch(line, at.value, file, rest);
    }
  }

  lemma FirstMatch(line: string, at: nat, file: string, rest: string)
    requires at < |line| && line[at] == ':' && IsMatchColon(line, at)
    requires forall other: string, number: string, text: string :: IsMatch(line, other, number, text) ==> at <= |other|
    ensures file == line[..at] && rest == line[at + 1..] <==>
            (exists number: string, text: string :: rest == number + ":" + text && IsMatch(line, file, number, text))
            && forall shorter: string, number: string, text: string ::
                 IsMatch(line, shorter, number, text) ==> |file| <= |shorter|
  {
    var number, text := ColonIsMatch(line, at);
    assert IsMatch(line, line[..at], number, text) && |line[..at]| == at;
    if exists n: string, t: string :: rest == n + ":" + t && IsMatch(line, file, n, t) {
      var n: string, t: string :| rest == n + ":" + t && IsMatch(line, file, n, t);
      MatchIsColon(line, file, n, t);
    }
  }

  lemma MatchIsColon(line: string, file: string, number: string, text: string)
    requires IsMatch(line, file, number, text)
    ensures |file| < |line| && line[|file|] == ':' && IsMatchColon(line, |file|)
    ensures line[..|file|] == file && line[|file| + 1..] == number + ":" + text
  {
    assert line == file + (":" + number + ":" + text);
    assert line[|file| + 1..] == number + [':'] + text;
    SplitOnceAt(number, ':', text);
  }

  lemma ColonIsMatch(line: string, at: nat) returns (number: string, text: string)
    requires at < |line| && line[at] == ':' && IsMatchColon(line, at)
    ensures IsMatch(line, line[..at], number, text) && line[at + 1..] == number + ":" + text
  {
    var tail := line[at + 1..];
    var (n, t) := SplitOnce(tail, ':').value;
    number, text := n, t;
    assert tail == number + ":" + text;
    assert line == line[..at] + ":" + tail;
  }

  // ----- encoder

  /** Records of one line after `previous`, and the prefix in force after it. */
  function LineRecords(line: string, previous: string, search: bool): (seq<string>, string) {
    match CellOf(line, search)
    case None => ([], previous)
    case Some(Whole) => (["=" + line], previous)
    case Some(Split(prefix, suffix)) =>
      (if prefix != previous then ["@" + prefix, " " + suffix] else [" " + suffix], prefix)
  }

  function Records(lines: seq<string>, previous: string, search: bool): seq<string> {
    if lines == [] then []
    else
      var (first, next) := LineRecords(lines[0], previous, search);
      first + Records(lines[1..], next, search)
  }

  function Indented(names: seq<string>): seq<string> {
    if names == [] then [] else [" " + names[0]] + Indented(names[1..])
  }

  /** A group of lines with the same prefix is written as the prefix, unless that
      is in force already, and what each line has after it. */
  lemma {:induction false} GroupIsFolded(group: seq<string>, names: seq<string>, rest: seq<string>, prefix: string,
                                         previous: string, search: bool)
    requires |group| == |names| > 0
    requires forall k :: 0 <= k < |group| ==> CellOf(group[k], search) == Some(Split(prefix, names[k]))
    ensures Records(group + rest, previous, search)
            == (if prefix == previous then [] else ["@" + prefix]) + (Indented(names) + Records(rest, prefix, search))
  {
    var head := if prefix == previous then [] else ["@" + prefix];
    var more := group[1..] + rest;
    assert (group + rest)[0] == group[0] && (group + rest)[1..] == more;
    assert head + [" " + names[0]]
        == if prefix == previous then [" " + names[0]] else ["@" + prefix, " " + names[0]];
    assert LineRecords(group[0], previous, search) == (head + [" " + names[0]], prefix);
    if |group| == 1 {
      assert more == rest && Indented(names) == [" " + names[0]];
      ConcatAssoc(head, Indented(names), Records(rest, prefix, search));
    } else {
      GroupIsFolded(group[1..], names[1..], rest, prefix, prefix, search);
      var tail := Indented(names[1..]) + Records(rest, prefix, search);
      assert [] + tail == tail;
      ConcatAssoc(head, [" " + names[0]], tail);
      ConcatAssoc([" " + names[0]], Indented(names[1..]), Records(rest, prefix, search));
    }
  }

  lemma RecordsStep(buffer: string, lines: seq<string>, previous: string, search: bool)
    requires lines != []
    ensures var (first, next) := LineRecords(lines[0], previous, search);
            buffer + Unrows(first) + Unrows(Records(lines[1..], next, search))
            == buffer + Unrows(Records(lines, previous, search))
  {
    var (first, next) := LineRecords(lines[0], previous, search);
    BufferAppend(buffer, first, Records(lines[1..], next, search));
    ConcatAssoc(buffer, Unrows(first), Unrows(Records(lines[1..], next, search)));
    UnrowsAppend(first, Records(lines[1..], next, search));
  }

  lemma TwoRows(buffer: string, a: string, b: string)
    ensures buffer + Unrows([a, b]) == buffer + (a + "\n") + (b + "\n")
  {
    UnrowsOne(a);
    BufferEnd(buffer, [a], b);
    assert [a] + [b] == [a, b];
  }

  method PushLine(buffer: string, line: string, previous: string, search: bool) returns (out: string, next: string)
    requires CellOf(line, search).Some?
    ensures out == buffer + Unrows(LineRecords(line, previous, search).0)
    ensures next == LineRecords(line, previous, search).1
  {
    out, next := buffer, previous;
    match CellOf(line, search).value {
      case Whole =>
        out := out + ("=" + line + "\n");
        UnrowsOne("=" + line);
      case Split(prefix, suffix) =>
        if prefix != previous {
          out := out + ("@" + prefix + "\n");
          next := prefix;
          TwoRows(buffer, "@" + prefix, " " + suffix);
        } else {
          UnrowsOne(" " + suffix);
        }
        out := out + (" " + suffix + "\n");
    }
  }

  /** `fold`. */
  method Fold(raw: string, search: bool) returns (view: Option<string>)
    ensures view.Some? <==> Foldable(raw, search)
    ensures view.Some? ==> view.value == Magic(search) + Unrows(Records(Lines(raw), "", search))
    ensures view.Some? ==> Expanded(view.value) == Ok(raw)
  {
    var lines := Lines(raw);
    if !EndsWithLf(raw) || '\r' in raw || |lines| < 5 {
      return None;
    }
    var folded := FoldLines(lines, search);
    if folded.None? {
      return None;
    }
    var back := Expand(folded.value);
    InverseHolds(raw, search);
    view := if back == Ok(raw) then folded else None;
  }

  /** What is written so far and what the other lines still add. */
  function Pending(out: string, lines: seq<string>, previous: string, search: bool): string {
    out + Unrows(Records(lines, previous, search))
  }

  method FoldLine(buffer: string, lines: seq<string>, previous: string, search: bool)
    returns (out: string, next: string)
    requires lines != [] && CellOf(lines[0], search).Some?
    ensures Pending(out, lines[1..], next, search) == Pending(buffer, lines, previous, search)
  {
    RecordsStep(buffer, lines, previous, search);
    out, next := PushLine(buffer, lines[0], previous, search);
  }

  method FoldLines(lines: seq<string>, search: bool) returns (folded: Option<string>)
    ensures folded == if Shaped(lines, search) then Some(Magic(search) + Unrows(Records(lines, "", search))) else None
  {
    var out, previous, rest := Magic(search), "", lines;
    ghost var whole := Pending(out, lines, "", search);
    while rest != []
      invariant Shaped(lines, search) <==> Shaped(rest, search)
      invariant Pending(out, rest, previous, search) == whole
      decreases |rest|
    {
      ShapedCons(rest, search);
      if CellOf(rest[0], search).None? {
        return None;
      }
      out, previous := FoldLine(out, rest, previous, search);
      rest := rest[1..];
    }
    assert out + "" == out;
    folded := Some(out);
  }

  lemma ShapedCons(lines: seq<string>, search: bool)
    requires lines != []
    ensures Shaped(lines, search) <==> CellOf(lines[0], search).Some? && Shaped(lines[1..], search)
  {
    assert lines == [lines[0]] + lines[1..];
  }

  // ----- decoder

  function Unfold(lines: seq<string>, prefix: Option<string>, search: bool, out: string): Result<string> {
    if lines == [] then Ok(out)
    else if "@" <= lines[0] then Unfold(lines[1..], Some(lines[0][1..]), search, out)
    else if " " <= lines[0] then
      if prefix.None? then Err
      else Unfold(lines[1..], prefix, search,
                  out + (prefix.value + (if search then ":" else "") + lines[0][1..] + "\n"))
    else if "=" <= lines[0] then Unfold(lines[1..], prefix, search, out + (lines[0][1..] + "\n"))
    else Err
  }

  function Expanded(view: string): Result<string> {
    if MATCHES <= view then Unfold(Lines(view[|MATCHES|..]), None, true, "")
    else if PATHS <= view then Unfold(Lines(view[|PATHS|..]), None, false, "")
    else RunFolds.Expanded(view)
  }

  // ----- every line comes back

  lemma CellIsExact(line: string, search: bool)
    requires CellOf(line, search).Some?
    ensures match CellOf(line, search).value
            case Whole => true
            case Split(prefix, suffix) =>
              prefix != "" && line == prefix + (if search then ":" else "") + suffix
  {
    if search {
      ColonCut(line, MatchColon(line, 0).value);
    } else if CellOf(line, search).value.Split? {
      var at := LastSeparator(line).value;
      assert line == line[..at + 1] + "" + line[at + 1..];
    }
  }

  lemma ColonCut(line: string, at: nat)
    requires at < |line| && line[at] == ':' && IsMatchColon(line, at)
    ensures line[..at] != "" && line == line[..at] + ":" + line[at + 1..]
  {
  }

  method Expand(view: string) returns (result: Result<string>)
    ensures result == Expanded(view)
  {
    if !(MATCHES <= view) && !(PATHS <= view) {
      result := RunFolds.ExpandRuns(view);
      return;
    }
    var search := MATCHES <= view;
    var body := if search then view[|MATCHES|..] else view[|PATHS|..];
    var lines := Lines(body);
    var out, prefix, i := "", None, 0;
    assert lines[0..] == lines;
    while i < |lines|
      invariant i <= |lines|
      invariant Expanded(view) == Unfold(lines[i..], prefix, search, out)
    {
      var line := lines[i];
      assert lines[i..][1..] == lines[i + 1..];
      if "@" <= line {
        prefix := Some(line[1..]);
      } else if " " <= line {
        if prefix.None? {
          return Err;
        }
        out := out + (prefix.value + (if search then ":" else "") + line[1..] + "\n");
      } else if "=" <= line {
        out := out + (line[1..] + "\n");
      } else {
        return Err;
      }
      i := i + 1;
    }
    result := Ok(out);
  }

  lemma WholeUnfolds(line: string, search: bool, rest: seq<string>, current: Option<string>, out: string)
    ensures Unfold(["=" + line] + rest, current, search, out) == Unfold(rest, current, search, out + (line + "\n"))
  {
    assert (["=" + line] + rest)[1..] == rest;
    assert ("=" + line)[0] == '=' && ("=" + line)[1..] == line;
  }

  lemma SuffixUnfolds(prefix: string, suffix: string, search: bool, rest: seq<string>, out: string)
    ensures Unfold([" " + suffix] + rest, Some(prefix), search, out)
            == Unfold(rest, Some(prefix), search, out + (prefix + (if search then ":" else "") + suffix + "\n"))
  {
    assert ([" " + suffix] + rest)[1..] == rest;
    assert (" " + suffix)[0] == ' ' && (" " + suffix)[1..] == suffix;
  }

  lemma PrefixUnfolds(prefix: string, search: bool, rest: seq<string>, current: Option<string>, out: string)
    ensures Unfold(["@" + prefix] + rest, current, search, out) == Unfold(rest, Some(prefix), search, out)
  {
    assert (["@" + prefix] + rest)[1..] == rest;
    assert ("@" + prefix)[1..] == prefix;
  }

  /** One line's records unfold to the line; the decoder then holds the prefix
      that the encoder will compare with. */
  lemma LineUnfolds(line: string, previous: string, search: bool, rest: seq<string>,
                    current: Option<string>, out: string)
    returns (after: Option<string>)
    requires CellOf(line, search).Some?
    requires previous != "" ==> current == Some(previous)
    ensures var (first, next) := LineRecords(line, previous, search);
            (next != "" ==> after == Some(next))
            && Unfold(first + rest, current, search, out) == Unfold(rest, after, search, out + (line + "\n"))
  {
    CellIsExact(line, search);
    match CellOf(line, search).value
    case Whole =>
      WholeUnfolds(line, search, rest, current, out);
      after := current;
    case Split(prefix, suffix) =>
      SplitUnfolds(line, prefix, suffix, previous, search, rest, current, out);
      after := Some(prefix);
  }

  lemma SplitUnfolds(line: string, prefix: string, suffix: string, previous: string, search: bool, rest: seq<string>,
                     current: Option<string>, out: string)
    requires prefix != "" && (previous != "" ==> current == Some(previous))
    requires line == prefix + (if search then ":" else "") + suffix
    ensures var first := if prefix != previous then ["@" + prefix, " " + suffix] else [" " + suffix];
            Unfold(first + rest, current, search, out) == Unfold(rest, Some(prefix), search, out + (line + "\n"))
  {
    SuffixUnfolds(prefix, suffix, search, rest, out);
    if prefix != previous {
      PrefixUnfolds(prefix, search, [" " + suffix] + rest, current, out);
      assert ["@" + prefix, " " + suffix] + rest == ["@" + prefix] + ([" " + suffix] + rest);
    }
  }

  lemma {:induction false} RecordsUnfold(lines: seq<string>, previous: string, search: bool,
                                         current: Option<string>, out: string)
    requires Shaped(lines, search)
    requires previous != "" ==> current == Some(previous)
    ensures Unfold(Records(lines, previous, search), current, search, out) == Ok(out + Unrows(lines))
  {
    if lines == [] {
      assert out + "" == out;
    } else {
      var (first, next) := LineRecords(lines[0], previous, search);
      var rest := Records(lines[1..], next, search);
      var after := LineUnfolds(lines[0], previous, search, rest, current, out);
      RecordsUnfold(lines[1..], next, search, after, out + (lines[0] + "\n"));
      ConcatAssoc(out, lines[0] + "\n", Unrows(lines[1..]));
    }
  }

  predicate Clean(s: string) {
    '\n' !in s && '\r' !in s
  }

  predicate AllClean(rows: seq<string>) {
    forall i :: 0 <= i < |rows| ==> Clean(rows[i])
  }

  lemma {:induction false} RecordsClean(lines: seq<string>, previous: string, search: bool)
    requires Shaped(lines, search) && AllClean(lines)
    ensures AllClean(Records(lines, previous, search))
  {
    if lines != [] {
      var (first, next) := LineRecords(lines[0], previous, search);
      CellIsExact(lines[0], search);
      RecordsClean(lines[1..], next, search);
      assert AllClean(first);
    }
  }

  lemma CrIsInRow(row: string)
    ensures EndsWith(row, "\r") ==> '\r' in row
  {
    if EndsWith(row, "\r") {
      assert row[|row| - 1] == row[|row| - 1..][0];
    }
  }

  lemma CleanLines(rows: seq<string>)
    requires AllClean(rows)
    ensures Lines(Unrows(rows)) == rows
  {
    LinesOfUnrows(rows);
    forall i | 0 <= i < |rows|
      ensures StripCr(rows[i]) == rows[i]
    {
      CrIsInRow(rows[i]);
    }
    assert StripCrs(rows) == rows;
  }

  /** Which rows are folded: five or more, all of the shape. */
  lemma CleanFolds(rows: seq<string>, search: bool)
    requires AllClean(rows)
    ensures Foldable(Unrows(rows), search) <==> |rows| >= 5 && forall i :: 0 <= i < |rows| ==> CellOf(rows[i], search).Some?
  {
    CleanLines(rows);
    UnrowsIsClean(rows);
  }

  lemma {:induction false} UnrowsIsClean(rows: seq<string>)
    requires AllClean(rows)
    ensures '\r' !in Unrows(rows) && (rows != [] ==> EndsWithLf(Unrows(rows)))
  {
    if rows != [] {
      UnrowsIsClean(rows[1..]);
      assert rows[1..] == [] ==> Unrows(rows) == rows[0] + "\n";
    }
  }

  lemma {:induction false} RowsAreClean(rows: seq<string>)
    requires AllNoLf(rows) && '\r' !in Unrows(rows)
    ensures AllClean(rows)
  {
    if rows != [] {
      assert forall c :: c in rows[0] ==> c in Unrows(rows);
      assert forall c :: c in Unrows(rows[1..]) ==> c in Unrows(rows);
      RowsAreClean(rows[1..]);
    }
  }

  /** The inverse check of `fold` succeeds on every text that reaches it. */
  lemma InverseHolds(raw: string, search: bool)
    requires Foldable(raw, search)
    ensures Expanded(Magic(search) + Unrows(Records(Lines(raw), "", search))) == Ok(raw)
  {
    FoldableRows(raw, search);
    var records := Records(Lines(raw), "", search);
    RecordsClean(Lines(raw), "", search);
    CleanLines(records);
    RecordsUnfold(Lines(raw), "", search, None, "");
    assert "" + raw == raw;
    ExpandedBody(search, Unrows(records));
  }

  lemma FoldableRows(raw: string, search: bool)
    requires Foldable(raw, search)
    ensures AllClean(Lines(raw)) && Unrows(Lines(raw)) == raw
  {
    RowsNoLf(raw);
    UnrowsOfRows(raw);
    RowsAreClean(Rows(raw));
    CleanLines(Rows(raw));
  }

  lemma ExpandedBody(search: bool, body: string)
    ensures Expanded(Magic(search) + body) == Unfold(Lines(body), None, search, "")
  {
    var view := Magic(search) + body;
    assert view[|Magic(search)|..] == body;
    assert view[0] == Magic(search)[0];
  }
}

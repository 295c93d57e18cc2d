/** The MSBuild binary log reader of `src/parity_filters.rs`: base-128 integers,
    a growing string table and event records whose header layout depends on
    flags. Each reading function takes the bytes left and returns what it read
    (`None` when the source gives up) with the bytes left after it. */
module Binlog {
  import opened Bytes
  import opened Text

  const U32_LIMIT: nat := 0x1_0000_0000

  const END_OF_FILE := 0
  const ERROR := 9
  const WARNING := 10
  const STRING := 24

  type Utf8 = seq<Byte>
  type Strings = seq<Utf8>

  // ----- integers and strings

  /** Position of the first byte below 128 among the first `limit`. */
  function Terminator(s: seq<Byte>, limit: nat): (r: Option<nat>)
    ensures r.Some? ==> r.value < |s| && r.value < limit && s[r.value] < 128
    ensures forall i :: 0 <= i < |s| && i < (if r.Some? then r.value else limit) ==> s[i] >= 128
  {
    if s == [] || limit == 0 then None
    else if s[0] < 128 then Some(0)
    else
      match Terminator(s[1..], limit - 1)
      case None => None
      case Some(k) => Some(k + 1)
  }

  function FromDigits(digits: seq<Byte>): nat {
    if digits == [] then 0 else digits[0] % 128 + 128 * FromDigits(digits[1..])
  }

  /** `Cursor::exact`. */
  function Exact(s: seq<Byte>, n: nat): (Option<seq<Byte>>, seq<Byte>) {
    if |s| < n then (None, s) else (Some(s[..n]), s[n..])
  }

  /** `Cursor::i7`: a too large fifth digit is consumed all the same. */
  function I7(s: seq<Byte>): (r: (Option<nat>, seq<Byte>))
    ensures |r.1| <= |s| && (r.0.Some? ==> |r.1| < |s|)
  {
    match Terminator(s, 5)
    case None => (None, s)
    case Some(k) =>
      if k == 4 && s[4] > 15 then (None, s[5..]) else (Some(FromDigits(s[..k + 1])), s[k + 1..])
  }

  /** `Cursor::dotnet_string`; `utf8` accepts the valid encodings. */
  function DotnetString(s: seq<Byte>, utf8: Utf8 -> bool): (r: (Option<Utf8>, seq<Byte>))
    ensures |r.1| <= |s| && (r.0.Some? ==> |r.1| < |s|)
  {
    var (length, rest) := I7(s);
    if length.None? then (None, rest)
    else
      var (bytes, after) := Exact(rest, length.value);
      if bytes.None? then (None, after)
      else (if utf8(bytes.value) then Some(bytes.value) else None, after)
  }

  /** `read_string_depth`: `Some(None)` is a null string; index 2 announces the
      real index, at most five times over. */
  function ReadStringDepth(s: seq<Byte>, strings: Strings, depth: nat): (r: (Option<Option<Utf8>>, seq<Byte>))
    ensures |r.1| <= |s|
    decreases |s|
  {
    var (index, rest) := I7(s);
    match index
    case None => (None, rest)
    case Some(i) =>
      if i == 0 then (Some(None), rest)
      else if i == 1 then (Some(Some([])), rest)
      else if i == 2 then (if depth > 4 then (Some(None), rest) else ReadStringDepth(rest, strings, depth + 1))
      else if i < 10 then (Some(None), rest)
      else (Some(if i - 10 < |strings| then Some(strings[i - 10]) else None), rest)
  }

  function ReadString(s: seq<Byte>, strings: Strings): (r: (Option<Option<Utf8>>, seq<Byte>))
    ensures |r.1| <= |s|
  {
    ReadStringDepth(s, strings, 0)
  }

  // ----- event headers

  datatype HeaderCell = TextCell(retain: bool) | Integers(n: nat) | Fixed(bytes: nat) | TextList

  predicate Has(flags: nat, bit: nat)
    requires bit > 0
  {
    flags / bit % 2 == 1
  }

  const CONTEXT: nat := 1
  const MESSAGE: nat := 0x4
  const TIMESTAMP: nat := 0x20
  const ARGUMENTS: nat := 0x4000
  const IMPORTANCE: nat := 0x8000
  const EXTENDED: nat := 0x1_0000

  /** The cells of a header, in order. */
  function Layout(flags: nat, version: int): seq<HeaderCell> {
    (if Has(flags, MESSAGE) then [TextCell(true)] else [])
    + (if Has(flags, CONTEXT) then [Integers(if version > 1 then 7 else 6)] else [])
    + (if Has(flags, TIMESTAMP) then [Fixed(8), Integers(1)] else [])
    + (if Has(flags, EXTENDED) then [TextCell(false), Integers(1), TextCell(false)] else [])
    + (if Has(flags, ARGUMENTS) then [TextList] else [])
    + (if version < 13 || Has(flags, IMPORTANCE) then [Integers(1)] else [])
  }

  function SkipIntegers(s: seq<Byte>, n: nat): (r: (bool, seq<Byte>))
    ensures |r.1| <= |s|
    decreases n
  {
    if n == 0 then (true, s)
    else
      var (value, rest) := I7(s);
      if value.None? then (false, rest) else SkipIntegers(rest, n - 1)
  }

  function SkipStrings(s: seq<Byte>, strings: Strings, n: nat): (r: (bool, seq<Byte>))
    ensures |r.1| <= |s|
    decreases n
  {
    if n == 0 then (true, s)
    else
      var (text, rest) := ReadString(s, strings);
      if text.None? then (false, rest) else SkipStrings(rest, strings, n - 1)
  }

  /** One cell: the message after it, or `None` when the source gives up. */
  function ReadCell(cell: HeaderCell, s: seq<Byte>, strings: Strings, message: Option<Utf8>)
    : (Option<Option<Utf8>>, seq<Byte>)
  {
    match cell
    case TextCell(retain) =>
      var (text, rest) := ReadString(s, strings);
      if text.None? then (None, rest) else (Some(if retain then text.value else message), rest)
    case Integers(n) =>
      var (ok, rest) := SkipIntegers(s, n);
      (if ok then Some(message) else None, rest)
    case Fixed(n) =>
      var (bytes, rest) := Exact(s, n);
      (if bytes.Some? then Some(message) else None, rest)
    case TextList =>
      var (n, rest) := I7(s);
      if n.None? then (None, rest)
      else
        var (ok, after) := SkipStrings(rest, strings, n.value);
        (if ok then Some(message) else None, after)
  }

  function ReadCells(cells: seq<HeaderCell>, s: seq<Byte>, strings: Strings, message: Option<Utf8>)
    : (Option<Option<Utf8>>, seq<Byte>)
  {
    if cells == [] then (Some(message), s)
    else
      var (next, rest) := ReadCell(cells[0], s, strings, message);
      if next.None? then (None, rest) else ReadCells(cells[1..], rest, strings, next.value)
  }

  /** `scan_event_header`. */
  function ScanHeader(s: seq<Byte>, version: int, strings: Strings): (Option<Option<Utf8>>, seq<Byte>) {
    var (flags, rest) := I7(s);
    if flags.None? then (None, rest) else ReadCells(Layout(flags.value, version), rest, strings, None)
  }

  // ----- records

  datatype Issue = Issue(error: bool, code: Utf8, file: Utf8, line: nat, column: nat, message: Utf8)

  function OrEmpty(text: Option<Utf8>): Utf8 {
    if text.Some? then text.value else []
  }

  function OrZero(n: Option<nat>): nat {
    if n.Some? then n.value else 0
  }

  /** `read_issue`. */
  function ReadIssue(error: bool, record: seq<Byte>, version: int, strings: Strings): Option<Issue> {
    var (message, s0) := ScanHeader(record, version, strings);
    var (subcategory, s1) := ReadString(s0, strings);
    var (code, s2) := ReadString(s1, strings);
    var (file, s3) := ReadString(s2, strings);
    var (project, s4) := ReadString(s3, strings);
    var (line, s5) := I7(s4);
    var (column, s6) := I7(s5);
    if message.None? || subcategory.None? || code.None? || file.None? || project.None? then None
    else if OrEmpty(code.value) == [] && message.value.None? then None
    else
      Some(Issue(error, OrEmpty(code.value), OrEmpty(file.value), OrZero(line), OrZero(column), OrEmpty(message.value)))
  }

  /** What one turn of the record loop leaves: whether it goes on, the strings,
      the issue it found, and the bytes left. */
  datatype Turn = Turn(more: bool, strings: Strings, found: seq<Issue>, left: seq<Byte>)

  /** A length-prefixed record of any kind but a string. */
  function Framed(kind: nat, s: seq<Byte>, version: int, strings: Strings): (t: Turn)
    ensures |t.left| <= |s|
  {
    var (length, rest) := I7(s);
    if length.None? then Turn(false, strings, [], rest)
    else
      var (record, left) := Exact(rest, length.value);
      if record.None? then Turn(false, strings, [], left)
      else if kind != ERROR && kind != WARNING then Turn(true, strings, [], left)
      else
        match ReadIssue(kind == ERROR, record.value, version, strings)
        case None => Turn(true, strings, [], left)
        case Some(issue) => Turn(true, strings, [issue], left)
  }

  function Record(s: seq<Byte>, version: int, strings: Strings, utf8: Utf8 -> bool): (t: Turn)
    ensures t.more ==> |t.left| < |s|
  {
    var (kind, rest) := I7(s);
    if kind.None? || kind.value == END_OF_FILE then Turn(false, strings, [], rest)
    else if kind.value == STRING then
      var (text, left) := DotnetString(rest, utf8);
      if text.None? then Turn(false, strings, [], left) else Turn(true, strings + [text.value], [], left)
    else Framed(kind.value, rest, version, strings)
  }

  /** The record loop of `summarize_binlog`. */
  function Issues(s: seq<Byte>, version: int, strings: Strings, utf8: Utf8 -> bool): seq<Issue>
    decreases |s|
  {
    var t := Record(s, version, strings, utf8);
    t.found + if t.more then Issues(t.left, version, t.strings, utf8) else []
  }

  function Signed(n: nat): int {
    if n >= 0x8000_0000 then n - U32_LIMIT else n
  }

  /** `summarize_binlog` on an inflated payload, before the report is printed. */
  function Summary(payload: seq<Byte>, utf8: Utf8 -> bool): Option<seq<Issue>> {
    if |payload| < 8 then None
    else
      var version := Signed(FromLe(payload[..4]));
      if version < 18 then None
      else
        var issues := Issues(payload[8..], version, [], utf8);
        if issues == [] then None else Some(issues)
  }

  lemma SkipOne(s: seq<Byte>, n: nat)
    requires n > 0
    ensures SkipIntegers(s, n) == if I7(s).0.None? then (false, I7(s).1) else SkipIntegers(I7(s).1, n - 1)
  {
  }

  lemma SkipOneText(s: seq<Byte>, strings: Strings, n: nat)
    requires n > 0
    ensures var (text, rest) := ReadStringDepth(s, strings, 0);
            SkipStrings(s, strings, n) == if text.None? then (false, rest) else SkipStrings(rest, strings, n - 1)
  {
  }

  /** What is left of skipping `n` integers once one of them may have failed. */
  function StillIntegers(ok: bool, s: seq<Byte>, n: nat): (bool, seq<Byte>) {
    if ok then SkipIntegers(s, n) else (false, s)
  }

  /** What is left of skipping `n` strings once one of them may have failed. */
  function StillStrings(ok: bool, s: seq<Byte>, strings: Strings, n: nat): (bool, seq<Byte>) {
    if ok then SkipStrings(s, strings, n) else (false, s)
  }

  // ----- the reader itself

  class Cursor {
    const bytes: seq<Byte>
    var pos: nat

    predicate Valid()
      reads this
    {
      pos <= |bytes|
    }

    function Left(): seq<Byte>
      requires Valid()
      reads this
    {
      bytes[pos..]
    }

    constructor (bytes: seq<Byte>)
      ensures Valid() && this.bytes == bytes && Left() == bytes
    {
      this.bytes, pos := bytes, 0;
    }

    method Take(n: nat) returns (taken: Option<seq<Byte>>)
      requires Valid()
      modifies this
      ensures Valid() && (taken, Left()) == Exact(old(Left()), n)
    {
      if |bytes| - pos < n {
        return None;
      }
      ghost var left := Left();
      var start := pos;
      pos := pos + n;
      taken := Some(bytes[start..pos]);
      assert left[..n] == bytes[start..pos] && left[n..] == bytes[pos..];
    }

    method ReadI7() returns (value: Option<nat>)
      requires Valid()
      modifies this
      ensures Valid() && (value, Left()) == I7(old(Left()))
    {
      var end := Terminator(bytes[pos..], 5);
      if end.None? {
        return None;
      }
      var width := end.value + 1;
      var digits := Take(width);
      if width == 5 && digits.value[4] > 15 {
        return None;
      }
      var total: nat, k: nat := 0, width;
      assert digits.value[width..] == [];
      while k > 0
        invariant 0 <= k <= width && total == FromDigits(digits.value[k..])
      {
        k := k - 1;
        assert digits.value[k..][1..] == digits.value[k + 1..];
        total := total * 128 + digits.value[k] % 128;
      }
      value := Some(total);
    }

    method ReadDotnetString(utf8: Utf8 -> bool) returns (text: Option<Utf8>)
      requires Valid()
      modifies this
      ensures Valid() && (text, Left()) == DotnetString(old(Left()), utf8)
    {
      var length := ReadI7();
      if length.None? {
        return None;
      }
      text := Take(length.value);
      if text.Some? && !utf8(text.value) {
        text := None;
      }
    }

    method ReadStringAt(strings: Strings, depth: nat) returns (text: Option<Option<Utf8>>)
      requires Valid()
      modifies this
      ensures Valid() && (text, Left()) == ReadStringDepth(old(Left()), strings, depth)
      decreases |Left()|
    {
      var index := ReadI7();
      if index.None? {
        return None;
      }
      var i := index.value;
      if i == 0 {
        return Some(None);
      }
      if i == 1 {
        return Some(Some([]));
      }
      if i == 2 {
        if depth > 4 {
          return Some(None);
        }
        text := ReadStringAt(strings, depth + 1);
        return;
      }
      if i < 10 {
        return Some(None);
      }
      text := Some(if i - 10 < |strings| then Some(strings[i - 10]) else None);
    }

    /** One cell of the layout; `message` becomes a retained text. */
    method ScanCell(cell: HeaderCell, strings: Strings, before: Option<Utf8>) returns (message: Option<Option<Utf8>>)
      requires Valid()
      modifies this
      ensures Valid() && (message, Left()) == ReadCell(cell, old(Left()), strings, before)
    {
      match cell
      case TextCell(retain) =>
        var text := ReadStringAt(strings, 0);
        message := if text.None? then None else Some(if retain then text.value else before);
      case Integers(n) =>
        var ok := SkipI7s(n);
        message := if ok then Some(before) else None;
      case Fixed(n) =>
        var taken := Take(n);
        message := if taken.Some? then Some(before) else None;
      case TextList =>
        var n := ReadI7();
        if n.None? {
          return None;
        }
        var ok := SkipTexts(strings, n.value);
        message := if ok then Some(before) else None;
    }

    method SkipI7s(n: nat) returns (ok: bool)
      requires Valid()
      modifies this
      ensures Valid() && (ok, Left()) == SkipIntegers(old(Left()), n)
    {
      var k := n;
      ghost var whole := SkipIntegers(Left(), n);
      ok := true;
      while k > 0 && ok
        invariant Valid() && StillIntegers(ok, Left(), k) == whole
      {
        ok := SkipI7(k);
        k := k - 1;
      }
    }

    method SkipI7(ghost k: nat) returns (ok: bool)
      requires Valid() && k > 0
      modifies this
      ensures Valid()
      ensures SkipIntegers(old(Left()), k) == StillIntegers(ok, Left(), k - 1)
    {
      SkipOne(Left(), k);
      var value := ReadI7();
      ok := value.Some?;
    }

    method SkipTexts(strings: Strings, n: nat) returns (ok: bool)
      requires Valid()
      modifies this
      ensures Valid() && (ok, Left()) == SkipStrings(old(Left()), strings, n)
    {
      var k := n;
      ghost var whole := SkipStrings(Left(), strings, n);
      ok := true;
      while k > 0 && ok
        invariant Valid() && StillStrings(ok, Left(), strings, k) == whole
      {
        ok := SkipText(strings, k);
        k := k - 1;
      }
    }

    method SkipText(strings: Strings, ghost k: nat) returns (ok: bool)
      requires Valid() && k > 0
      modifies this
      ensures Valid()
      ensures SkipStrings(old(Left()), strings, k) == StillStrings(ok, Left(), strings, k - 1)
    {
      SkipOneText(Left(), strings, k);
      var text := ReadStringAt(strings, 0);
      ok := text.Some?;
    }

    method ScanEventHeader(version: int, strings: Strings) returns (message: Option<Option<Utf8>>)
      requires Valid()
      modifies this
      ensures Valid() && (message, Left()) == ScanHeader(old(Left()), version, strings)
    {
      var flags := ReadI7();
      if flags.None? {
        return None;
      }
      var cells := Layout(flags.value, version);
      var current: Option<Utf8> := None;
      var i := 0;
      ghost var start := Left();
      assert cells[0..] == cells;
      while i < |cells|
        invariant Valid() && i <= |cells|
        invariant ReadCells(cells[i..], Left(), strings, current) == ReadCells(cells, start, strings, None)
      {
        assert cells[i..][1..] == cells[i + 1..];
        var next := ScanCell(cells[i], strings, current);
        if next.None? {
          return None;
        }
        current := next.value;
        i := i + 1;
      }
      message := Some(current);
    }
  }

  method ReadIssueRecord(error: bool, record: seq<Byte>, version: int, strings: Strings) returns (issue: Option<Issue>)
    ensures issue == ReadIssue(error, record, version, strings)
  {
    var cursor := new Cursor(record);
    var message := cursor.ScanEventHeader(version, strings);
    if message.None? {
      return None;
    }
    var subcategory := cursor.ReadStringAt(strings, 0);
    if subcategory.None? {
      return None;
    }
    var code := cursor.ReadStringAt(strings, 0);
    if code.None? {
      return None;
    }
    var file := cursor.ReadStringAt(strings, 0);
    if file.None? {
      return None;
    }
    var project := cursor.ReadStringAt(strings, 0);
    if project.None? {
      return None;
    }
    var line := cursor.ReadI7();
    var column := cursor.ReadI7();
    if OrEmpty(code.value) == [] && message.value.None? {
      return None;
    }
    issue := Some(Issue(error, OrEmpty(code.value), OrEmpty(file.value), OrZero(line), OrZero(column),
                        OrEmpty(message.value)));
  }

  method NextFramed(cursor: Cursor, kind: nat, version: int, strings: Strings)
    returns (more: bool, found: seq<Issue>)
    requires cursor.Valid()
    modifies cursor
    ensures cursor.Valid() && Turn(more, strings, found, cursor.Left()) == Framed(kind, old(cursor.Left()), version, strings)
  {
    more, found := false, [];
    var length := cursor.ReadI7();
    if length.None? {
      return;
    }
    var record := cursor.Take(length.value);
    if record.None? {
      return;
    }
    if kind == ERROR || kind == WARNING {
      var issue := ReadIssueRecord(kind == ERROR, record.value, version, strings);
      if issue.Some? {
        found := [issue.value];
      }
    }
    more := true;
  }

  /** One turn of the record loop; `more` is false where the loop stops. */
  method NextRecord(cursor: Cursor, version: int, known: Strings, utf8: Utf8 -> bool)
    returns (more: bool, strings: Strings, found: seq<Issue>)
    requires cursor.Valid()
    modifies cursor
    ensures cursor.Valid() && Turn(more, strings, found, cursor.Left()) == Record(old(cursor.Left()), version, known, utf8)
  {
    more, strings, found := false, known, [];
    var kind := cursor.ReadI7();
    if kind.None? || kind.value == END_OF_FILE {
      return;
    }
    if kind.value == STRING {
      var text := cursor.ReadDotnetString(utf8);
      if text.Some? {
        strings := strings + [text.value];
        more := true;
      }
      return;
    }
    more, found := NextFramed(cursor, kind.value, version, strings);
  }

  /** The record loop of `summarize_binlog`. */
  method ReadIssues(payload: seq<Byte>, version: int, utf8: Utf8 -> bool) returns (issues: seq<Issue>)
    ensures issues == Issues(payload, version, [], utf8)
  {
    var cursor := new Cursor(payload);
    var strings: Strings := [];
    issues := [];
    var more := true;
    ghost var whole := Rest(true, payload, version, [], utf8);
    NothingBefore(whole);
    while more
      invariant cursor.Valid() && fresh(cursor)
      invariant issues + Rest(more, cursor.Left(), version, strings, utf8) == whole
      decreases more, |cursor.Left()|
    {
      more, strings, issues := Collect(cursor, version, strings, utf8, issues);
    }
    assert issues == issues + [];
  }

  lemma NothingBefore<T>(s: seq<T>)
    ensures [] + s == s
  {
  }

  method Collect(cursor: Cursor, version: int, known: Strings, utf8: Utf8 -> bool, before: seq<Issue>)
    returns (more: bool, strings: Strings, issues: seq<Issue>)
    requires cursor.Valid()
    modifies cursor
    ensures cursor.Valid() && (more ==> |cursor.Left()| < |old(cursor.Left())|)
    ensures issues + Rest(more, cursor.Left(), version, strings, utf8)
            == before + Rest(true, old(cursor.Left()), version, known, utf8)
  {
    ghost var left := cursor.Left();
    TurnStep(before, left, version, known, utf8);
    var found;
    more, strings, found := NextRecord(cursor, version, known, utf8);
    issues := before + found;
  }

  function Rest(more: bool, left: seq<Byte>, version: int, strings: Strings, utf8: Utf8 -> bool): seq<Issue> {
    if more then Issues(left, version, strings, utf8) else []
  }

  lemma TurnStep(issues: seq<Issue>, left: seq<Byte>, version: int, strings: Strings, utf8: Utf8 -> bool)
    ensures var t := Record(left, version, strings, utf8);
            issues + t.found + Rest(t.more, t.left, version, t.strings, utf8)
            == issues + Rest(true, left, version, strings, utf8)
  {
    var t := Record(left, version, strings, utf8);
    ConcatAssoc(issues, t.found, Rest(t.more, t.left, version, t.strings, utf8));
  }

  /** `summarize_binlog` on an inflated payload, before the report is printed. */
  method SummarizeBinlog(payload: seq<Byte>, utf8: Utf8 -> bool) returns (issues: Option<seq<Issue>>)
    ensures issues == Summary(payload, utf8)
  {
    if |payload| < 8 {
      return None;
    }
    var version := Signed(FromLe(payload[..4]));
    if version < 18 {
      return None;
    }
    var found := ReadIssues(payload[8..], version, utf8);
    issues := if found == [] then None else Some(found);
  }

  // ----- the writer

  /** `push_i7`. */
  function WriteI7(n: nat): (bytes: seq<Byte>)
    ensures bytes != []
  {
    if n < 128 then [n] else [n % 128 + 128] + WriteI7(n / 128)
  }

  lemma {:induction false} I7Value(n: nat)
    ensures FromDigits(WriteI7(n)) == n
    ensures forall i :: 0 <= i < |WriteI7(n)| - 1 ==> WriteI7(n)[i] >= 128
    ensures WriteI7(n)[|WriteI7(n)| - 1] < 128
  {
    if n < 128 {
      assert [n][1..] == [];
    } else {
      I7Value(n / 128);
      assert WriteI7(n)[1..] == WriteI7(n / 128);
    }
  }

  lemma OneDigitLess(n: nat, bound: nat)
    requires n < 16 * (128 * bound)
    ensures n / 128 < 16 * bound
  {
  }

  lemma {:induction false} I7Width(n: nat, width: nat)
    requires n < 16 * Power128(width)
    ensures |WriteI7(n)| <= width + 1
    ensures |WriteI7(n)| == width + 1 ==> WriteI7(n)[width] < 16
  {
    if n >= 128 && width > 0 {
      OneDigitLess(n, Power128(width - 1));
      I7Width(n / 128, width - 1);
    }
  }

  function Power128(width: nat): nat {
    if width == 0 then 1 else 128 * Power128(width - 1)
  }

  lemma {:induction false} TerminatorAt(s: seq<Byte>, k: nat, limit: nat)
    requires k < |s| && k < limit && s[k] < 128 && forall i :: 0 <= i < k ==> s[i] >= 128
    ensures Terminator(s, limit) == Some(k)
  {
    if k > 0 {
      TerminatorAt(s[1..], k - 1, limit - 1);
    }
  }

  /** Every 32-bit integer is read back, and nothing after it is touched. */
  lemma I7RoundTrip(n: nat, rest: seq<Byte>)
    requires n < U32_LIMIT
    ensures I7(WriteI7(n) + rest) == (Some(n), rest)
  {
    assert Power128(4) == 0x1000_0000;
    I7Value(n);
    I7Width(n, 4);
    var bytes := WriteI7(n);
    var s := bytes + rest;
    var k := |bytes| - 1;
    assert forall i :: 0 <= i < |bytes| ==> s[i] == bytes[i];
    TerminatorAt(s, k, 5);
    assert s[..k + 1] == bytes && s[k + 1..] == rest;
  }

  /** A string reference: `hops` times the index 2, then the real index. */
  datatype Reference = Reference(hops: nat, index: nat) {
    predicate Valid() {
      hops <= 5 && index < U32_LIMIT && index != 2
    }

    /** The text it names: index 0 and 3 to 9 are null, index 1 is empty. */
    function Text(strings: Strings): Option<Utf8> {
      if index == 1 then Some([])
      else if index >= 10 && index - 10 < |strings| then Some(strings[index - 10])
      else None
    }

    function Bytes(): seq<Byte>
      decreases hops
    {
      if hops == 0 then WriteI7(index) else WriteI7(2) + Reference(hops - 1, index).Bytes()
    }
  }

  lemma IndexReads(index: nat, rest: seq<Byte>, strings: Strings, depth: nat)
    requires index < U32_LIMIT && index != 2
    ensures ReadStringDepth(WriteI7(index) + rest, strings, depth) == (Some(Reference(0, index).Text(strings)), rest)
  {
    I7RoundTrip(index, rest);
  }

  lemma HopReads(rest: seq<Byte>, strings: Strings, depth: nat)
    requires depth <= 4
    ensures ReadStringDepth(WriteI7(2) + rest, strings, depth) == ReadStringDepth(rest, strings, depth + 1)
  {
    I7RoundTrip(2, rest);
  }

  lemma {:induction false} ReferenceReads(r: Reference, rest: seq<Byte>, strings: Strings, depth: nat)
    requires r.Valid() && r.hops + depth <= 5
    ensures ReadStringDepth(r.Bytes() + rest, strings, depth) == (Some(r.Text(strings)), rest)
    decreases r.hops
  {
    if r.hops == 0 {
      IndexReads(r.index, rest, strings, depth);
    } else {
      var next := Reference(r.hops - 1, r.index);
      ReferenceReads(next, rest, strings, depth + 1);
      HopReads(next.Bytes() + rest, strings, depth);
      HopBytes(r, rest);
    }
  }

  lemma HopBytes(r: Reference, rest: seq<Byte>)
    requires r.hops > 0
    ensures r.Bytes() + rest == WriteI7(2) + (Reference(r.hops - 1, r.index).Bytes() + rest)
  {
    ConcatAssoc(WriteI7(2), Reference(r.hops - 1, r.index).Bytes(), rest);
  }

  function WriteIntegers(values: seq<nat>): seq<Byte> {
    if values == [] then [] else WriteI7(values[0]) + WriteIntegers(values[1..])
  }

  predicate AllU32(values: seq<nat>) {
    forall i :: 0 <= i < |values| ==> values[i] < U32_LIMIT
  }

  lemma {:induction false} IntegersSkip(values: seq<nat>, rest: seq<Byte>)
    requires AllU32(values)
    ensures SkipIntegers(WriteIntegers(values) + rest, |values|) == (true, rest)
  {
    if values == [] {
      assert [] + rest == rest;
    } else {
      ConcatAssoc(WriteI7(values[0]), WriteIntegers(values[1..]), rest);
      I7RoundTrip(values[0], WriteIntegers(values[1..]) + rest);
      IntegersSkip(values[1..], rest);
    }
  }

  function WriteReferences(refs: seq<Reference>): seq<Byte> {
    if refs == [] then [] else refs[0].Bytes() + WriteReferences(refs[1..])
  }

  predicate AllValid(refs: seq<Reference>) {
    forall i :: 0 <= i < |refs| ==> refs[i].Valid()
  }

  lemma {:induction false} ReferencesSkip(refs: seq<Reference>, rest: seq<Byte>, strings: Strings)
    requires AllValid(refs)
    ensures SkipStrings(WriteReferences(refs) + rest, strings, |refs|) == (true, rest)
  {
    if refs == [] {
      assert [] + rest == rest;
    } else {
      ConcatAssoc(refs[0].Bytes(), WriteReferences(refs[1..]), rest);
      ReferenceReads(refs[0], WriteReferences(refs[1..]) + rest, strings, 0);
      ReferencesSkip(refs[1..], rest, strings);
    }
  }

  // ----- headers

  /** The contents of one header cell. */
  datatype CellValue =
    | TextValue(retain: bool, text: Reference)
    | IntegerValues(values: seq<nat>)
    | FixedValue(bytes: seq<Byte>)
    | ListValue(refs: seq<Reference>)
  {
    predicate Valid() {
      match this
      case TextValue(_, text) => text.Valid()
      case IntegerValues(values) => AllU32(values)
      case FixedValue(_) => true
      case ListValue(refs) => AllValid(refs) && |refs| < U32_LIMIT
    }

    function Cell(): HeaderCell {
      match this
      case TextValue(retain, _) => TextCell(retain)
      case IntegerValues(values) => Integers(|values|)
      case FixedValue(bytes) => Fixed(|bytes|)
      case ListValue(_) => TextList
    }

    function Bytes(): seq<Byte> {
      match this
      case TextValue(_, text) => text.Bytes()
      case IntegerValues(values) => WriteIntegers(values)
      case FixedValue(bytes) => bytes
      case ListValue(refs) => WriteI7(|refs|) + WriteReferences(refs)
    }

    function Message(strings: Strings, before: Option<Utf8>): Option<Utf8> {
      match this
      case TextValue(true, text) => text.Text(strings)
      case _ => before
    }
  }

  lemma CellReads(v: CellValue, rest: seq<Byte>, strings: Strings, message: Option<Utf8>)
    requires v.Valid()
    ensures ReadCell(v.Cell(), v.Bytes() + rest, strings, message) == (Some(v.Message(strings, message)), rest)
  {
    match v
    case TextValue(retain, text) => ReferenceReads(text, rest, strings, 0);
    case IntegerValues(values) => IntegersSkip(values, rest);
    case FixedValue(bytes) =>
      assert (bytes + rest)[..|bytes|] == bytes && (bytes + rest)[|bytes|..] == rest;
    case ListValue(refs) =>
      ConcatAssoc(WriteI7(|refs|), WriteReferences(refs), rest);
      I7RoundTrip(|refs|, WriteReferences(refs) + rest);
      ReferencesSkip(refs, rest, strings);
  }

  function CellBytes(values: seq<CellValue>): seq<Byte> {
    if values == [] then [] else values[0].Bytes() + CellBytes(values[1..])
  }

  function Cells(values: seq<CellValue>): seq<HeaderCell> {
    if values == [] then [] else [values[0].Cell()] + Cells(values[1..])
  }

  function MessageOf(values: seq<CellValue>, strings: Strings, message: Option<Utf8>): Option<Utf8> {
    if values == [] then message else MessageOf(values[1..], strings, values[0].Message(strings, message))
  }

  predicate AllCellsValid(values: seq<CellValue>) {
    forall i :: 0 <= i < |values| ==> values[i].Valid()
  }

  lemma {:induction false} CellsRead(values: seq<CellValue>, rest: seq<Byte>, strings: Strings, message: Option<Utf8>)
    requires AllCellsValid(values)
    ensures ReadCells(Cells(values), CellBytes(values) + rest, strings, message)
            == (Some(MessageOf(values, strings, message)), rest)
  {
    if values == [] {
      assert [] + rest == rest;
    } else {
      ConcatAssoc(values[0].Bytes(), CellBytes(values[1..]), rest);
      CellReads(values[0], CellBytes(values[1..]) + rest, strings, message);
      assert Cells(values)[1..] == Cells(values[1..]);
      CellsRead(values[1..], rest, strings, values[0].Message(strings, message));
    }
  }

  /** A header: its flags, and a value for each cell they announce. */
  datatype CellHeader = CellHeader(flags: nat, values: seq<CellValue>) {
    predicate Valid(version: int) {
      flags < U32_LIMIT && AllCellsValid(values) && Cells(values) == Layout(flags, version)
    }

    function Bytes(): seq<Byte> {
      WriteI7(flags) + CellBytes(values)
    }
  }

  lemma CellHeaderReads(h: CellHeader, rest: seq<Byte>, version: int, strings: Strings)
    requires h.Valid(version)
    ensures ScanHeader(h.Bytes() + rest, version, strings) == (Some(MessageOf(h.values, strings, None)), rest)
  {
    ConcatAssoc(WriteI7(h.flags), CellBytes(h.values), rest);
    I7RoundTrip(h.flags, CellBytes(h.values) + rest);
    CellsRead(h.values, rest, strings, None);
  }

  /** The message is the text of the first cell when the flags announce one, and
      null otherwise: no other cell is ever taken for it. */
  lemma MessageIsFirstCell(h: CellHeader, version: int, strings: Strings)
    requires h.Valid(version)
    ensures Has(h.flags, MESSAGE) ==>
              h.values != [] && h.values[0].TextValue? && MessageOf(h.values, strings, None) == h.values[0].text.Text(strings)
    ensures !Has(h.flags, MESSAGE) ==> MessageOf(h.values, strings, None) == None
  {
    CellsAre(h.values);
    OneRetainedCell(h.flags, version);
    if Has(h.flags, MESSAGE) {
      KeepsMessage(h.values[1..], strings, h.values[0].text.Text(strings));
    } else {
      KeepsMessage(h.values, strings, None);
    }
  }

  lemma OneRetainedCell(flags: nat, version: int)
    ensures var layout := Layout(flags, version);
            (Has(flags, MESSAGE) ==> layout != [] && layout[0] == TextCell(true))
            && forall i :: (if Has(flags, MESSAGE) then 1 else 0) <= i < |layout| ==> layout[i] != TextCell(true)
  {
  }

  lemma {:induction false} CellsAre(values: seq<CellValue>)
    ensures |Cells(values)| == |values| && forall i :: 0 <= i < |values| ==> Cells(values)[i] == values[i].Cell()
  {
    if values != [] {
      CellsAre(values[1..]);
    }
  }

  lemma {:induction false} KeepsMessage(values: seq<CellValue>, strings: Strings, message: Option<Utf8>)
    requires forall i :: 0 <= i < |values| ==> values[i].Cell() != TextCell(true)
    ensures MessageOf(values, strings, message) == message
  {
    if values != [] {
      assert values[0].Cell() != TextCell(true);
      KeepsMessage(values[1..], strings, message);
    }
  }

  // ----- headers by their parts

  /** The flag bits that no part of a header depends on. */
  datatype OtherBits = OtherBits(second: nat, fourth: nat, fifth: nat, middle: nat, high: nat) {
    predicate Valid() {
      second <= 1 && fourth <= 1 && fifth <= 1 && middle < 0x100 && high < 0x8000
    }

    function Sum(): nat {
      second * 2 + fourth * 8 + fifth * 0x10 + middle * 0x40 + high * 0x2_0000
    }
  }

  /** What a header may hold: a message; seven integers of context; a time of eight
      bytes with its kind; a type, a number and a text; arguments; an importance. */
  datatype Header = Header(
    message: Option<Reference>,
    context: Option<seq<nat>>,
    time: Option<(seq<Byte>, nat)>,
    extended: Option<(Reference, nat, Reference)>,
    arguments: Option<seq<Reference>>,
    importance: Option<nat>,
    others: OtherBits)
  {
    predicate Valid() {
      others.Valid() && (message.Some? ==> message.value.Valid())
      && (context.Some? ==> |context.value| == 7 && AllU32(context.value))
      && (time.Some? ==> |time.value.0| == 8 && time.value.1 < U32_LIMIT)
      && (extended.Some? ==> extended.value.0.Valid() && extended.value.1 < U32_LIMIT && extended.value.2.Valid())
      && (arguments.Some? ==> AllValid(arguments.value) && |arguments.value| < U32_LIMIT)
      && (importance.Some? ==> importance.value < U32_LIMIT)
    }

    function Flags(): nat {
      (if message.Some? then 4 else 0) + (if context.Some? then 1 else 0) + (if time.Some? then 0x20 else 0)
      + (if extended.Some? then 0x1_0000 else 0) + (if arguments.Some? then 0x4000 else 0)
      + (if importance.Some? then 0x8000 else 0) + others.Sum()
    }

    function Bytes(): seq<Byte> {
      WriteI7(Flags())
      + ((if message.Some? then message.value.Bytes() else [])
      + ((if context.Some? then WriteIntegers(context.value) else [])
      + ((if time.Some? then time.value.0 + WriteI7(time.value.1) else [])
      + ((if extended.Some? then
            extended.value.0.Bytes() + (WriteI7(extended.value.1) + extended.value.2.Bytes()) else [])
      + ((if arguments.Some? then WriteI7(|arguments.value|) + WriteReferences(arguments.value) else [])
      + (if importance.Some? then WriteI7(importance.value) else []))))))
    }

    function Message(strings: Strings): Option<Utf8> {
      if message.Some? then message.value.Text(strings) else None
    }
  }

  /** One bit of a number written as a sum. */
  lemma BitOf(low: nat, bit: nat, b: nat, rest: nat)
    requires bit > 0 && low < bit && b <= 1
    ensures Has(low + bit * (b + 2 * rest), bit) <==> b == 1
  {
    DivideSum(low, bit, b + 2 * rest);
    assert (b + 2 * rest) % 2 == b;
  }

  lemma DivideSum(low: nat, d: nat, q: nat)
    requires low < d
    ensures (low + d * q) / d == q
  {
    if (low + d * q) / d != q {
      var other := (low + d * q) / d;
      assert low + d * q == d * other + (low + d * q) % d;
      if other > q {
        Larger(d, other, q);
      } else {
        Larger(d, q, other);
      }
    }
  }

  lemma Larger(d: nat, a: nat, b: nat)
    requires a > b
    ensures d * a >= d * b + d
  {
    Distributes(d, b, a - b);
    AtLeastOnce(d, a - b);
  }

  lemma Distributes(d: nat, b: nat, k: nat)
    ensures d * (b + k) == d * b + d * k
  {
  }

  lemma AtLeastOnce(d: nat, k: nat)
    requires k >= 1
    ensures d * k >= d
  {
  }

  function One(present: bool): nat {
    if present then 1 else 0
  }

  /** The flags as a number: bits 0, 2, 5, 14, 15 and 16 between the others. */
  function FlagSum(c: nat, m: nat, t: nat, a: nat, i: nat, e: nat, o: OtherBits): nat {
    4 * m + c + 0x20 * t + 0x1_0000 * e + 0x4000 * a + 0x8000 * i + o.Sum()
  }

  lemma ContextBit(c: nat, m: nat, t: nat, a: nat, i: nat, e: nat, o: OtherBits)
    requires c <= 1
    ensures Has(FlagSum(c, m, t, a, i, e, o), CONTEXT) <==> c == 1
  {
    var rest := o.second + 2 * m + 4 * o.fourth + 8 * o.fifth + 0x10 * t + 0x20 * o.middle
                + 0x2000 * (a + 2 * i + 4 * e + 8 * o.high);
    assert FlagSum(c, m, t, a, i, e, o) == 0 + CONTEXT * (c + 2 * rest);
    BitOf(0, CONTEXT, c, rest);
  }

  lemma MessageBit(c: nat, m: nat, t: nat, a: nat, i: nat, e: nat, o: OtherBits)
    requires c <= 1 && m <= 1 && o.Valid()
    ensures Has(FlagSum(c, m, t, a, i, e, o), MESSAGE) <==> m == 1
  {
    var rest := o.fourth + 2 * o.fifth + 4 * t + 8 * o.middle + 0x800 * (a + 2 * i + 4 * e + 8 * o.high);
    assert FlagSum(c, m, t, a, i, e, o) == (c + 2 * o.second) + MESSAGE * (m + 2 * rest);
    BitOf(c + 2 * o.second, MESSAGE, m, rest);
  }

  lemma MiddleBits(c: nat, m: nat, t: nat, a: nat, i: nat, e: nat, o: OtherBits)
    requires c <= 1 && m <= 1 && t <= 1 && a <= 1 && o.Valid()
    ensures var f := FlagSum(c, m, t, a, i, e, o);
            (Has(f, TIMESTAMP) <==> t == 1) && (Has(f, ARGUMENTS) <==> a == 1)
  {
    var low := c + 2 * o.second + 4 * m + 8 * o.fourth + 0x10 * o.fifth;
    BitOf(low, TIMESTAMP, t, o.middle + 0x100 * (a + 2 * i + 4 * e + 8 * o.high));
    BitOf(low + 0x20 * t + 0x40 * o.middle, ARGUMENTS, a, i + 2 * e + 4 * o.high);
  }

  lemma HighBits(c: nat, m: nat, t: nat, a: nat, i: nat, e: nat, o: OtherBits)
    requires c <= 1 && m <= 1 && t <= 1 && a <= 1 && i <= 1 && e <= 1 && o.Valid()
    ensures var f := FlagSum(c, m, t, a, i, e, o);
            (Has(f, IMPORTANCE) <==> i == 1) && (Has(f, EXTENDED) <==> e == 1) && f < U32_LIMIT
  {
    var low := c + 2 * o.second + 4 * m + 8 * o.fourth + 0x10 * o.fifth + 0x20 * t + 0x40 * o.middle + 0x4000 * a;
    BitOf(low, IMPORTANCE, i, e + 2 * o.high);
    BitOf(low + 0x8000 * i, EXTENDED, e, o.high);
  }

  lemma FlagBits(h: Header)
    requires h.Valid()
    ensures var f := h.Flags();
            f < U32_LIMIT
            && (Has(f, CONTEXT) <==> h.context.Some?) && (Has(f, MESSAGE) <==> h.message.Some?)
            && (Has(f, TIMESTAMP) <==> h.time.Some?) && (Has(f, ARGUMENTS) <==> h.arguments.Some?)
            && (Has(f, IMPORTANCE) <==> h.importance.Some?) && (Has(f, EXTENDED) <==> h.extended.Some?)
  {
    var c, m, t, a := One(h.context.Some?), One(h.message.Some?), One(h.time.Some?), One(h.arguments.Some?);
    var i, e := One(h.importance.Some?), One(h.extended.Some?);
    assert h.Flags() == FlagSum(c, m, t, a, i, e, h.others);
    ContextBit(c, m, t, a, i, e, h.others);
    MessageBit(c, m, t, a, i, e, h.others);
    MiddleBits(c, m, t, a, i, e, h.others);
    HighBits(c, m, t, a, i, e, h.others);
  }

  // the same header as cells

  function MessageCells(h: Header): seq<CellValue> {
    if h.message.Some? then [TextValue(true, h.message.value)] else []
  }

  function ContextCells(h: Header): seq<CellValue> {
    if h.context.Some? then [IntegerValues(h.context.value)] else []
  }

  function TimeCells(h: Header): seq<CellValue> {
    if h.time.Some? then [FixedValue(h.time.value.0), IntegerValues([h.time.value.1])] else []
  }

  function ExtendedCells(h: Header): seq<CellValue> {
    if h.extended.Some? then
      [TextValue(false, h.extended.value.0), IntegerValues([h.extended.value.1]), TextValue(false, h.extended.value.2)]
    else []
  }

  function ArgumentCells(h: Header): seq<CellValue> {
    if h.arguments.Some? then [ListValue(h.arguments.value)] else []
  }

  function ImportanceCells(h: Header): seq<CellValue> {
    if h.importance.Some? then [IntegerValues([h.importance.value])] else []
  }

  function CellsOf(h: Header): seq<CellValue> {
    MessageCells(h) + (ContextCells(h) + (TimeCells(h) + (ExtendedCells(h) + (ArgumentCells(h) + ImportanceCells(h)))))
  }

  lemma {:induction false} CellsAppend(a: seq<CellValue>, b: seq<CellValue>)
    ensures Cells(a + b) == Cells(a) + Cells(b) && CellBytes(a + b) == CellBytes(a) + CellBytes(b)
  {
    if a == [] {
      assert a + b == b;
    } else {
      assert (a + b)[1..] == a[1..] + b;
      CellsAppend(a[1..], b);
      ConcatAssoc(a[0].Bytes(), CellBytes(a[1..]), CellBytes(b));
    }
  }

  lemma OneCell(a: CellValue)
    ensures Cells([a]) == [a.Cell()] && CellBytes([a]) == a.Bytes()
  {
    assert CellBytes([a][1..]) == [];
  }

  lemma TwoCells(a: CellValue, b: CellValue)
    ensures Cells([a, b]) == [a.Cell(), b.Cell()] && CellBytes([a, b]) == a.Bytes() + b.Bytes()
  {
    OneCell(a);
    OneCell(b);
    CellsAppend([a], [b]);
    assert [a] + [b] == [a, b];
  }

  lemma ThreeCells(a: CellValue, b: CellValue, c: CellValue)
    ensures Cells([a, b, c]) == [a.Cell(), b.Cell(), c.Cell()]
    ensures CellBytes([a, b, c]) == a.Bytes() + (b.Bytes() + c.Bytes())
  {
    OneCell(a);
    TwoCells(b, c);
    CellsAppend([a], [b, c]);
    assert [a] + [b, c] == [a, b, c];
  }

  lemma OneInteger(n: nat)
    ensures WriteIntegers([n]) == WriteI7(n)
  {
    assert WriteIntegers([n][1..]) == [];
  }

  lemma TimeIs(h: Header)
    requires h.Valid()
    ensures CellBytes(TimeCells(h)) == if h.time.Some? then h.time.value.0 + WriteI7(h.time.value.1) else []
    ensures Cells(TimeCells(h)) == if h.time.Some? then [Fixed(8), Integers(1)] else []
  {
    if h.time.Some? {
      TwoCells(FixedValue(h.time.value.0), IntegerValues([h.time.value.1]));
      OneInteger(h.time.value.1);
    }
  }

  lemma ExtendedIs(h: Header)
    ensures CellBytes(ExtendedCells(h))
            == if h.extended.Some? then
                 h.extended.value.0.Bytes() + (WriteI7(h.extended.value.1) + h.extended.value.2.Bytes())
               else []
    ensures Cells(ExtendedCells(h)) == if h.extended.Some? then [TextCell(false), Integers(1), TextCell(false)] else []
  {
    if h.extended.Some? {
      ThreeCells(TextValue(false, h.extended.value.0), IntegerValues([h.extended.value.1]),
                 TextValue(false, h.extended.value.2));
      OneInteger(h.extended.value.1);
    }
  }

  lemma SingleIs(h: Header)
    requires h.Valid()
    ensures CellBytes(MessageCells(h)) == if h.message.Some? then h.message.value.Bytes() else []
    ensures Cells(MessageCells(h)) == if h.message.Some? then [TextCell(true)] else []
    ensures CellBytes(ContextCells(h)) == if h.context.Some? then WriteIntegers(h.context.value) else []
    ensures Cells(ContextCells(h)) == if h.context.Some? then [Integers(7)] else []
    ensures CellBytes(ArgumentCells(h))
            == if h.arguments.Some? then WriteI7(|h.arguments.value|) + WriteReferences(h.arguments.value) else []
    ensures Cells(ArgumentCells(h)) == if h.arguments.Some? then [TextList] else []
    ensures CellBytes(ImportanceCells(h)) == if h.importance.Some? then WriteI7(h.importance.value) else []
    ensures Cells(ImportanceCells(h)) == if h.importance.Some? then [Integers(1)] else []
  {
    if h.message.Some? {
      OneCell(TextValue(true, h.message.value));
    }
    if h.context.Some? {
      OneCell(IntegerValues(h.context.value));
    }
    if h.arguments.Some? {
      OneCell(ListValue(h.arguments.value));
    }
    if h.importance.Some? {
      OneCell(IntegerValues([h.importance.value]));
      OneInteger(h.importance.value);
    }
  }

  lemma SixCells(a: seq<CellValue>, b: seq<CellValue>, c: seq<CellValue>, d: seq<CellValue>, e: seq<CellValue>,
                 f: seq<CellValue>)
    ensures Cells(a + (b + (c + (d + (e + f)))))
            == Cells(a) + (Cells(b) + (Cells(c) + (Cells(d) + (Cells(e) + Cells(f)))))
    ensures CellBytes(a + (b + (c + (d + (e + f)))))
            == CellBytes(a) + (CellBytes(b) + (CellBytes(c) + (CellBytes(d) + (CellBytes(e) + CellBytes(f)))))
  {
    CellsAppend(e, f);
    CellsAppend(d, e + f);
    CellsAppend(c, d + (e + f));
    CellsAppend(b, c + (d + (e + f)));
    CellsAppend(a, b + (c + (d + (e + f))));
  }

  lemma LeftToRight<T>(a: seq<T>, b: seq<T>, c: seq<T>, d: seq<T>, e: seq<T>, f: seq<T>)
    ensures a + b + c + d + e + f == a + (b + (c + (d + (e + f))))
  {
  }

  lemma HeaderIsCells(h: Header, version: int)
    requires h.Valid() && version >= 13
    ensures var cells := CellHeader(h.Flags(), CellsOf(h));
            cells.Valid(version) && cells.Bytes() == h.Bytes()
  {
    FlagBits(h);
    TimeIs(h);
    ExtendedIs(h);
    SingleIs(h);
    var a, b, c := MessageCells(h), ContextCells(h), TimeCells(h);
    var d, e, f := ExtendedCells(h), ArgumentCells(h), ImportanceCells(h);
    SixCells(a, b, c, d, e, f);
    LeftToRight(Cells(a), Cells(b), Cells(c), Cells(d), Cells(e), Cells(f));
    LayoutIs(h, version);
    PartsAreValid(h);
  }

  lemma LayoutIs(h: Header, version: int)
    requires h.Valid() && version >= 13
    ensures Layout(h.Flags(), version)
            == (if h.message.Some? then [TextCell(true)] else [])
               + (if h.context.Some? then [Integers(7)] else [])
               + (if h.time.Some? then [Fixed(8), Integers(1)] else [])
               + (if h.extended.Some? then [TextCell(false), Integers(1), TextCell(false)] else [])
               + (if h.arguments.Some? then [TextList] else [])
               + (if h.importance.Some? then [Integers(1)] else [])
  {
    FlagBits(h);
  }

  lemma PartsAreValid(h: Header)
    requires h.Valid()
    ensures AllCellsValid(CellsOf(h))
  {
    assert AllCellsValid(MessageCells(h)) && AllCellsValid(ContextCells(h)) && AllCellsValid(TimeCells(h));
    assert AllCellsValid(ExtendedCells(h)) && AllCellsValid(ArgumentCells(h)) && AllCellsValid(ImportanceCells(h));
    ValidAppend(ArgumentCells(h), ImportanceCells(h));
    ValidAppend(ExtendedCells(h), ArgumentCells(h) + ImportanceCells(h));
    ValidAppend(TimeCells(h), ExtendedCells(h) + (ArgumentCells(h) + ImportanceCells(h)));
    ValidAppend(ContextCells(h), TimeCells(h) + (ExtendedCells(h) + (ArgumentCells(h) + ImportanceCells(h))));
    ValidAppend(MessageCells(h),
                ContextCells(h) + (TimeCells(h) + (ExtendedCells(h) + (ArgumentCells(h) + ImportanceCells(h)))));
  }

  lemma ValidAppend(a: seq<CellValue>, b: seq<CellValue>)
    requires AllCellsValid(a) && AllCellsValid(b)
    ensures AllCellsValid(a + b)
  {
  }

  /** A header written part by part is read to its end, with its message. */
  lemma HeaderReads(h: Header, rest: seq<Byte>, version: int, strings: Strings)
    requires h.Valid() && version >= 13
    ensures ScanHeader(h.Bytes() + rest, version, strings) == (Some(h.Message(strings)), rest)
  {
    var cells := CellHeader(h.Flags(), CellsOf(h));
    HeaderIsCells(h, version);
    CellHeaderReads(cells, rest, version, strings);
    MessageIsFirstCell(cells, version, strings);
    FlagBits(h);
    assert h.message.Some? ==> cells.values[0] == TextValue(true, h.message.value);
  }

  // ----- events and whole logs

  datatype Event =
    | NewString(text: Utf8)
    | Unknown(kind: nat, payload: seq<Byte>)
    | Diagnostic(
        error: bool, header: Header, subcategory: Reference, code: Reference, file: Reference,
        project: Reference, line: nat, column: nat, extra: seq<Byte>)
  {
    predicate Valid(utf8: Utf8 -> bool) {
      match this
      case NewString(text) => utf8(text) && |text| < U32_LIMIT
      case Unknown(kind, payload) =>
        kind < U32_LIMIT && kind !in {0, 9, 10, 24} && |payload| < U32_LIMIT
      case Diagnostic(_, header, subcategory, code, file, project, line, column, _) =>
        header.Valid() && subcategory.Valid() && code.Valid() && file.Valid() && project.Valid()
        && line < U32_LIMIT && column < U32_LIMIT && |DiagnosticBody(this)| < U32_LIMIT
    }

    function Bytes(): seq<Byte> {
      match this
      case NewString(text) => WriteI7(24) + (WriteI7(|text|) + text)
      case Unknown(kind, payload) => WriteI7(kind) + (WriteI7(|payload|) + payload)
      case Diagnostic(error, _, _, _, _, _, _, _, _) =>
        WriteI7(if error then 9 else 10) + (WriteI7(|DiagnosticBody(this)|) + DiagnosticBody(this))
    }

    /** The issue a diagnostic reports; one without code and message reports none. */
    function Reports(strings: Strings): seq<Issue> {
      match this
      case Diagnostic(error, header, _, code, file, _, line, column, _) =>
        var message := header.Message(strings);
        var name := OrEmpty(code.Text(strings));
        if name == [] && message.None? then []
        else [Issue(error, name, OrEmpty(file.Text(strings)), line, column, OrEmpty(message))]
      case _ => []
    }

    function Defines(): Strings {
      if NewString? then [text] else []
    }
  }

  /** The body of a diagnostic record; `extra` is what the reader never reaches. */
  function DiagnosticBody(e: Event): seq<Byte>
    requires e.Diagnostic?
  {
    e.header.Bytes()
    + (e.subcategory.Bytes() + (e.code.Bytes() + (e.file.Bytes() + (e.project.Bytes()
    + (WriteI7(e.line) + (WriteI7(e.column) + e.extra))))))
  }

  lemma IssueReads(e: Event, version: int, strings: Strings, utf8: Utf8 -> bool)
    requires e.Diagnostic? && e.Valid(utf8) && version >= 13
    ensures var read := ReadIssue(e.error, DiagnosticBody(e), version, strings);
            e.Reports(strings) == if read.Some? then [read.value] else []
  {
    var s6 := e.extra;
    var s5 := WriteI7(e.column) + s6;
    var s4 := WriteI7(e.line) + s5;
    var s3 := e.project.Bytes() + s4;
    var s2 := e.file.Bytes() + s3;
    var s1 := e.code.Bytes() + s2;
    var s0 := e.subcategory.Bytes() + s1;
    HeaderReads(e.header, s0, version, strings);
    ReferenceReads(e.subcategory, s1, strings, 0);
    ReferenceReads(e.code, s2, strings, 0);
    ReferenceReads(e.file, s3, strings, 0);
    ReferenceReads(e.project, s4, strings, 0);
    I7RoundTrip(e.line, s5);
    I7RoundTrip(e.column, s6);
  }

  function LogBytes(events: seq<Event>): seq<Byte> {
    if events == [] then [] else events[0].Bytes() + LogBytes(events[1..])
  }

  /** The issues of a log, each read with the strings defined before it. */
  function LogIssues(events: seq<Event>, strings: Strings): seq<Issue> {
    if events == [] then []
    else events[0].Reports(strings) + LogIssues(events[1..], strings + events[0].Defines())
  }

  predicate AllEventsValid(events: seq<Event>, utf8: Utf8 -> bool) {
    forall i :: 0 <= i < |events| ==> events[i].Valid(utf8)
  }

  /** The end of a log: nothing, or the end record and whatever follows it. */
  predicate IsEnd(tail: seq<Byte>) {
    tail == [] || WriteI7(0) <= tail
  }

  /** The reader finds nothing more here, whatever strings it knows. */
  ghost predicate Silent(tail: seq<Byte>, version: int, utf8: Utf8 -> bool) {
    forall strings :: Issues(tail, version, strings, utf8) == []
  }

  lemma EndReads(tail: seq<Byte>, version: int, utf8: Utf8 -> bool)
    requires IsEnd(tail)
    ensures Silent(tail, version, utf8)
  {
    if tail != [] {
      var rest := tail[1..];
      assert tail == WriteI7(END_OF_FILE) + rest;
      I7RoundTrip(END_OF_FILE, rest);
    }
  }

  lemma StringReads(text: Utf8, rest: seq<Byte>, version: int, strings: Strings, utf8: Utf8 -> bool)
    requires utf8(text) && |text| < U32_LIMIT
    ensures Issues(NewString(text).Bytes() + rest, version, strings, utf8)
            == Issues(rest, version, strings + [text], utf8)
  {
    var more := WriteI7(|text|) + (text + rest);
    assert NewString(text).Bytes() + rest == WriteI7(STRING) + more;
    I7RoundTrip(STRING, more);
    I7RoundTrip(|text|, text + rest);
    assert (text + rest)[..|text|] == text && (text + rest)[|text|..] == rest;
  }

  lemma RecordReads(kind: nat, body: seq<Byte>, rest: seq<Byte>, version: int, strings: Strings, utf8: Utf8 -> bool)
    requires kind < U32_LIMIT && kind != END_OF_FILE && kind != STRING && |body| < U32_LIMIT
    ensures Issues(WriteI7(kind) + (WriteI7(|body|) + body) + rest, version, strings, utf8)
            == (if kind == ERROR || kind == WARNING then
                  match ReadIssue(kind == ERROR, body, version, strings)
                  case None => []
                  case Some(issue) => [issue]
                else [])
               + Issues(rest, version, strings, utf8)
  {
    var more := WriteI7(|body|) + (body + rest);
    assert WriteI7(kind) + (WriteI7(|body|) + body) + rest == WriteI7(kind) + more;
    I7RoundTrip(kind, more);
    I7RoundTrip(|body|, body + rest);
    assert (body + rest)[..|body|] == body && (body + rest)[|body|..] == rest;
  }

  lemma EventReads(e: Event, rest: seq<Byte>, version: int, strings: Strings, utf8: Utf8 -> bool)
    requires e.Valid(utf8) && version >= 13
    ensures Issues(e.Bytes() + rest, version, strings, utf8)
            == e.Reports(strings) + Issues(rest, version, strings + e.Defines(), utf8)
  {
    assert strings + [] == strings;
    match e
    case NewString(text) =>
      StringReads(text, rest, version, strings, utf8);
      assert [] + Issues(rest, version, strings + [text], utf8) == Issues(rest, version, strings + [text], utf8);
    case Unknown(kind, payload) => RecordReads(kind, payload, rest, version, strings, utf8);
    case Diagnostic(error, _, _, _, _, _, _, _, _) =>
      RecordReads(if error then ERROR else WARNING, DiagnosticBody(e), rest, version, strings, utf8);
      IssueReads(e, version, strings, utf8);
  }

  lemma {:induction false} LogReads(events: seq<Event>, tail: seq<Byte>, version: int, strings: Strings, utf8: Utf8 -> bool)
    requires AllEventsValid(events, utf8) && Silent(tail, version, utf8) && version >= 13
    ensures Issues(LogBytes(events) + tail, version, strings, utf8) == LogIssues(events, strings)
  {
    if events == [] {
      assert [] + tail == tail;
    } else {
      ConcatAssoc(events[0].Bytes(), LogBytes(events[1..]), tail);
      EventReads(events[0], LogBytes(events[1..]) + tail, version, strings, utf8);
      LogReads(events[1..], tail, version, strings + events[0].Defines(), utf8);
    }
  }

  /** Reading inverts writing: the issues of any log come back in order, with the
      message, code, file, line and column that were written. */
  lemma SummaryReads(version: nat, minReader: nat, events: seq<Event>, tail: seq<Byte>, utf8: Utf8 -> bool)
    requires 18 <= version < 0x8000_0000 && minReader < U32_LIMIT
    requires AllEventsValid(events, utf8) && IsEnd(tail)
    ensures Summary(Le(version, 4) + Le(minReader, 4) + (LogBytes(events) + tail), utf8)
            == if LogIssues(events, []) == [] then None else Some(LogIssues(events, []))
  {
    EndReads(tail, version, utf8);
    SummaryOf(version, minReader, events, tail, utf8);
  }

  lemma SummaryOf(version: nat, minReader: nat, events: seq<Event>, tail: seq<Byte>, utf8: Utf8 -> bool)
    requires 18 <= version < 0x8000_0000 && minReader < U32_LIMIT
    requires AllEventsValid(events, utf8) && Silent(tail, version, utf8)
    ensures Summary(Le(version, 4) + Le(minReader, 4) + (LogBytes(events) + tail), utf8)
            == if LogIssues(events, []) == [] then None else Some(LogIssues(events, []))
  {
    var log := LogBytes(events) + tail;
    var payload := Le(version, 4) + Le(minReader, 4) + log;
    assert payload[..4] == Le(version, 4) && payload[8..] == log;
    assert Power256(4) == U32_LIMIT;
    LeRoundTrip(version, 4);
    LogReads(events, tail, version, [], utf8);
  }
}

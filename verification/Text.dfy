/** Byte-exact text and the row operations of the Rust standard library that
    every codec uses. A text is its UTF-8 encoding written one char per byte,
    so `|s|` is `str::len` and every limit below counts bytes. */
module Text {
  datatype Option<+T> = None | Some(value: T)

  /** Rust errors carry only a message; which message is not modelled. */
  datatype Result<+T> = Ok(value: T) | Err

  /** 512 MiB, the expansion limit shared by all decoders. */
  const LIMIT: nat := 512 * 1024 * 1024

  const USIZE_LIMIT: nat := 0x1_0000_0000_0000_0000

  predicate NoLf(s: string) {
    '\n' !in s
  }

  predicate AllNoLf(rows: seq<string>) {
    forall i :: 0 <= i < |rows| ==> NoLf(rows[i])
  }

  predicate EndsWithLf(s: string) {
    s != "" && s[|s| - 1] == '\n'
  }

  predicate EndsWith(s: string, suffix: string) {
    |suffix| <= |s| && s[|s| - |suffix|..] == suffix
  }

  predicate Contains(s: string, pattern: string) {
    exists i :: 0 <= i <= |s| && pattern <= s[i..]
  }

  /** Position of the first `c`, or `|s|`. */
  function Find(s: string, c: char): (k: nat)
    ensures k <= |s| && c !in s[..k]
    ensures k < |s| ==> s[k] == c
  {
    if s == "" then 0 else if s[0] == c then 0 else 1 + Find(s[1..], c)
  }

  lemma {:induction false} FindAt(before: string, c: char, after: string)
    requires c !in before
    ensures Find(before + [c] + after, c) == |before|
  {
    if before != "" {
      FindAt(before[1..], c, after);
      assert (before + [c] + after)[1..] == before[1..] + [c] + after;
    }
  }

  /** `str::split_once` on one character. */
  function SplitOnce(s: string, c: char): Option<(string, string)> {
    var k := Find(s, c);
    if k == |s| then None else Some((s[..k], s[k + 1..]))
  }

  lemma SplitOnceAt(before: string, c: char, after: string)
    requires c !in before
    ensures SplitOnce(before + [c] + after, c) == Some((before, after))
  {
    FindAt(before, c, after);
    assert (before + [c] + after)[..|before|] == before;
    assert (before + [c] + after)[|before| + 1..] == after;
  }

  /** `str::split_terminator('\n')`. */
  function Rows(s: string): seq<string>
    decreases |s|
  {
    if s == "" then []
    else
      var k := Find(s, '\n');
      if k == |s| then [s] else [s[..k]] + Rows(s[k + 1..])
  }

  /** Every row followed by LF. */
  function Unrows(rows: seq<string>): string {
    if rows == [] then "" else rows[0] + "\n" + Unrows(rows[1..])
  }

  /** `rows.join("\n")`. */
  function Join(rows: seq<string>): string {
    if rows == [] then "" else if |rows| == 1 then rows[0] else rows[0] + "\n" + Join(rows[1..])
  }

  lemma {:induction false} UnrowsAppend(a: seq<string>, b: seq<string>)
    ensures Unrows(a + b) == Unrows(a) + Unrows(b)
  {
    if a == [] {
      assert a + b == b;
    } else {
      UnrowsAppend(a[1..], b);
      assert (a + b)[1..] == a[1..] + b;
    }
  }

  lemma UnrowsSnoc(rows: seq<string>, row: string)
    ensures Unrows(rows + [row]) == Unrows(rows) + row + "\n"
  {
    UnrowsAppend(rows, [row]);
    assert Unrows([row]) == row + "\n" + Unrows([]);
  }

  lemma UnrowsOne(row: string)
    ensures Unrows([row]) == row + "\n"
  {
    assert Unrows([row]) == row + "\n" + Unrows([]);
  }

  lemma BufferAppend(buffer: string, rows: seq<string>, more: seq<string>)
    ensures buffer + Unrows(rows) + Unrows(more) == buffer + Unrows(rows + more)
  {
    UnrowsAppend(rows, more);
  }

  lemma BufferEnd(buffer: string, rows: seq<string>, row: string)
    ensures buffer + Unrows(rows) + (row + "\n") == buffer + Unrows(rows + [row])
  {
    UnrowsOne(row);
    BufferAppend(buffer, rows, [row]);
  }

  lemma RowsCons(row: string, rest: string)
    requires NoLf(row)
    ensures Rows(row + "\n" + rest) == [row] + Rows(rest)
  {
    var s := row + "\n" + rest;
    FindAt(row, '\n', rest);
    assert row + ['\n'] + rest == s;
    assert s[..|row|] == row && s[|row| + 1..] == rest;
  }

  lemma {:induction false} RowsUnrows(rows: seq<string>, rest: string)
    requires AllNoLf(rows)
    ensures Rows(Unrows(rows) + rest) == rows + Rows(rest)
  {
    if rows == [] {
      assert Unrows(rows) + rest == rest;
      assert rows + Rows(rest) == Rows(rest);
    } else {
      RowsUnrows(rows[1..], rest);
      ConcatAssoc(rows[0] + "\n", Unrows(rows[1..]), rest);
      RowsCons(rows[0], Unrows(rows[1..]) + rest);
      HeadTail(rows, Rows(rest));
    }
  }

  lemma ConcatAssoc<T>(a: seq<T>, b: seq<T>, c: seq<T>)
    ensures (a + b) + c == a + (b + c)
  {
  }

  lemma Regroup<T>(a: seq<T>, b: seq<T>, c: seq<T>, d: seq<T>)
    ensures a + b + c + d == a + (b + (c + d))
    ensures a + b + c + d == a + (b + c + d)
  {
  }

  lemma HeadTail<T>(a: seq<T>, b: seq<T>)
    requires a != []
    ensures [a[0]] + (a[1..] + b) == a + b
  {
  }

  lemma RowsOfUnrows(rows: seq<string>)
    requires AllNoLf(rows)
    ensures Rows(Unrows(rows)) == rows
  {
    RowsUnrows(rows, "");
    assert Unrows(rows) + "" == Unrows(rows);
  }

  lemma {:induction false} RowsNoLf(s: string)
    ensures AllNoLf(Rows(s))
    decreases |s|
  {
    if s != "" {
      var k := Find(s, '\n');
      if k == |s| {
        assert s[..k] == s;
      } else {
        RowsNoLf(s[k + 1..]);
      }
    }
  }

  /** What splitting loses is only whether the last row was terminated. */
  lemma {:induction false} UnrowsOfRows(s: string)
    ensures Unrows(Rows(s)) == if s == "" || EndsWithLf(s) then s else s + "\n"
    decreases |s|
  {
    if s != "" {
      var k := Find(s, '\n');
      if k == |s| {
        assert s[..k] == s;
        assert Unrows([s]) == s + "\n" + Unrows([]);
        assert Unrows([s]) == s + "\n";
      } else {
        var head, rest := s[..k], s[k + 1..];
        UnrowsOfRows(rest);
        UnrowsHead(head, Rows(rest));
        SplitAt(s, k);
        ConcatAssoc(head + "\n", rest, "\n");
      }
    }
  }

  lemma SplitAt(s: string, k: nat)
    requires k < |s| && s[k] == '\n'
    ensures s == s[..k] + "\n" + s[k + 1..]
    ensures EndsWithLf(s) == (s[k + 1..] == "" || EndsWithLf(s[k + 1..]))
  {
  }

  lemma UnrowsHead(row: string, rows: seq<string>)
    ensures Unrows([row] + rows) == row + "\n" + Unrows(rows)
  {
    assert ([row] + rows)[1..] == rows;
  }

  lemma {:induction false} UnrowsIsJoin(rows: seq<string>)
    requires rows != []
    ensures Unrows(rows) == Join(rows) + "\n"
  {
    if |rows| == 1 {
      assert Unrows(rows) == rows[0] + "\n" + Unrows([]);
    } else {
      UnrowsIsJoin(rows[1..]);
    }
  }

  /** Joining the rows and restoring the final terminator gives the text back. */
  lemma JoinOfRows(s: string)
    requires s != ""
    ensures Rows(s) != []
    ensures s == Join(Rows(s)) + if EndsWithLf(s) then "\n" else ""
  {
    UnrowsOfRows(s);
    UnrowsIsJoin(Rows(s));
    if EndsWithLf(s) {
      assert Join(Rows(s)) + "\n" == s;
    } else {
      assert (Join(Rows(s)) + "\n")[..|s|] == (s + "\n")[..|s|];
      assert |Join(Rows(s))| == |s|;
      assert Join(Rows(s)) + "" == s;
    }
  }

  // ----- decimal numbers, as `format!("{n}")` and `parse::<usize>()`

  function Digit(d: nat): (c: char)
    requires d < 10
    ensures '0' <= c <= '9'
  {
    '0' + d as char
  }

  function Decimal(n: nat): string {
    if n < 10 then [Digit(n)] else Decimal(n / 10) + [Digit(n % 10)]
  }

  predicate IsDigit(c: char) {
    '0' <= c <= '9'
  }

  predicate AllDigits(s: string) {
    forall i :: 0 <= i < |s| ==> IsDigit(s[i])
  }

  function DigitsValue(s: string): nat
    requires AllDigits(s)
  {
    if s == "" then 0
    else DigitsValue(s[..|s| - 1]) * 10 + (s[|s| - 1] as nat - '0' as nat)
  }

  /** `parse::<usize>()`: an optional plus sign, then at least one digit. */
  function ParseUsize(s: string): Option<nat> {
    var digits := if "+" <= s then s[1..] else s;
    if digits == "" || !AllDigits(digits) then None
    else if DigitsValue(digits) >= USIZE_LIMIT then None
    else Some(DigitsValue(digits))
  }

  lemma {:induction false} DecimalDigits(n: nat)
    ensures Decimal(n) != "" && AllDigits(Decimal(n))
    ensures DigitsValue(Decimal(n)) == n
  {
    if n < 10 {
      assert Decimal(n)[..0] == "";
    } else {
      DecimalDigits(n / 10);
      assert Decimal(n)[..|Decimal(n)| - 1] == Decimal(n / 10);
    }
  }

  lemma DecimalRoundTrip(n: nat)
    ensures ParseUsize(Decimal(n)) == if n < USIZE_LIMIT then Some(n) else None
    ensures NoLf(Decimal(n)) && ':' !in Decimal(n) && Decimal(n) != "" && IsDigit(Decimal(n)[0])
  {
    DecimalDigits(n);
  }

  // ----- `str::lines` and `split_inclusive`

  function StripCr(row: string): string {
    if EndsWith(row, "\r") then row[..|row| - 1] else row
  }

  function StripCrs(rows: seq<string>): (stripped: seq<string>)
    ensures |stripped| == |rows|
    ensures forall i :: 0 <= i < |rows| ==> stripped[i] == StripCr(rows[i])
  {
    if rows == [] then [] else [StripCr(rows[0])] + StripCrs(rows[1..])
  }

  /** `str::lines`: a CR before the LF belongs to the terminator. */
  function Lines(s: string): seq<string>
    decreases |s|
  {
    if s == "" then []
    else
      var k := Find(s, '\n');
      if k == |s| then [s] else [StripCr(s[..k])] + Lines(s[k + 1..])
  }

  /** `split_inclusive('\n')`. */
  function Pieces(s: string): seq<string>
    decreases |s|
  {
    if s == "" then []
    else
      var k := Find(s, '\n');
      if k == |s| then [s] else [s[..k] + "\n"] + Pieces(s[k + 1..])
  }

  function Terminated(rows: seq<string>): seq<string> {
    if rows == [] then [] else [rows[0] + "\n"] + Terminated(rows[1..])
  }

  lemma {:induction false} LinesOfUnrows(rows: seq<string>)
    requires AllNoLf(rows)
    ensures Lines(Unrows(rows)) == StripCrs(rows)
    ensures Pieces(Unrows(rows)) == Terminated(rows)
  {
    if rows != [] {
      var rest := Unrows(rows[1..]);
      LinesOfUnrows(rows[1..]);
      FindAt(rows[0], '\n', rest);
      assert Unrows(rows) == rows[0] + ['\n'] + rest;
      assert Unrows(rows)[..|rows[0]|] == rows[0];
      assert Unrows(rows)[|rows[0]| + 1..] == rest;
    }
  }

  // ----- what the LMR formats share

  /** The last record: whether the text ends with LF. */
  function EndRecord(raw: string): string {
    if EndsWithLf(raw) then "!1" else "!0"
  }

  /** A recall hint that may follow the last record. */
  predicate IsRawHint(row: string) {
    "[raw: " <= row && EndsWith(row, "]")
  }

  // ----- runs of equal rows

  /** Number of leading rows equal to the first. */
  function RunLength(rows: seq<string>): (n: nat)
    requires rows != []
    ensures 1 <= n <= |rows|
    ensures forall i :: 0 <= i < n ==> rows[i] == rows[0]
    ensures n < |rows| ==> rows[n] != rows[0]
  {
    if |rows| > 1 && rows[1] == rows[0] then 1 + RunLength(rows[1..]) else 1
  }

  lemma PiecesCons(row: string, rest: string)
    requires NoLf(row)
    ensures Pieces(row + "\n" + rest) == [row + "\n"] + Pieces(rest)
  {
    var s := row + "\n" + rest;
    FindAt(row, '\n', rest);
    assert row + ['\n'] + rest == s;
    assert s[..|row|] == row && s[|row| + 1..] == rest;
  }

  lemma UnrowsInjective(a: seq<string>, b: seq<string>)
    requires AllNoLf(a) && AllNoLf(b) && Unrows(a) == Unrows(b)
    ensures a == b
  {
    RowsOfUnrows(a);
    RowsOfUnrows(b);
  }

  /** A row of a text occurs in it. */
  lemma {:induction false} RowOccurs(rows: seq<string>, k: nat, before: string, after: string)
    requires k < |rows|
    requires before + after == rows[k] + "\n"
    ensures Contains(Unrows(rows), after)
  {
    var text := Unrows(rows);
    if k == 0 {
      var start := |before|;
      assert text == before + (after + Unrows(rows[1..]));
      assert text[start..] == after + Unrows(rows[1..]);
    } else {
      RowOccurs(rows[1..], k - 1, before, after);
      var rest := Unrows(rows[1..]);
      var i :| 0 <= i <= |rest| && after <= rest[i..];
      assert text[|rows[0]| + 1 + i..] == rest[i..];
    }
  }

  function Repeated(s: string, n: nat): string {
    if n == 0 then "" else s + Repeated(s, n - 1)
  }

  lemma {:induction false} RepeatedLength(s: string, n: nat)
    ensures |Repeated(s, n)| == n * |s|
  {
    if n > 0 {
      RepeatedLength(s, n - 1);
    }
  }

  lemma {:induction false} RunText(rows: seq<string>, n: nat)
    requires n <= |rows| && forall i :: 0 <= i < n ==> rows[i] == rows[0]
    ensures n > 0 ==> Unrows(rows) == Repeated(rows[0] + "\n", n) + Unrows(rows[n..])
  {
    if n == 1 {
      assert Repeated(rows[0] + "\n", 1) == rows[0] + "\n" + Repeated(rows[0] + "\n", 0);
    } else if n > 1 {
      RunText(rows[1..], n - 1);
      assert rows[1..][n - 1..] == rows[n..];
      ConcatAssoc(rows[0] + "\n", Repeated(rows[0] + "\n", n - 1), Unrows(rows[n..]));
    }
  }
}

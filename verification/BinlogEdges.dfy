/** The binary log reader where its input is not what a writer wrote
    (`src/parity_filters.rs`): which integers it refuses, too many string hops,
    old versions, and logs that are cut in the middle of a record. */
module BinlogEdges {
  import opened Bytes
  import opened Text
  import opened Binlog

  // ----- integers

  lemma {:induction false} DigitsBound(digits: seq<Byte>)
    ensures FromDigits(digits) < Power128(|digits|)
  {
    if digits != [] {
      DigitsBound(digits[1..]);
    }
  }

  lemma {:induction false} DigitsSnoc(digits: seq<Byte>, last: Byte)
    ensures FromDigits(digits + [last]) == FromDigits(digits) + Power128(|digits|) * (last % 128)
  {
    if digits == [] {
      assert [last][1..] == [] && digits + [last] == [last];
    } else {
      assert (digits + [last])[1..] == digits[1..] + [last];
      DigitsSnoc(digits[1..], last);
      Scaled(Power128(|digits| - 1), last % 128);
    }
  }

  lemma Scaled(power: nat, digit: nat)
    ensures 128 * (power * digit) == (128 * power) * digit
  {
  }

  /** An integer that ends within five bytes is read if and only if it fits 32 bits,
      and is passed over in either case. */
  lemma I7Exact(s: seq<Byte>, k: nat)
    requires k < |s| && k < 5 && s[k] < 128 && forall i :: 0 <= i < k ==> s[i] >= 128
    ensures var n := FromDigits(s[..k + 1]);
            I7(s) == (if n < U32_LIMIT then Some(n) else None, s[k + 1..])
  {
    TerminatorAt(s, k, 5);
    DigitsBound(s[..k + 1]);
    assert Power128(4) == 0x1000_0000 && Power128(3) == 0x20_0000 && Power128(2) == 0x4000 && Power128(1) == 128;
    if k == 4 {
      DigitsBound(s[..4]);
      DigitsSnoc(s[..4], s[4]);
      assert s[..4] + [s[4]] == s[..5];
    }
  }

  /** One that does not is refused, and nothing is passed over. */
  lemma I7Unended(s: seq<Byte>)
    requires forall i :: 0 <= i < |s| && i < 5 ==> s[i] >= 128
    ensures I7(s) == (None, s)
  {
  }

  // ----- strings

  /** The sixth hop makes a null string, and what follows it is left. */
  lemma SixHops(rest: seq<Byte>, strings: Strings)
    ensures ReadString(Hops(6) + rest, strings) == (Some(None), rest)
  {
    I7RoundTrip(2, rest);
    assert ReadsTo(WriteI7(2) + rest, strings, 5, Some(None), rest);
    HopsRead(5, 0, WriteI7(2) + rest, strings, Some(None), rest);
    HopsAppend(5, rest);
  }

  predicate ReadsTo(s: seq<Byte>, strings: Strings, depth: nat, text: Option<Option<Utf8>>, left: seq<Byte>) {
    match ReadStringDepth(s, strings, depth)
    case (read, rest) => read == text && rest == left
  }

  function Hops(n: nat): seq<Byte> {
    if n == 0 then [] else WriteI7(2) + Hops(n - 1)
  }

  lemma {:induction false} HopsAppend(n: nat, rest: seq<Byte>)
    ensures Hops(n + 1) + rest == Hops(n) + (WriteI7(2) + rest)
  {
    if n == 0 {
      assert Hops(1) == WriteI7(2) + [];
      assert WriteI7(2) + [] == WriteI7(2) && [] + (WriteI7(2) + rest) == WriteI7(2) + rest;
    } else {
      HopsAppend(n - 1, rest);
      ConcatAssoc(WriteI7(2), Hops(n), rest);
      ConcatAssoc(WriteI7(2), Hops(n - 1), WriteI7(2) + rest);
    }
  }

  lemma HopStep(s: seq<Byte>, tail: seq<Byte>, strings: Strings, depth: nat, text: Option<Option<Utf8>>, left: seq<Byte>)
    requires s == WriteI7(2) + tail && depth <= 4 && ReadsTo(tail, strings, depth + 1, text, left)
    ensures ReadsTo(s, strings, depth, text, left)
  {
    HopReads(tail, strings, depth);
  }

  lemma HopsHead(n: nat, rest: seq<Byte>)
    requires n > 0
    ensures Hops(n) + rest == WriteI7(2) + (Hops(n - 1) + rest)
  {
    ConcatAssoc(WriteI7(2), Hops(n - 1), rest);
  }

  lemma {:induction false} HopsRead(n: nat, depth: nat, rest: seq<Byte>, strings: Strings, text: Option<Option<Utf8>>,
                                    left: seq<Byte>)
    requires n + depth <= 5 && ReadsTo(rest, strings, depth + n, text, left)
    ensures ReadsTo(Hops(n) + rest, strings, depth, text, left)
  {
    if n == 0 {
      assert [] + rest == rest;
    } else {
      HopsRead(n - 1, depth + 1, rest, strings, text, left);
      HopsHead(n, rest);
      HopStep(Hops(n) + rest, Hops(n - 1) + rest, strings, depth, text, left);
    }
  }

  // ----- logs that are cut

  /** Part of an integer is no integer. */
  lemma PartOfI7(n: nat, k: nat)
    requires k < |WriteI7(n)|
    ensures I7(WriteI7(n)[..k]) == (None, WriteI7(n)[..k])
  {
    I7Value(n);
    I7Unended(WriteI7(n)[..k]);
  }

  lemma CutKind(kind: nat, k: nat, version: int, utf8: Utf8 -> bool)
    requires k < |WriteI7(kind)|
    ensures Silent(WriteI7(kind)[..k], version, utf8)
  {
    PartOfI7(kind, k);
  }

  lemma CutLength(kind: nat, size: nat, k: nat, version: int, utf8: Utf8 -> bool)
    requires kind < U32_LIMIT && kind != 0 && k < |WriteI7(size)|
    ensures Silent(WriteI7(kind) + WriteI7(size)[..k], version, utf8)
  {
    I7RoundTrip(kind, WriteI7(size)[..k]);
    PartOfI7(size, k);
  }

  lemma CutText(size: nat, part: seq<Byte>, version: int, utf8: Utf8 -> bool)
    requires size < U32_LIMIT && |part| < size
    ensures Silent(WriteI7(24) + (WriteI7(size) + part), version, utf8)
  {
    I7RoundTrip(24, WriteI7(size) + part);
    I7RoundTrip(size, part);
    assert DotnetString(WriteI7(size) + part, utf8).0.None?;
  }

  lemma CutBody(kind: nat, size: nat, part: seq<Byte>, version: int, utf8: Utf8 -> bool)
    requires kind < U32_LIMIT && kind != 0 && kind != 24 && size < U32_LIMIT && |part| < size
    ensures Silent(WriteI7(kind) + (WriteI7(size) + part), version, utf8)
  {
    I7RoundTrip(kind, WriteI7(size) + part);
    I7RoundTrip(size, part);
    forall strings
      ensures Issues(WriteI7(kind) + (WriteI7(size) + part), version, strings, utf8) == []
    {
      assert Framed(kind, WriteI7(size) + part, version, strings) == Turn(false, strings, [], part);
    }
  }

  /** The three places where a record may be cut. */
  lemma CutPlaces(a: seq<Byte>, b: seq<Byte>, c: seq<Byte>, k: nat, part: seq<Byte>)
    requires k <= |a + (b + c)| && part == (a + (b + c))[..k]
    ensures k <= |a| ==> part == a[..k]
    ensures |a| <= k <= |a| + |b| ==> part == a + b[..k - |a|]
    ensures |a| + |b| <= k ==> part == a + (b + c[..k - |a| - |b|])
  {
  }

  lemma CutLater(kind: nat, body: seq<Byte>, m: nat, part: seq<Byte>, version: int, utf8: Utf8 -> bool)
    requires kind < U32_LIMIT && kind != 0 && |body| < U32_LIMIT && m < |body|
    requires part == WriteI7(kind) + (WriteI7(|body|) + body[..m])
    ensures Silent(part, version, utf8)
  {
    if kind == 24 {
      CutText(|body|, body[..m], version, utf8);
    } else {
      CutBody(kind, |body|, body[..m], version, utf8);
    }
  }

  /** A record that is cut anywhere reports nothing and ends the reading. */
  lemma CutRecord(kind: nat, body: seq<Byte>, k: nat, part: seq<Byte>, version: int, utf8: Utf8 -> bool)
    requires kind < U32_LIMIT && kind != 0 && |body| < U32_LIMIT
    requires k < |WriteI7(kind) + (WriteI7(|body|) + body)|
    requires part == (WriteI7(kind) + (WriteI7(|body|) + body))[..k]
    ensures Silent(part, version, utf8)
  {
    CutPlaces(WriteI7(kind), WriteI7(|body|), body, k, part);
    if k < |WriteI7(kind)| {
      CutKind(kind, k, version, utf8);
    } else if k < |WriteI7(kind)| + |WriteI7(|body|)| {
      CutLength(kind, |body|, k - |WriteI7(kind)|, version, utf8);
    } else {
      CutLater(kind, body, k - |WriteI7(kind)| - |WriteI7(|body|)|, part, version, utf8);
    }
  }

  lemma CutEvent(e: Event, k: nat, version: int, utf8: Utf8 -> bool)
    requires e.Valid(utf8) && k < |e.Bytes()|
    ensures Silent(e.Bytes()[..k], version, utf8)
  {
    match e
    case NewString(text) => CutRecord(24, text, k, e.Bytes()[..k], version, utf8);
    case Unknown(kind, payload) => CutRecord(kind, payload, k, e.Bytes()[..k], version, utf8);
    case Diagnostic(error, _, _, _, _, _, _, _, _) =>
      CutRecord(if error then 9 else 10, DiagnosticBody(e), k, e.Bytes()[..k], version, utf8);
  }

  /** A log that is cut in the middle of a record keeps all issues before it. */
  lemma CutLogReads(version: nat, minReader: nat, events: seq<Event>, last: Event, k: nat, utf8: Utf8 -> bool)
    requires 18 <= version < 0x8000_0000 && minReader < U32_LIMIT
    requires AllEventsValid(events, utf8) && last.Valid(utf8) && k < |last.Bytes()|
    ensures Summary(Le(version, 4) + Le(minReader, 4) + (LogBytes(events) + last.Bytes()[..k]), utf8)
            == if LogIssues(events, []) == [] then None else Some(LogIssues(events, []))
  {
    CutEvent(last, k, version, utf8);
    SummaryOf(version, minReader, events, last.Bytes()[..k], utf8);
  }

  /** A diagnostic that ends after its project is reported with line and column 0. */
  lemma MissingNumbers(e: Event, version: int, strings: Strings, utf8: Utf8 -> bool)
    requires e.Diagnostic? && e.Valid(utf8) && version >= 13
    requires e.line == 0 && e.column == 0
    ensures var body := e.header.Bytes()
                        + (e.subcategory.Bytes() + (e.code.Bytes() + (e.file.Bytes() + e.project.Bytes())));
            var read := ReadIssue(e.error, body, version, strings);
            e.Reports(strings) == if read.Some? then [read.value] else []
  {
    var s3 := e.project.Bytes();
    var s2 := e.file.Bytes() + s3;
    var s1 := e.code.Bytes() + s2;
    var s0 := e.subcategory.Bytes() + s1;
    HeaderReads(e.header, s0, version, strings);
    ReferenceReads(e.subcategory, s1, strings, 0);
    ReferenceReads(e.code, s2, strings, 0);
    ReferenceReads(e.file, s3, strings, 0);
    LastReads(e.project, strings);
    NumbersMissing(e.error, e.header.Bytes() + s0, s0, s1, s2, s3, version, strings);
  }

  /** A diagnostic that ends before its project, or earlier still between two of
      its parts, is not reported. */
  lemma MissingTexts(e: Event, version: int, strings: Strings, utf8: Utf8 -> bool)
    requires e.Diagnostic? && e.Valid(utf8) && version >= 13
    ensures ReadIssue(e.error, e.header.Bytes(), version, strings).None?
    ensures ReadIssue(e.error, e.header.Bytes() + e.subcategory.Bytes(), version, strings).None?
    ensures ReadIssue(e.error, e.header.Bytes() + (e.subcategory.Bytes() + e.code.Bytes()), version, strings).None?
    ensures ReadIssue(e.error, e.header.Bytes() + (e.subcategory.Bytes() + (e.code.Bytes() + e.file.Bytes())), version,
                      strings).None?
  {
    NoText(strings);
    LastReads(e.subcategory, strings);
    LastReads(e.code, strings);
    LastReads(e.file, strings);
    ReferenceReads(e.subcategory, e.code.Bytes(), strings, 0);
    ReferenceReads(e.code, e.file.Bytes(), strings, 0);
    ReferenceReads(e.subcategory, e.code.Bytes() + e.file.Bytes(), strings, 0);
    HeaderReads(e.header, [], version, strings);
    assert e.header.Bytes() + [] == e.header.Bytes();
    HeaderReads(e.header, e.subcategory.Bytes(), version, strings);
    HeaderReads(e.header, e.subcategory.Bytes() + e.code.Bytes(), version, strings);
    HeaderReads(e.header, e.subcategory.Bytes() + (e.code.Bytes() + e.file.Bytes()), version, strings);
  }

  lemma NoText(strings: Strings)
    ensures ReadString([], strings) == (None, [])
  {
    I7Unended([]);
  }

  lemma LastReads(r: Reference, strings: Strings)
    requires r.Valid()
    ensures ReadString(r.Bytes(), strings) == (Some(r.Text(strings)), [])
  {
    assert r.Bytes() + [] == r.Bytes();
    ReferenceReads(r, [], strings, 0);
  }

  lemma NumbersMissing(error: bool, record: seq<Byte>, s0: seq<Byte>, s1: seq<Byte>, s2: seq<Byte>, s3: seq<Byte>,
                       version: int, strings: Strings)
    requires ScanHeader(record, version, strings).0.Some? && ScanHeader(record, version, strings).1 == s0
    requires ReadString(s0, strings).0.Some? && ReadString(s0, strings).1 == s1
    requires ReadString(s1, strings).0.Some? && ReadString(s1, strings).1 == s2
    requires ReadString(s2, strings).0.Some? && ReadString(s2, strings).1 == s3
    requires ReadString(s3, strings).0.Some? && ReadString(s3, strings).1 == []
    ensures var message := ScanHeader(record, version, strings).0.value;
            var code, file := OrEmpty(ReadString(s1, strings).0.value), OrEmpty(ReadString(s2, strings).0.value);
            ReadIssue(error, record, version, strings)
            == if code == [] && message.None? then None else Some(Issue(error, code, file, 0, 0, OrEmpty(message)))
  {
    I7Unended([]);
  }

  // ----- versions

  /** Logs of a format before 18, and those shorter than their version, are refused. */
  lemma OldLogsAreRefused(payload: seq<Byte>, version: int, utf8: Utf8 -> bool)
    requires |payload| >= 8 && version < 18 && -0x8000_0000 <= version
    requires payload[..4] == Le(if version < 0 then version + U32_LIMIT else version, 4)
    ensures Summary(payload, utf8).None?
  {
    assert Power256(4) == U32_LIMIT;
    LeRoundTrip(if version < 0 then version + U32_LIMIT else version, 4);
  }
}

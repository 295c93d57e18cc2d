/** The incremental reader of server-sent events in `src/provider_usage.rs`, and
    the stream adapter that reports its result once. What one line does to the
    usage record (UTF-8, JSON and the merge) is a parameter. */
module ProviderUsage {
  import opened Bytes
  import opened Text

  const LF: Byte := 10
  const MAX_PENDING: nat := 0x10_0000

  function FindLf(s: seq<Byte>): (k: nat)
    ensures k <= |s| && LF !in s[..k]
    ensures k < |s| ==> s[k] == LF
  {
    if s == [] || s[0] == LF then 0 else 1 + FindLf(s[1..])
  }

  /** A whole stream cut after each LF; a last piece may lack it. */
  function Lines(s: seq<Byte>): seq<seq<Byte>>
    decreases |s|
  {
    if s == [] then []
    else
      var k := FindLf(s);
      if k == |s| then [s] else [s[..k + 1]] + Lines(s[k + 1..])
  }

  /** The terminated lines at the front, and the rest. */
  function Drain(s: seq<Byte>): (r: (seq<seq<Byte>>, seq<Byte>))
    ensures LF !in r.1 && |r.1| <= |s|
    decreases |s|
  {
    var k := FindLf(s);
    if k == |s| then ([], s)
    else
      var (lines, rest) := Drain(s[k + 1..]);
      ([s[..k + 1]] + lines, rest)
  }

  /** What is kept for the next chunk: nothing once it is beyond the bound. */
  function Kept(rest: seq<Byte>): seq<Byte> {
    if |rest| > MAX_PENDING then [] else rest
  }

  function Fold<U>(lines: seq<seq<Byte>>, usage: U, line: (U, seq<Byte>) -> U): U {
    if lines == [] then usage else Fold(lines[1..], line(usage, lines[0]), line)
  }

  /** A reader that keeps every line it is handed ends with all of them, in order. */
  lemma {:induction false} FoldHandsAll(lines: seq<seq<Byte>>, before: seq<seq<Byte>>)
    ensures Fold(lines, before, (kept, line) => kept + [line]) == before + lines
  {
    var keep := (kept: seq<seq<Byte>>, line: seq<Byte>) => kept + [line];
    if lines == [] {
      assert before + lines == before;
    } else {
      FoldHandsAll(lines[1..], before + [lines[0]]);
      assert before + [lines[0]] + lines[1..] == before + lines;
    }
  }

  /** The usage after the last piece. */
  function Rest<U>(scanner: (seq<Byte>, U), line: (U, seq<Byte>) -> U): U {
    Fold(if scanner.0 == [] then [] else [scanner.0], scanner.1, line)
  }

  /** The usage of a finished stream. */
  datatype Summary<U> = Summary(usage: U, completed: bool)

  /** Nothing is reported when no event of the stream held any usage. */
  function SummaryOf<U>(usage: U, completed: bool, found: U -> bool): Option<Summary<U>> {
    if found(usage) then Some(Summary(usage, completed)) else None
  }

  class Scanner<U> {
    var pending: seq<Byte>
    var usage: U
    const line: (U, seq<Byte>) -> U

    constructor (empty: U, line: (U, seq<Byte>) -> U)
      ensures pending == [] && usage == empty && this.line == line
    {
      pending, usage, this.line := [], empty, line;
    }

    method Feed(chunk: seq<Byte>)
      modifies this
      ensures pending == Kept(Drain(old(pending) + chunk).1)
      ensures usage == Fold(Drain(old(pending) + chunk).0, old(usage), line)
    {
      pending := pending + chunk;
      ghost var all := Drain(pending);
      while FindLf(pending) < |pending|
        invariant Drain(pending).1 == all.1
        invariant Fold(Drain(pending).0, usage, line) == Fold(all.0, old(usage), line)
        decreases |pending|
      {
        var pos := FindLf(pending);
        var row := pending[..pos + 1];
        assert Drain(pending).0[1..] == Drain(pending[pos + 1..]).0;
        pending := pending[pos + 1..];
        usage := line(usage, row);
      }
      if |pending| > MAX_PENDING {
        pending := [];
      }
    }

    /** `finish`: a last piece without LF counts as a line. */
    method Finish(completed: bool, found: U -> bool) returns (result: Option<Summary<U>>)
      modifies this
      ensures result == SummaryOf(Rest((old(pending), old(usage)), line), completed, found)
    {
      if pending != [] {
        assert Fold([pending], usage, line) == Fold([pending][1..], line(usage, pending), line);
        usage := line(usage, pending);
        pending := [];
      }
      if !found(usage) {
        return None;
      }
      result := Some(Summary(usage, completed));
    }
  }

  // ----- whole streams

  function Concat(chunks: seq<seq<Byte>>): seq<Byte> {
    if chunks == [] then [] else chunks[0] + Concat(chunks[1..])
  }

  /** The lines handed to `line` when `chunks` follow `pending`. */
  function Seen(chunks: seq<seq<Byte>>, pending: seq<Byte>): seq<seq<Byte>> {
    if chunks == [] then (if pending == [] then [] else [pending])
    else
      var (lines, rest) := Drain(pending + chunks[0]);
      lines + Seen(chunks[1..], Kept(rest))
  }

  /** Whether some partial line is dropped at a chunk boundary. */
  predicate Overflows(chunks: seq<seq<Byte>>, pending: seq<Byte>) {
    chunks != []
    && (|Drain(pending + chunks[0]).1| > MAX_PENDING || Overflows(chunks[1..], Kept(Drain(pending + chunks[0]).1)))
  }

  method Scan<U>(chunks: seq<seq<Byte>>, empty: U, line: (U, seq<Byte>) -> U, completed: bool, found: U -> bool)
    returns (summary: Option<Summary<U>>)
    ensures var usage := Fold(Seen(chunks, []), empty, line);
            summary == if found(usage) then Some(Summary(usage, completed)) else None
  {
    var scanner := new Scanner(empty, line);
    var i := 0;
    assert chunks[0..] == chunks;
    while i < |chunks|
      invariant i <= |chunks| && scanner.line == line
      invariant fresh(scanner)
      invariant Fold(Seen(chunks[i..], scanner.pending), scanner.usage, line) == Fold(Seen(chunks, []), empty, line)
    {
      assert chunks[i..][1..] == chunks[i + 1..];
      ghost var (lines, rest) := Drain(scanner.pending + chunks[i]);
      FoldAppend(lines, Seen(chunks[i + 1..], Kept(rest)), scanner.usage, line);
      scanner.Feed(chunks[i]);
      i := i + 1;
    }
    assert chunks[i..] == [];
    summary := scanner.Finish(completed, found);
  }

  lemma {:induction false} FoldAppend<U>(a: seq<seq<Byte>>, b: seq<seq<Byte>>, usage: U, line: (U, seq<Byte>) -> U)
    ensures Fold(a + b, usage, line) == Fold(b, Fold(a, usage, line), line)
  {
    if a == [] {
      assert a + b == b;
    } else {
      FoldAppend(a[1..], b, line(usage, a[0]), line);
      assert (a + b)[1..] == a[1..] + b;
    }
  }

  lemma FindLfAppend(a: seq<Byte>, b: seq<Byte>)
    ensures FindLf(a) < |a| ==> FindLf(a + b) == FindLf(a)
    ensures FindLf(a) == |a| ==> FindLf(a + b) == |a| + FindLf(b)
  {
    if a == [] {
      assert a + b == b;
    } else if a[0] != LF {
      FindLfAppend(a[1..], b);
      assert (a + b)[1..] == a[1..] + b;
    }
  }

  lemma LinesCut(s: seq<Byte>, k: nat)
    requires k == FindLf(s) < |s|
    ensures Lines(s) == [s[..k + 1]] + Lines(s[k + 1..])
  {
    CutAtLf(s);
  }

  lemma CutAtLf(s: seq<Byte>)
    requires FindLf(s) < |s|
    ensures var k := FindLf(s); Lines(s) == [s[..k + 1]] + Lines(s[k + 1..])
  {
  }

  lemma DrainCut(s: seq<Byte>, k: nat)
    requires k == FindLf(s) < |s|
    ensures Drain(s).0 == [s[..k + 1]] + Drain(s[k + 1..]).0
    ensures Drain(s).1 == Drain(s[k + 1..]).1
  {
  }

  lemma CutAppend(a: seq<Byte>, b: seq<Byte>, k: nat)
    requires k == FindLf(a) < |a|
    ensures FindLf(a + b) == k && (a + b)[..k + 1] == a[..k + 1] && (a + b)[k + 1..] == a[k + 1..] + b
  {
    FindLfAppend(a, b);
  }

  /** Draining a prefix first changes nothing. */
  lemma {:induction false} DrainThenLines(a: seq<Byte>, b: seq<Byte>)
    ensures Lines(a + b) == Drain(a).0 + Lines(Drain(a).1 + b)
    decreases |a|
  {
    var k := FindLf(a);
    if k == |a| {
      assert [] + Lines(a + b) == Lines(a + b);
    } else {
      var rest := a[k + 1..];
      DrainThenLines(rest, b);
      CutAppend(a, b, k);
      DrainCut(a, k);
      LinesCut(a + b, k);
      ConcatAssoc([a[..k + 1]], Drain(rest).0, Lines(Drain(rest).1 + b));
    }
  }

  lemma LinesOfPartial(s: seq<Byte>)
    requires LF !in s
    ensures Lines(s) == if s == [] then [] else [s]
  {
  }

  /** While nothing overflows, the scanner sees the lines of the whole stream. */
  lemma {:induction false} SeenIsLines(chunks: seq<seq<Byte>>, pending: seq<Byte>)
    requires LF !in pending && !Overflows(chunks, pending)
    ensures Seen(chunks, pending) == Lines(pending + Concat(chunks))
  {
    if chunks == [] {
      LinesOfPartial(pending);
      assert pending + [] == pending;
    } else {
      var first := pending + chunks[0];
      SeenIsLines(chunks[1..], Drain(first).1);
      DrainThenLines(first, Concat(chunks[1..]));
      ConcatAssoc(pending, chunks[0], Concat(chunks[1..]));
    }
  }

  function Size(lines: seq<seq<Byte>>): nat {
    if lines == [] then 0 else |lines[0]| + Size(lines[1..])
  }

  lemma {:induction false} SizeAppend(a: seq<seq<Byte>>, b: seq<seq<Byte>>)
    ensures Size(a + b) == Size(a) + Size(b)
  {
    if a == [] {
      assert a + b == b;
    } else {
      SizeAppend(a[1..], b);
      assert (a + b)[1..] == a[1..] + b;
    }
  }

  lemma {:induction false} DrainSize(s: seq<Byte>)
    ensures Size(Drain(s).0) + |Drain(s).1| == |s|
    ensures Size(Lines(s)) == |s|
    decreases |s|
  {
    var k := FindLf(s);
    if k < |s| {
      DrainSize(s[k + 1..]);
      LinesCut(s, k);
      DrainCut(s, k);
      assert ([s[..k + 1]] + Drain(s[k + 1..]).0)[1..] == Drain(s[k + 1..]).0;
      assert Lines(s)[1..] == Lines(s[k + 1..]);
    } else if s != [] {
      assert Size([s]) == |s| + Size([s][1..]);
    }
  }

  /** A dropped partial line is missing from what is seen. */
  lemma {:induction false} OverflowLoses(chunks: seq<seq<Byte>>, pending: seq<Byte>)
    ensures Size(Seen(chunks, pending)) <= |pending + Concat(chunks)|
    ensures Overflows(chunks, pending) ==> Size(Seen(chunks, pending)) < |pending + Concat(chunks)|
  {
    if chunks == [] {
      assert pending != [] ==> Size([pending]) == |pending| + Size([pending][1..]);
    } else {
      var (lines, rest) := Drain(pending + chunks[0]);
      DrainSize(pending + chunks[0]);
      OverflowLoses(chunks[1..], Kept(rest));
      SizeAppend(lines, Seen(chunks[1..], Kept(rest)));
    }
  }

  /** For one way of cutting: the lines are those of the stream exactly when no
      partial line beyond the bound meets a chunk boundary. */
  lemma CutIsExact(chunks: seq<seq<Byte>>)
    ensures Seen(chunks, []) == Lines(Concat(chunks)) <==> !Overflows(chunks, [])
  {
    assert [] + Concat(chunks) == Concat(chunks);
    OverflowLoses(chunks, []);
    DrainSize(Concat(chunks));
    if !Overflows(chunks, []) {
      SeenIsLines(chunks, []);
    }
  }

  /** Every line has at most 2^20 bytes before its LF. */
  predicate ShortLines(s: seq<Byte>)
    decreases |s|
  {
    var k := FindLf(s);
    k <= MAX_PENDING && (k == |s| || ShortLines(s[k + 1..]))
  }

  lemma {:induction false} ShortPartial(s: seq<Byte>, i: nat)
    requires ShortLines(s) && i <= |s|
    ensures |Drain(s[..i]).1| <= MAX_PENDING
    decreases |s|
  {
    var k := FindLf(s);
    assert s == s[..i] + s[i..];
    FindLfAppend(s[..i], s[i..]);
    if FindLf(s[..i]) < i {
      assert s[..i][k + 1..] == s[k + 1..][..i - k - 1];
      ShortPartial(s[k + 1..], i - k - 1);
    }
  }

  lemma {:induction false} LongPartial(s: seq<Byte>) returns (i: nat)
    requires !ShortLines(s)
    ensures i <= |s| && |Drain(s[..i]).1| > MAX_PENDING
    decreases |s|
  {
    var k := FindLf(s);
    if k > MAX_PENDING {
      i := k;
      assert FindLf(s[..k]) == k;
    } else {
      var rest := LongPartial(s[k + 1..]);
      i := k + 1 + rest;
      assert s == s[..i] + s[i..];
      FindLfAppend(s[..i], s[i..]);
      assert s[..i][k] == LF;
      assert s[..i][k + 1..] == s[k + 1..][..rest];
    }
  }

  lemma ShortPrefix(a: seq<Byte>, b: seq<Byte>)
    requires ShortLines(a + b)
    ensures |Drain(a).1| <= MAX_PENDING
  {
    ShortPartial(a + b, |a|);
    assert (a + b)[..|a|] == a;
  }

  lemma {:induction false} ShortNeverOverflows(done: seq<Byte>, chunks: seq<seq<Byte>>)
    requires ShortLines(done + Concat(chunks))
    ensures !Overflows(chunks, Drain(done).1)
    decreases |chunks|
  {
    if chunks != [] {
      var more := done + chunks[0];
      ConcatAssoc(done, chunks[0], Concat(chunks[1..]));
      ShortPrefix(more, Concat(chunks[1..]));
      DrainTwice(done, chunks[0]);
      ShortNeverOverflows(more, chunks[1..]);
    }
  }

  lemma {:induction false} DrainTwice(a: seq<Byte>, b: seq<Byte>)
    ensures Drain(a + b).1 == Drain(Drain(a).1 + b).1
    decreases |a|
  {
    var k := FindLf(a);
    if k < |a| {
      DrainTwice(a[k + 1..], b);
      CutAppend(a, b, k);
      DrainCut(a, k);
      DrainCut(a + b, k);
    }
  }

  /** Every way of cutting a stream gives the usage of its lines exactly when no
      line is longer than 2^20 bytes. */
  lemma ChunkingIsInvisible(s: seq<Byte>)
    ensures (forall chunks :: Concat(chunks) == s ==> Seen(chunks, []) == Lines(s)) <==> ShortLines(s)
  {
    if ShortLines(s) {
      forall chunks | Concat(chunks) == s
        ensures Seen(chunks, []) == Lines(s)
      {
        assert [] + Concat(chunks) == s;
        ShortNeverOverflows([], chunks);
        CutIsExact(chunks);
      }
    } else {
      var i := LongPartial(s);
      var chunks := [s[..i], s[i..]];
      assert Concat(chunks[1..]) == s[i..] + Concat(chunks[1..][1..]);
      assert Concat(chunks) == s;
      assert [] + s[..i] == s[..i];
      assert Overflows(chunks, []);
      CutIsExact(chunks);
    }
  }

  // ----- the stream adapter

  datatype Poll = Chunk(bytes: seq<Byte>) | End | ErrorItem | Pending

  /** One call of `on_finish`. */
  datatype Report<U> = Report(summary: Option<Summary<U>>, completed: bool)

  function ReportOf<U>(usage: U, completed: bool, found: U -> bool): Report<U> {
    Report(SummaryOf(usage, completed, found), completed)
  }

  class UsageTap<U> {
    var scanner: Option<(seq<Byte>, U)>
    var completed: bool
    var armed: bool
    var reports: seq<Report<U>>
    const line: (U, seq<Byte>) -> U
    const found: U -> bool

    /** The scanner and the callback leave their fields together, at the one report. */
    predicate Valid()
      reads this
    {
      (scanner.Some? <==> armed) && (armed <==> reports == []) && |reports| <= 1
      && (armed ==> !completed)
    }

    constructor (empty: U, line: (U, seq<Byte>) -> U, found: U -> bool)
      ensures Valid() && reports == [] && !completed
      ensures scanner == Some(([], empty)) && this.line == line && this.found == found
    {
      scanner, completed, armed, reports, this.line, this.found := Some(([], empty)), false, true, [], line, found;
    }

    method Fire()
      requires scanner.Some? <==> armed
      modifies this
      ensures old(armed) ==> reports == old(reports) + [ReportOf(Rest(old(scanner).value, line), completed, found)]
      ensures !old(armed) ==> reports == old(reports)
      ensures scanner.None? && !armed && completed == old(completed)
    {
      if scanner.Some? && armed {
        var (pending, usage) := scanner.value;
        var last := if pending == [] then usage else line(usage, pending);
        assert pending != [] ==> Fold([pending], usage, line) == Fold([pending][1..], line(usage, pending), line);
        reports := reports + [Report(if found(last) then Some(Summary(last, completed)) else None, completed)];
      }
      scanner := None;
      armed := false;
    }

    /** `poll_next`, given what the inner stream returned; the item passes through. */
    method PollNext(inner: Poll) returns (item: Poll)
      requires Valid()
      modifies this
      ensures Valid() && item == inner
      ensures inner.End? ==> completed && reports != []
      ensures inner.End? && old(armed) ==> reports == [ReportOf(Rest(old(scanner).value, line), true, found)]
      ensures !inner.End? ==> completed == old(completed)
      ensures !inner.End? || !old(armed) ==> reports == old(reports)
      ensures !inner.End? && !inner.Chunk? ==> scanner == old(scanner)
      ensures inner.Chunk? && old(armed) ==>
                var (pending, usage) := old(scanner).value;
                scanner == Some((Kept(Drain(pending + inner.bytes).1), Fold(Drain(pending + inner.bytes).0, usage, line)))
    {
      item := inner;
      match inner {
        case Chunk(bytes) =>
          if scanner.Some? {
            var (pending, usage) := scanner.value;
            var s := new Scanner(usage, line);
            s.pending := pending;
            s.Feed(bytes);
            scanner := Some((s.pending, s.usage));
          }
        case End =>
          completed := true;
          Fire();
        case _ =>
      }
    }

    method Drop()
      requires Valid()
      modifies this
      ensures |reports| == 1
      ensures old(armed) ==> reports == [ReportOf(Rest(old(scanner).value, line), false, found)]
      ensures old(reports) != [] ==> reports == old(reports)
    {
      Fire();
    }
  }

  /** The chunks before the end of the stream. */
  function ChunksOf(polls: seq<Poll>): seq<seq<Byte>> {
    if polls == [] || polls[0].End? then []
    else (if polls[0].Chunk? then [polls[0].bytes] else []) + ChunksOf(polls[1..])
  }

  /** The usage still to come from a scanner and the polls left. */
  function Outcome<U>(scanner: (seq<Byte>, U), polls: seq<Poll>, line: (U, seq<Byte>) -> U): U {
    Fold(Seen(ChunksOf(polls), scanner.0), scanner.1, line)
  }

  lemma OutcomeStep<U>(scanner: (seq<Byte>, U), polls: seq<Poll>, line: (U, seq<Byte>) -> U)
    requires polls != []
    ensures var (lines, rest) := Drain(scanner.0 + if polls[0].Chunk? then polls[0].bytes else []);
            polls[0].Chunk? ==>
              Outcome(scanner, polls, line) == Outcome((Kept(rest), Fold(lines, scanner.1, line)), polls[1..], line)
    ensures polls[0].End? ==> Outcome(scanner, polls, line) == Rest(scanner, line)
    ensures !polls[0].Chunk? && !polls[0].End? ==> Outcome(scanner, polls, line) == Outcome(scanner, polls[1..], line)
  {
    if polls[0].Chunk? {
      var (lines, rest) := Drain(scanner.0 + polls[0].bytes);
      var more := ChunksOf(polls[1..]);
      assert ChunksOf(polls)[1..] == more;
      FoldAppend(lines, Seen(more, Kept(rest)), scanner.1, line);
    } else if !polls[0].End? {
      assert ChunksOf(polls) == ChunksOf(polls[1..]);
    }
  }

  /** A tap polled any number of times and then dropped reports exactly once: the
      usage of the chunks it passed on, completed exactly when it saw the end. */
  method TapRun<U>(polls: seq<Poll>, empty: U, line: (U, seq<Byte>) -> U, found: U -> bool) returns (report: Report<U>)
    ensures report.completed <==> End in polls
    ensures var usage := Fold(Seen(ChunksOf(polls), []), empty, line);
            report.summary == if found(usage) then Some(Summary(usage, End in polls)) else None
  {
    var tap := new UsageTap(empty, line, found);
    ghost var whole := Outcome(([], empty), polls, line);
    assert polls[0..] == polls;
    for i := 0 to |polls|
      invariant tap.Valid() && fresh(tap) && tap.line == line && tap.found == found
      invariant tap.armed <==> End !in polls[..i]
      invariant tap.armed ==> Outcome(tap.scanner.value, polls[i..], line) == whole
      invariant !tap.armed ==> tap.reports[0] == ReportOf(whole, true, found)
    {
      if tap.armed {
        OutcomeStep(tap.scanner.value, polls[i..], line);
      }
      assert polls[i..][1..] == polls[i + 1..];
      assert polls[..i + 1] == polls[..i] + [polls[i]];
      var item := tap.PollNext(polls[i]);
    }
    assert polls[..|polls|] == polls && polls[|polls|..] == [];
    tap.Drop();
    report := tap.reports[0];
  }
}

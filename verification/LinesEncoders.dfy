/** The LMR-LINES/2 and /3 encoders (`factor_lines`, `factor_blocks` in
    `src/lossless_filters.rs`). Each loop carries the state that the decoder
    reaches on the records written so far, so its contract is the round trip. */
module LinesEncoders {
  import opened Text
  import opened LinesView
  import opened LinesChoices
  import JsonString

  // ----- what the decoder does with each record an encoder writes

  /** Decoder state after the first `i` rows. */
  function At(lines: seq<string>, i: nat, prefix: string, prefixes: seq<string>): State
    requires i <= |lines|
  {
    State(prefix, prefixes, lines[..i], |Unrows(lines[..i])|)
  }

  /** The decoder reaches `st`, or fails because the text is beyond its limits. */
  predicate Leads(r: Result<State>, lines: seq<string>, st: State) {
    match r
    case Ok(reached) => reached == st
    case Err => !Fits(lines)
  }

  lemma PartFits(lines: seq<string>, i: nat)
    requires i <= |lines|
    ensures Fits(lines) ==> Fits(lines[..i])
  {
    UnrowsAppend(lines[..i], lines[i..]);
    assert lines[..i] + lines[i..] == lines;
  }

  lemma {:induction false} TimesIs(row: string, rows: seq<string>)
    requires forall k :: 0 <= k < |rows| ==> rows[k] == row
    ensures Times(row, |rows|) == rows
  {
    if rows != [] {
      TimesIs(row, rows[1..]);
    }
  }

  lemma AppendLeads(lines: seq<string>, i: nat, n: nat, row: string, prefix: string, prefixes: seq<string>)
    requires i + n <= |lines| && forall k :: i <= k < i + n ==> lines[k] == row
    ensures Leads(Append(At(lines, i, prefix, prefixes), row, n), lines, At(lines, i + n, prefix, prefixes))
  {
    var rows := lines[i..i + n];
    TimesIs(row, rows);
    TimesText(row, n);
    assert lines[..i] + rows == lines[..i + n];
    UnrowsAppend(lines[..i], rows);
    PartFits(lines, i + n);
  }

  lemma LiteralLeads(lines: seq<string>, i: nat, prefix: string, prefixes: seq<string>, version3: bool)
    requires i < |lines| && prefix <= lines[i]
    ensures var record := LiteralRecord(lines[i][|prefix|..]);
            !IsEnd(record)
            && Leads(Step(record, At(lines, i, prefix, prefixes), version3), lines, At(lines, i + 1, prefix, prefixes))
  {
    var suffix := lines[i][|prefix|..];
    var record := LiteralRecord(suffix);
    AppendLeads(lines, i, 1, lines[i], prefix, prefixes);
    assert prefix + suffix == lines[i];
    if NeedsEscape(suffix) {
      assert record[0] == '\\' && record[1..] == suffix;
    }
  }

  lemma ReferenceLeads(lines: seq<string>, i: nat, j: nat, prefix: string, prefixes: seq<string>, version3: bool)
    requires j < i < |lines| && lines[j] == lines[i]
    ensures var record := "&" + Decimal(j);
            !IsEnd(record)
            && Leads(Step(record, At(lines, i, prefix, prefixes), version3), lines, At(lines, i + 1, prefix, prefixes))
  {
    var record := "&" + Decimal(j);
    DecimalRoundTrip(j);
    assert record[0] == '&' && record[1..] == Decimal(j);
    assert SplitOnce(Decimal(j), ':').None?;
    AppendLeads(lines, i, 1, lines[i], prefix, prefixes);
    PartFits(lines, i);
  }

  lemma TimesLeads(lines: seq<string>, i: nat, n: nat, prefix: string, prefixes: seq<string>, version3: bool)
    requires 0 < i && i + n <= |lines| && forall k :: i <= k < i + n ==> lines[k] == lines[i - 1]
    ensures var record := "=" + Decimal(n);
            !IsEnd(record)
            && Leads(Step(record, At(lines, i, prefix, prefixes), version3), lines, At(lines, i + n, prefix, prefixes))
  {
    var record := "=" + Decimal(n);
    assert record[0] == '=' && record[1..] == Decimal(n);
    AppendLeads(lines, i, n, lines[i - 1], prefix, prefixes);
    assert lines[..i] != [] && lines[..i][i - 1] == lines[i - 1];
    CountRead(n, At(lines, i, prefix, prefixes));
  }

  lemma CountRead(n: nat, st: State)
    requires st.rows != []
    ensures RowRecord("=" + Decimal(n), st)
            == if n < USIZE_LIMIT then Append(st, st.rows[|st.rows| - 1], n) else Err
  {
    DecimalRoundTrip(n);
    var record := "=" + Decimal(n);
    assert record[0] == '=' && record[1..] == Decimal(n);
  }

  lemma BlockLeads(lines: seq<string>, i: nat, start: nat, count: nat, prefix: string, prefixes: seq<string>)
    requires count > 0 && start + count <= i && i + count <= |lines|
    requires lines[start..start + count] == lines[i..i + count]
    ensures var record := "&" + Decimal(start) + ":" + Decimal(count);
            !IsEnd(record)
            && Leads(Step(record, At(lines, i, prefix, prefixes), true), lines, At(lines, i + count, prefix, prefixes))
  {
    BlockStep(start, count, At(lines, i, prefix, prefixes));
    BlockRead(lines, i, start, count, prefix, prefixes);
  }

  lemma BlockStep(start: nat, count: nat, st: State)
    ensures var record := "&" + Decimal(start) + ":" + Decimal(count);
            !IsEnd(record) && Step(record, st, true) == Block(Decimal(start), Decimal(count), st)
  {
    DecimalRoundTrip(start);
    PairStep(Decimal(start), Decimal(count), st);
    ConcatAssoc("&", Decimal(start), ":");
    ConcatAssoc("&", Decimal(start) + ":", Decimal(count));
  }

  lemma PairStep(number: string, size: string, st: State)
    requires ':' !in number
    ensures var record := "&" + (number + [':'] + size);
            !IsEnd(record) && Step(record, st, true) == Block(number, size, st)
  {
    SplitOnceAt(number, ':', size);
    PairRead("&" + (number + [':'] + size), number + [':'] + size, number, size, st);
  }

  lemma PairRead(record: string, pair: string, number: string, size: string, st: State)
    requires record == "&" + pair && SplitOnce(pair, ':') == Some((number, size))
    ensures !IsEnd(record) && Step(record, st, true) == Block(number, size, st)
  {
    assert record[0] == '&' && record[1..] == pair;
  }

  lemma BlockRead(lines: seq<string>, i: nat, start: nat, count: nat, prefix: string, prefixes: seq<string>)
    requires count > 0 && start + count <= i && i + count <= |lines|
    requires lines[start..start + count] == lines[i..i + count]
    ensures Leads(Block(Decimal(start), Decimal(count), At(lines, i, prefix, prefixes)), lines,
                  At(lines, i + count, prefix, prefixes))
  {
    DecimalRoundTrip(start);
    DecimalRoundTrip(count);
    NumbersRead(lines, i, Decimal(start), Decimal(count), start, count, lines[i..i + count], prefix, prefixes);
  }

  lemma NumbersRead(lines: seq<string>, i: nat, number: string, size: string, start: nat, count: nat,
                    block: seq<string>, prefix: string, prefixes: seq<string>)
    requires ParseUsize(number) == if start < USIZE_LIMIT then Some(start) else None
    requires ParseUsize(size) == if count < USIZE_LIMIT then Some(count) else None
    requires count > 0 && start + count <= i && i + count <= |lines|
    requires lines[start..start + count] == lines[i..i + count] == block
    ensures Leads(Block(number, size, At(lines, i, prefix, prefixes)), lines, At(lines, i + count, prefix, prefixes))
  {
    BlockText(lines, i, start, count, block);
    BlockParsed(number, size, start, count, At(lines, i, prefix, prefixes), block);
    PartFits(lines, i + count);
    BlockFits(lines, i, count, Block(number, size, At(lines, i, prefix, prefixes)), prefix, prefixes);
  }

  lemma BlockFits(lines: seq<string>, i: nat, count: nat, r: Result<State>, prefix: string, prefixes: seq<string>)
    requires i + count <= |lines| && (Fits(lines) ==> Fits(lines[..i + count]))
    requires r == if i + count > ROW_LIMIT || |Unrows(lines[..i + count])| > LIMIT then Err
                  else Ok(At(lines, i + count, prefix, prefixes))
    ensures Leads(r, lines, At(lines, i + count, prefix, prefixes))
  {
  }

  lemma BlockParsed(number: string, size: string, start: nat, count: nat, st: State, block: seq<string>)
    requires ParseUsize(number) == if start < USIZE_LIMIT then Some(start) else None
    requires ParseUsize(size) == if count < USIZE_LIMIT then Some(count) else None
    requires count > 0 && start + count <= |st.rows| && st.rows[start..start + count] == block
    ensures Block(number, size, st)
            == if |st.rows| + count > ROW_LIMIT || st.bytes + |Unrows(block)| > LIMIT then Err
               else Ok(st.(rows := st.rows + block, bytes := st.bytes + |Unrows(block)|))
  {
  }

  lemma BlockText(lines: seq<string>, i: nat, start: nat, count: nat, block: seq<string>)
    requires start + count <= i && i + count <= |lines|
    requires lines[start..start + count] == lines[i..i + count] == block
    ensures |lines[..i]| == i && lines[..i][start..start + count] == block && lines[..i] + block == lines[..i + count]
    ensures |Unrows(lines[..i])| + |Unrows(block)| == |Unrows(lines[..i + count])|
  {
    assert lines[..i] + block == lines[..i + count];
    UnrowsAppend(lines[..i], block);
  }

  /** A prefix of some row is within the limits whenever the text is. */
  lemma PrefixFits(lines: seq<string>, i: nat, prefix: string)
    requires i < |lines| && prefix <= lines[i]
    ensures Fits(lines) ==> |prefix| <= LIMIT
  {
    PartFits(lines, i + 1);
    UnrowsSnoc(lines[..i], lines[i]);
    assert lines[..i] + [lines[i]] == lines[..i + 1];
  }

  lemma DefineLeads(lines: seq<string>, i: nat, before: string, prefix: string, prefixes: seq<string>, version3: bool)
    requires i < |lines| && prefix <= lines[i]
    ensures var record := "@" + JsonString.Encode(prefix);
            !IsEnd(record)
            && Leads(Step(record, At(lines, i, before, prefixes), version3), lines,
                     At(lines, i, prefix, prefixes + [prefix]))
  {
    var record := "@" + JsonString.Encode(prefix);
    assert record[0] == '@' && record[1..] == JsonString.Encode(prefix);
    JsonString.DecodeRoundTrip(prefix);
    PrefixFits(lines, i, prefix);
  }

  lemma RecallLeads(lines: seq<string>, i: nat, before: string, id: nat, prefixes: seq<string>)
    requires i < |lines| && id < |prefixes| && prefixes[id] <= lines[i]
    requires |prefixes| <= |lines|
    ensures var record := "@" + Decimal(id);
            !IsEnd(record)
            && Leads(Step(record, At(lines, i, before, prefixes), true), lines, At(lines, i, prefixes[id], prefixes))
  {
    var record := "@" + Decimal(id);
    DecimalRoundTrip(id);
    assert record[0] == '@' && record[1..] == Decimal(id);
    assert SplitOnce(Decimal(id), ':').None?;
    PrefixFits(lines, i, prefixes[id]);
  }

  lemma ExtendLeads(lines: seq<string>, i: nat, before: string, id: nat, extension: string, prefixes: seq<string>)
    requires i < |lines| && id < |prefixes| && prefixes[id] + extension <= lines[i]
    requires |prefixes| <= |lines|
    ensures var record := "@" + Decimal(id) + ":" + JsonString.Encode(extension);
            !IsEnd(record)
            && Leads(Step(record, At(lines, i, before, prefixes), true), lines,
                     At(lines, i, prefixes[id] + extension, prefixes + [prefixes[id] + extension]))
  {
    var json := Decimal(id) + [':'] + JsonString.Encode(extension);
    var record := "@" + Decimal(id) + ":" + JsonString.Encode(extension);
    assert record[0] == '@' && record[1..] == json;
    ExtensionRead(id, extension, At(lines, i, before, prefixes));
    PrefixFits(lines, i, prefixes[id] + extension);
  }

  lemma ExtensionRead(id: nat, extension: string, st: State)
    requires id < |st.prefixes|
    ensures PrefixRecord(Decimal(id) + [':'] + JsonString.Encode(extension), st, true)
            == if id < USIZE_LIMIT then Define(st, st.prefixes[id] + extension) else Err
  {
    var json := Decimal(id) + [':'] + JsonString.Encode(extension);
    DecimalRoundTrip(id);
    SplitOnceAt(Decimal(id), ':', JsonString.Encode(extension));
    assert json[0] == Decimal(id)[0];
    JsonString.DecodeRoundTrip(extension);
  }

  // ----- the view written so far

  predicate Records(records: seq<string>) {
    records == []
    || (Records(records[..|records| - 1]) && NoLf(records[|records| - 1]) && !IsEnd(records[|records| - 1]))
  }

  lemma {:induction false} RecordsAre(records: seq<string>)
    requires Records(records)
    ensures AllNoLf(records) && forall k :: 0 <= k < |records| ==> !IsEnd(records[k])
  {
    if records != [] {
      RecordsAre(records[..|records| - 1]);
    }
  }

  /** `out` holds `records`, and replaying them leads the decoder to `st`. */
  predicate Encodes(out: string, records: seq<string>, version3: bool, lines: seq<string>, st: State) {
    IsStream(out, records, version3) && Leads(Replay(records, version3), lines, st)
  }

  predicate IsStream(out: string, records: seq<string>, version3: bool) {
    out == Magic(version3) + Unrows(records) && Records(records)
  }

  ghost predicate EncodesWith(out: string, records: seq<string>, version3: bool, lines: seq<string>, st: State) {
    Encodes(out, records, version3, lines, st) && st.rows == lines && AllChosen(records, version3, lines)
  }

  /** `out` is a stream, without its end record, that leads the decoder to all `lines`. */
  ghost predicate EncodesAll(out: string, version3: bool, lines: seq<string>) {
    exists records, st :: EncodesWith(out, records, version3, lines, st)
  }

  lemma Starts(version3: bool, lines: seq<string>)
    ensures Encodes(Magic(version3), [], version3, lines, At(lines, 0, "", []))
  {
  }

  lemma Writes(out: string, records: seq<string>, version3: bool, lines: seq<string>, st: State,
               record: string, next: State)
    requires Encodes(out, records, version3, lines, st)
    requires NoLf(record) && !IsEnd(record)
    requires Leads(Step(record, st, version3), lines, next)
    ensures Encodes(out + (record + "\n"), records + [record], version3, lines, next)
  {
    BufferEnd(Magic(version3), records, record);
    ReplaySnoc(records, record, version3);
    assert (records + [record])[..|records|] == records;
  }

  method WriteLiteralRow(out: string, prefix: string, row: string, ghost records: seq<string>, version3: bool,
                         ghost lines: seq<string>, ghost i: nat, ghost prefixes: seq<string>)
    returns (written: string, ghost after: seq<string>)
    requires i < |lines| && lines[i] == row && NoLf(row) && prefix <= row
    requires Encodes(out, records, version3, lines, At(lines, i, prefix, prefixes))
    requires AllChosen(records, version3, lines)
    requires ChosenAt(LiteralRecord(row[|prefix|..]), At(lines, i, prefix, prefixes), version3, lines)
    ensures Encodes(written, after, version3, lines, At(lines, i + 1, prefix, prefixes))
    ensures AllChosen(after, version3, lines)
  {
    var suffix := row[|prefix|..];
    written := out;
    if NeedsEscape(suffix) {
      written := written + "\\";
    }
    written := written + suffix + "\n";
    after := records + [LiteralRecord(suffix)];
    assert written == out + (LiteralRecord(suffix) + "\n") by {
      ConcatAssoc(out, "\\", suffix);
      ConcatAssoc(out, LiteralRecord(suffix), "\n");
    }
    LiteralWrites(out, prefix, row, records, version3, lines, i, prefixes);
    ChosenNext(out, records, version3, lines, At(lines, i, prefix, prefixes), LiteralRecord(suffix));
  }

  lemma ChosenNext(out: string, records: seq<string>, version3: bool, lines: seq<string>, st: State, record: string)
    requires Encodes(out, records, version3, lines, st) && AllChosen(records, version3, lines)
    requires ChosenAt(record, st, version3, lines)
    ensures AllChosen(records + [record], version3, lines)
  {
    OneMoreChosen(records, version3, lines, record);
  }

  lemma LiteralWrites(out: string, prefix: string, row: string, records: seq<string>, version3: bool,
                      lines: seq<string>, i: nat, prefixes: seq<string>)
    requires i < |lines| && lines[i] == row && NoLf(row) && prefix <= row
    requires Encodes(out, records, version3, lines, At(lines, i, prefix, prefixes))
    ensures var record := LiteralRecord(row[|prefix|..]);
            Encodes(out + (record + "\n"), records + [record], version3, lines, At(lines, i + 1, prefix, prefixes))
  {
    var record := LiteralRecord(row[|prefix|..]);
    assert NoLf(record);
    LiteralLeads(lines, i, prefix, prefixes, version3);
    Writes(out, records, version3, lines, At(lines, i, prefix, prefixes), record, At(lines, i + 1, prefix, prefixes));
  }

  /** A finished stream decodes to its text exactly within the limits. */
  lemma Finishes(raw: string, out: string, records: seq<string>, version3: bool, st: State, trailer: seq<string>)
    requires raw != ""
    requires Encodes(out, records, version3, Rows(raw), st) && st.rows == Rows(raw)
    requires AllNoLf(trailer) && IsTrailer(trailer)
    ensures var view := out + (EndRecord(raw) + "\n") + Unrows(trailer);
            Magic(version3) <= view && Rows(view) != [] && Rows(view)[1..] == records + [EndRecord(raw)] + trailer
            && Decoded(view) == if Fits(Rows(raw)) then Ok(raw) else Err
  {
    RecordsAre(records);
    StreamRecords(out, records, version3, EndRecord(raw), trailer);
    EndsAfter(records, EndRecord(raw), trailer, version3);
    JoinOfRows(raw);
    DecoderIsBounded(records, version3);
  }

  lemma EndsAfter(records: seq<string>, end: string, trailer: seq<string>, version3: bool)
    requires Records(records) && IsEnd(end) && IsTrailer(trailer)
    ensures DecodedRecords(records + [end] + trailer, version3)
            == match Replay(records, version3)
               case Err => Err
               case Ok(st) => Ok(Join(st.rows) + if end == "!1" then "\n" else "")
  {
    var all := records + [end] + trailer;
    RecordsAre(records);
    EndIndexAt(all, |records|);
    assert all[..|records|] == records && all[|records| + 1..] == trailer;
  }

  lemma StreamRecords(out: string, records: seq<string>, version3: bool, end: string, trailer: seq<string>)
    requires out == Magic(version3) + Unrows(records) && AllNoLf(records + [end] + trailer)
    ensures var view := out + (end + "\n") + Unrows(trailer);
            Magic(version3) <= view && (MAGIC3 <= view <==> version3)
            && Rows(view) != [] && Rows(view)[1..] == records + [end] + trailer
  {
    BufferEnd(Magic(version3), records, end);
    BufferAppend(Magic(version3), records + [end], trailer);
    MagicRows(version3, records + [end] + trailer);
  }

  lemma MagicRows(version3: bool, records: seq<string>)
    requires AllNoLf(records)
    ensures var view := Magic(version3) + Unrows(records);
            (MAGIC3 <= view <==> version3) && Rows(view) != [] && Rows(view)[1..] == records
  {
    var head := if version3 then "LMR-LINES/3" else "LMR-LINES/2";
    assert Magic(version3) == head + "\n";
    RowsCons(head, Unrows(records));
    RowsOfUnrows(records);
    assert (Magic(version3) + Unrows(records))[10] == if version3 then '3' else '2';
  }

  // ----- common prefixes

  function EqualBytes(a: string, b: string): (n: nat)
    ensures n <= |a| && n <= |b| && a[..n] == b[..n]
    ensures n < |a| && n < |b| ==> a[n] != b[n]
  {
    if a == "" || b == "" || a[0] != b[0] then 0
    else
      var n := EqualBytes(a[1..], b[1..]);
      assert a[..n + 1] == [a[0]] + a[1..][..n] && b[..n + 1] == [b[0]] + b[1..][..n];
      n + 1
  }

  lemma {:induction false} PrefixLength(a: string, b: string, k: nat)
    requires k <= |a| && a[..k] <= b
    ensures k <= EqualBytes(a, b)
  {
    if k > 0 {
      assert a[0] == a[..k][0];
      assert a[1..][..k - 1] == a[..k][1..] == b[..k][1..] == b[1..][..k - 1];
      PrefixLength(a[1..], b[1..], k - 1);
    }
  }

  /** `common_prefix`: the longest common prefix that ends between characters of `a`. */
  method CommonPrefix(a: string, b: string) returns (prefix: string)
    ensures IsCommon(prefix, a, b)
  {
    var size: nat := EqualBytes(a, b);
    ghost var longest := size;
    while !IsCharBoundary(a, size)
      invariant size <= longest
      invariant forall k :: size < k <= longest ==> !IsCharBoundary(a, k)
      decreases size
    {
      size := size - 1;
    }
    forall k | 0 <= k <= |a| && a[..k] <= b
      ensures k <= longest
    {
      PrefixLength(a, b, k);
    }
    prefix := a[..size];
  }

  // ----- LMR-LINES/2

  /** Exactly the rows before `i` are known, each by its first copy. */
  predicate Seen(seen: map<string, nat>, lines: seq<string>, i: nat) {
    i <= |lines| && (forall row :: row in seen ==> IsFirst(lines, seen[row], row, i))
    && forall k :: 0 <= k < i ==> lines[k] in seen
  }

  lemma SeenIs(seen: map<string, nat>, lines: seq<string>, i: nat)
    requires i < |lines| && Seen(seen, lines, i)
    ensures lines[i] in seen <==> lines[i] in lines[..i]
    ensures lines[i] in seen ==> IsFirst(lines, seen[lines[i]], lines[i], i)
  {
  }

  function OrInsert(seen: map<string, nat>, row: string, i: nat): map<string, nat> {
    if row in seen then seen else seen[row := i]
  }

  lemma OneMoreSeen(seen: map<string, nat>, lines: seq<string>, i: nat)
    requires i < |lines| && Seen(seen, lines, i)
    ensures Seen(OrInsert(seen, lines[i], i), lines, i + 1)
  {
    var next := OrInsert(seen, lines[i], i);
    SeenIs(seen, lines, i);
    forall row | row in next
      ensures IsFirst(lines, next[row], row, i + 1)
    {
      assert row in seen ==> IsFirst(lines, seen[row], row, i);
    }
  }

  lemma RunSeen(seen: map<string, nat>, lines: seq<string>, i: nat, end: nat)
    requires i < end <= |lines| && Seen(seen, lines, i + 1)
    requires forall k :: i <= k < end ==> lines[k] == lines[i]
    ensures Seen(seen, lines, end)
  {
    forall row | row in seen
      ensures IsFirst(lines, seen[row], row, end)
    {
      assert IsFirst(lines, seen[row], row, i + 1);
    }
  }

  /** Rows `i..end` with their common prefix removed. */
  method WriteGroup(out: string, prefix: string, lines: seq<string>, i: nat, end: nat, known: map<string, nat>,
                    ghost records: seq<string>, ghost prefixes: seq<string>)
    returns (written: string, seen: map<string, nat>, ghost after: seq<string>)
    requires i < end <= |lines| && AllNoLf(lines)
    requires AllHave(lines, i, end, prefix) && IsGroup(lines, i, end, prefix)
    requires Encodes(out, records, false, lines, At(lines, i, prefix, prefixes)) && Seen(known, lines, i)
    requires AllChosen(records, false, lines)
    ensures Encodes(written, after, false, lines, At(lines, end, prefix, prefixes)) && Seen(seen, lines, end)
    ensures AllChosen(after, false, lines)
  {
    written, seen, after := out, known, records;
    for k := i to end
      invariant Encodes(written, after, false, lines, At(lines, k, prefix, prefixes)) && Seen(seen, lines, k)
      invariant AllChosen(after, false, lines)
    {
      OneMoreSeen(seen, lines, k);
      seen := OrInsert(seen, lines[k], k);
      GroupRow(lines, i, end, k, prefix, prefixes);
      written, after := WriteLiteralRow(written, prefix, lines[k], after, false, lines, k, prefixes);
    }
  }

  lemma GroupRow(lines: seq<string>, i: nat, end: nat, k: nat, prefix: string, prefixes: seq<string>)
    requires i <= k < end <= |lines| && prefix <= lines[k] && IsGroup(lines, i, end, prefix)
    ensures ChosenAt(LiteralRecord(lines[k][|prefix|..]), At(lines, k, prefix, prefixes), false, lines)
  {
    assert InGroup(lines, k, prefix);
    LiteralIsPlain(lines[k][|prefix|..]);
  }

  lemma LiteralIsPlain(row: string)
    ensures var record := LiteralRecord(row); !("&" <= record) && !("=" <= record) && !("@" <= record)
  {
    assert NeedsEscape(row) ==> LiteralRecord(row)[0] == '\\';
  }

  /** A row and its repetitions, written without a prefix. */
  method WriteRun(out: string, prefix: string, lines: seq<string>, i: nat, end: nat,
                  ghost records: seq<string>, ghost prefixes: seq<string>)
    returns (written: string, ghost after: seq<string>, ghost known: seq<string>)
    requires i + 1 < end <= |lines| && AllNoLf(lines)
    requires forall k :: i <= k < end ==> lines[k] == lines[i]
    requires end < |lines| ==> lines[end] != lines[i]
    requires StartsRun(lines, i) && AllChosen(records, false, lines)
    requires Encodes(out, records, false, lines, At(lines, i, prefix, prefixes))
    ensures Encodes(written, after, false, lines, At(lines, end, "", known))
    ensures AllChosen(after, false, lines)
  {
    written, after, known := out, records, prefixes;
    if prefix != "" {
      written, after := WritePrefix(written, prefix, "", lines, i, after, known);
      known := known + [""];
    }
    RunHead(lines, i, known);
    written, after := WriteLiteralRow(written, "", lines[i], after, false, lines, i, known);
    written, after := WriteTimes(written, lines, i + 1, end, after, known);
  }

  lemma RunHead(lines: seq<string>, i: nat, prefixes: seq<string>)
    requires i < |lines| && StartsRun(lines, i)
    ensures ChosenAt(LiteralRecord(lines[i][|""|..]), At(lines, i, "", prefixes), false, lines)
  {
    LiteralIsPlain(lines[i][|""|..]);
  }

  method WriteTimes(out: string, lines: seq<string>, i: nat, end: nat, ghost records: seq<string>, ghost known: seq<string>)
    returns (written: string, ghost after: seq<string>)
    requires 0 < i < end && IsRepetition(lines, i, end - i)
    requires Encodes(out, records, false, lines, At(lines, i, "", known)) && AllChosen(records, false, lines)
    ensures Encodes(written, after, false, lines, At(lines, end, "", known)) && AllChosen(after, false, lines)
  {
    var record := "=" + Decimal(end - i);
    ghost var st, next := At(lines, i, "", known), At(lines, end, "", known);
    TimesStep(lines, i, end, record, known);
    Writes(out, records, false, lines, st, record, next);
    TimesChosen(lines, i, end - i, known);
    ChosenNext(out, records, false, lines, st, record);
    written := out + (record + "\n");
    after := records + [record];
  }

  lemma TimesStep(lines: seq<string>, i: nat, end: nat, record: string, known: seq<string>)
    requires i < end && IsRepetition(lines, i, end - i) && record == "=" + Decimal(end - i)
    ensures NoLf(record) && !IsEnd(record)
    ensures Leads(Step(record, At(lines, i, "", known), false), lines, At(lines, end, "", known))
  {
    DecimalRoundTrip(end - i);
    TimesLeads(lines, i, end - i, "", known, false);
  }

  lemma TimesChosen(lines: seq<string>, i: nat, n: nat, known: seq<string>)
    requires IsRepetition(lines, i, n)
    ensures ChosenAt("=" + Decimal(n), At(lines, i, "", known), false, lines)
  {
    assert ("=" + Decimal(n))[0] == '=';
  }

  method WritePrefix(out: string, ghost before: string, prefix: string, ghost lines: seq<string>, ghost i: nat,
                     ghost records: seq<string>, ghost prefixes: seq<string>)
    returns (written: string, ghost after: seq<string>)
    requires i < |lines| && prefix <= lines[i]
    requires prefix != before
    requires (prefix == "" && StartsRun(lines, i)) || exists end: nat :: IsGroup(lines, i, end, prefix)
    requires Encodes(out, records, false, lines, At(lines, i, before, prefixes)) && AllChosen(records, false, lines)
    ensures Encodes(written, after, false, lines, At(lines, i, prefix, prefixes + [prefix]))
    ensures AllChosen(after, false, lines)
  {
    var record := "@" + JsonString.Encode(prefix);
    PrefixChosen(lines, i, before, prefix, prefixes);
    ChosenNext(out, records, false, lines, At(lines, i, before, prefixes), record);
    JsonString.EncodeNoLf(prefix);
    DefineLeads(lines, i, before, prefix, prefixes, false);
    Writes(out, records, false, lines, At(lines, i, before, prefixes), record, At(lines, i, prefix, prefixes + [prefix]));
    written := out + (record + "\n");
    after := records + [record];
  }

  lemma PrefixChosen(lines: seq<string>, i: nat, before: string, prefix: string, prefixes: seq<string>)
    requires i < |lines| && prefix != before
    requires (prefix == "" && StartsRun(lines, i)) || exists end: nat :: IsGroup(lines, i, end, prefix)
    ensures ChosenAt("@" + JsonString.Encode(prefix), At(lines, i, before, prefixes), false, lines)
  {
    assert ("@" + JsonString.Encode(prefix))[0] == '@';
  }

  method WriteReference(out: string, prefix: string, lines: seq<string>, i: nat, j: nat,
                        ghost records: seq<string>, ghost prefixes: seq<string>)
    returns (written: string, ghost after: seq<string>)
    requires i < |lines| && |lines[i]| >= 40 && IsFirst(lines, j, lines[i], i)
    requires Encodes(out, records, false, lines, At(lines, i, prefix, prefixes)) && AllChosen(records, false, lines)
    ensures Encodes(written, after, false, lines, At(lines, i + 1, prefix, prefixes))
    ensures AllChosen(after, false, lines)
  {
    var record := "&" + Decimal(j);
    ReferenceChosen(lines, i, j, prefix, prefixes);
    ChosenNext(out, records, false, lines, At(lines, i, prefix, prefixes), record);
    DecimalRoundTrip(j);
    ReferenceLeads(lines, i, j, prefix, prefixes, false);
    Writes(out, records, false, lines, At(lines, i, prefix, prefixes), record, At(lines, i + 1, prefix, prefixes));
    written := out + (record + "\n");
    after := records + [record];
  }

  lemma ReferenceChosen(lines: seq<string>, i: nat, j: nat, prefix: string, prefixes: seq<string>)
    requires i < |lines| && |lines[i]| >= 40 && IsFirst(lines, j, lines[i], i)
    ensures ChosenAt("&" + Decimal(j), At(lines, i, prefix, prefixes), false, lines)
  {
  }

  /** The prefix group that starts at row `i`: its prefix and its end. */
  method PrefixGroup(lines: seq<string>, i: nat) returns (prefix: string, end: nat)
    requires i < |lines| && Opens(lines, i)
    ensures i < end <= |lines| && AllHave(lines, i, end, prefix)
    ensures IsGroup(lines, i, end, prefix)
  {
    prefix := "";
    if i + 1 < |lines| {
      prefix := CommonPrefix(lines[i], lines[i + 1]);
    }
    end := i + 1;
    if |prefix| >= 8 {
      while end < |lines| && prefix <= lines[end]
        invariant i < end <= |lines|
        invariant AllHave(lines, i, end, prefix)
      {
        end := end + 1;
      }
    }
    GroupIsFound(lines, i, end, prefix);
    if |prefix| * (end - i - 1) <= |prefix| + 12 {
      end, prefix := i + 1, "";
    }
  }

  lemma GroupIsFound(lines: seq<string>, i: nat, end: nat, common: string)
    requires i < end <= |lines|
    requires if i + 1 < |lines| then IsCommon(common, lines[i], lines[i + 1]) else common == ""
    requires if |common| >= 8 then AllHave(lines, i, end, common) && (end < |lines| ==> !(common <= lines[end]))
             else end == i + 1
    ensures |common| * (end - i - 1) > |common| + 12 ==> PrefixPays(lines, i, end, common)
    ensures |common| * (end - i - 1) <= |common| + 12 ==>
              forall shared: string, last: nat :: !PrefixPays(lines, i, last, shared)
  {
    forall shared: string, last: nat | PrefixPays(lines, i, last, shared)
      ensures shared == common && last == end
    {
      CommonIsUnique(shared, common, lines[i], lines[i + 1]);
    }
  }

  lemma CommonIsUnique(p: string, q: string, a: string, b: string)
    requires IsCommon(p, a, b) && IsCommon(q, a, b)
    ensures p == q
  {
    assert a[..|p|] == p && a[..|q|] == q;
  }

  /** The end of the rows from `i` on that equal row `i`. */
  method RunEnd(lines: seq<string>, i: nat) returns (end: nat)
    requires i < |lines|
    ensures i < end <= |lines| && forall k :: i <= k < end ==> lines[k] == lines[i]
    ensures end < |lines| ==> lines[end] != lines[i]
  {
    end := i + 1;
    while end < |lines| && lines[end] == lines[i]
      invariant i < end <= |lines| && forall k :: i <= k < end ==> lines[k] == lines[i]
    {
      end := end + 1;
    }
  }

  /** The prefix group at row `i`, after its prefix if that is a new one. */
  method NextGroup(out: string, before: string, lines: seq<string>, i: nat, known: map<string, nat>,
                   ghost records: seq<string>, ghost prefixes: seq<string>)
    returns (written: string, prefix: string, end: nat, seen: map<string, nat>,
             ghost after: seq<string>, ghost numbered: seq<string>)
    requires i < |lines| && AllNoLf(lines) && Opens(lines, i) && Seen(known, lines, i)
    requires Encodes(out, records, false, lines, At(lines, i, before, prefixes)) && AllChosen(records, false, lines)
    ensures i < end <= |lines| && Seen(seen, lines, end)
    ensures Encodes(written, after, false, lines, At(lines, end, prefix, numbered)) && AllChosen(after, false, lines)
  {
    written, after, numbered := out, records, prefixes;
    prefix, end := PrefixGroup(lines, i);
    if prefix != before {
      written, after := WritePrefix(out, before, prefix, lines, i, records, prefixes);
      numbered := prefixes + [prefix];
    }
    written, seen, after := WriteGroup(written, prefix, lines, i, end, known, after, numbered);
  }

  /** A row or group of rows that no reference stands for. */
  method WriteRows(out: string, before: string, lines: seq<string>, i: nat, known: map<string, nat>,
                   ghost records: seq<string>, ghost prefixes: seq<string>)
    returns (written: string, prefix: string, end: nat, seen: map<string, nat>,
             ghost after: seq<string>, ghost numbered: seq<string>)
    requires i < |lines| && AllNoLf(lines) && Seen(known, lines, i)
    requires !(|lines[i]| >= 40 && lines[i] in lines[..i])
    requires Encodes(out, records, false, lines, At(lines, i, before, prefixes)) && AllChosen(records, false, lines)
    ensures i < end <= |lines| && Seen(seen, lines, end)
    ensures Encodes(written, after, false, lines, At(lines, end, prefix, numbered)) && AllChosen(after, false, lines)
  {
    end := RunEnd(lines, i);
    if end > i + 1 {
      OneMoreSeen(known, lines, i);
      seen, prefix := OrInsert(known, lines[i], i), "";
      RunSeen(seen, lines, i, end);
      written, after, numbered := WriteRun(out, before, lines, i, end, records, prefixes);
    } else {
      written, prefix, end, seen, after, numbered := NextGroup(out, before, lines, i, known, records, prefixes);
    }
  }

  /** The first copy of a row that is long enough to be worth a reference. */
  method LongKnown(known: map<string, nat>, lines: seq<string>, i: nat) returns (copy: Option<nat>)
    requires i < |lines| && Seen(known, lines, i)
    ensures copy.None? ==> !(|lines[i]| >= 40 && lines[i] in lines[..i])
    ensures copy.Some? ==> |lines[i]| >= 40 && IsFirst(lines, copy.value, lines[i], i) && Seen(known, lines, i + 1)
  {
    SeenIs(known, lines, i);
    OneMoreSeen(known, lines, i);
    copy := if |lines[i]| >= 40 && lines[i] in known then Some(known[lines[i]]) else None;
  }

  /** The next rows: a long known row, a run or a prefix group. */
  method NextRows(out: string, before: string, lines: seq<string>, i: nat, known: map<string, nat>,
                  ghost records: seq<string>, ghost prefixes: seq<string>)
    returns (written: string, prefix: string, end: nat, seen: map<string, nat>,
             ghost after: seq<string>, ghost numbered: seq<string>)
    requires i < |lines| && AllNoLf(lines) && Seen(known, lines, i)
    requires Encodes(out, records, false, lines, At(lines, i, before, prefixes)) && AllChosen(records, false, lines)
    ensures i < end <= |lines| && Seen(seen, lines, end)
    ensures Encodes(written, after, false, lines, At(lines, end, prefix, numbered)) && AllChosen(after, false, lines)
  {
    var copy := LongKnown(known, lines, i);
    if copy.Some? {
      prefix, end, seen, numbered := before, i + 1, known, prefixes;
      written, after := WriteReference(out, before, lines, i, copy.value, records, prefixes);
    } else {
      written, prefix, end, seen, after, numbered := WriteRows(out, before, lines, i, known, records, prefixes);
    }
  }

  /** The rows of `factor_lines`, from the magic line to the end record. */
  method EncodeLines(lines: seq<string>) returns (output: string)
    requires AllNoLf(lines)
    ensures EncodesAll(output, false, lines)
  {
    output := MAGIC2;
    ghost var records: seq<string> := [];
    ghost var prefixes: seq<string> := [];
    var prefix := "";
    var seen: map<string, nat> := map[];
    var i := 0;
    Starts(false, lines);
    while i < |lines|
      invariant i <= |lines| && Seen(seen, lines, i)
      invariant Encodes(output, records, false, lines, At(lines, i, prefix, prefixes)) && AllChosen(records, false, lines)
    {
      output, prefix, i, seen, records, prefixes := NextRows(output, prefix, lines, i, seen, records, prefixes);
    }
    assert lines[..i] == lines;
    assert EncodesWith(output, records, false, lines, At(lines, i, prefix, prefixes));
  }

  /** `factor_lines`. The stream decodes to the text exactly within the limits
      of the decoder; the view is the stream only where that is shorter. */
  method FactorLines(raw: string) returns (view: string, ghost stream: string)
    ensures raw == "" || MAGIC2 <= raw ==> view == raw
    ensures raw != "" && !(MAGIC2 <= raw) ==>
              MAGIC2 <= stream && WellChosen(stream, false, Rows(raw))
              && Decoded(stream) == (if Fits(Rows(raw)) then Ok(raw) else Err)
              && view == if |stream| < |raw| then stream else raw
  {
    view, stream := raw, "";
    if raw == "" || MAGIC2 <= raw {
      return;
    }
    RowsNoLf(raw);
    var output := EncodeLines(Rows(raw));
    ghost var records, st :| EncodesWith(output, records, false, Rows(raw), st);
    Finishes(raw, output, records, false, st, []);
    ghost var all := Rows(output + (EndRecord(raw) + "\n") + Unrows([]))[1..];
    assert all == records + [EndRecord(raw)] && all[..|all| - 1] == records;
    output := output + (EndRecord(raw) + "\n");
    assert output + Unrows([]) == output;
    stream := output;
    if |output| < |raw| {
      view := output;
    }
  }

  // ----- LMR-LINES/3

  /** The encoder and the decoder number prefixes alike. */
  predicate Numbered(known: map<string, nat>, prefixes: seq<string>) {
    |known| == |prefixes|
    && (forall p :: p in known ==> known[p] < |prefixes| && prefixes[known[p]] == p)
    && forall id :: 0 <= id < |prefixes| ==> prefixes[id] in known
  }

  lemma {:induction false} SameIs(lines: seq<string>, start: nat, i: nat, count: nat)
    requires start + count <= |lines| && i + count <= |lines|
    ensures Same(lines, start, i, count) <==> lines[start..start + count] == lines[i..i + count]
  {
    if count > 0 {
      SameIs(lines, start, i, count - 1);
      SliceSnoc(lines, start, count - 1);
      SliceSnoc(lines, i, count - 1);
      SnocEqual(lines[start..start + count - 1], lines[start + count - 1], lines[i..i + count - 1], lines[i + count - 1]);
    }
  }

  lemma SnocEqual<T>(a: seq<T>, x: T, b: seq<T>, y: T)
    ensures a + [x] == b + [y] <==> a == b && x == y
  {
    assert (a + [x])[..|a|] == a && (b + [y])[..|b|] == b;
    assert (a + [x])[|a|] == x && (b + [y])[|b|] == y;
    assert a + [x] == b + [y] ==> |a| == |b|;
  }

  lemma SliceSnoc(lines: seq<string>, start: nat, count: nat)
    requires start + count < |lines|
    ensures lines[start..start + count + 1] == lines[start..start + count] + [lines[start + count]]
  {
  }

  /** Rows from `start` on that equal the rows from `i` on, ending before `i`. */
  method BlockLength(lines: seq<string>, i: nat, start: nat) returns (count: nat)
    requires i < |lines| && IsFirst(lines, start, lines[i], i)
    ensures IsBlock(lines, i, start, count)
  {
    count := 1;
    while start + count < i && i + count < |lines| && lines[start + count] == lines[i + count]
      invariant count >= 1 && start + count <= i && i + count <= |lines| && Same(lines, start, i, count)
    {
      count := count + 1;
    }
  }

  /** Length of the block worth a reference at row `i`, or 0. */
  method BlockAt(lines: seq<string>, i: nat, seen: map<string, nat>) returns (count: nat)
    requires i < |lines| && Seen(seen, lines, i)
    ensures count > 0 ==> lines[i] in seen && BlockPays(lines, i, seen[lines[i]], count)
    ensures count == 0 ==> NoBlockPays(lines, i)
  {
    count := 0;
    SeenIs(seen, lines, i);
    if lines[i] in seen {
      var start := seen[lines[i]];
      var size := BlockLength(lines, i, start);
      PaysIs(lines, i, start, size);
      if (size >= 2 || |lines[i]| >= 24) && |BlockRecord(start, size)| + 1 < |Unrows(lines[i..i + size])| {
        count := size;
      }
    } else {
      NoCopyNoBlock(lines, i);
    }
  }

  lemma PaysIs(lines: seq<string>, i: nat, start: nat, size: nat)
    requires IsBlock(lines, i, start, size)
    ensures BlockPays(lines, i, start, size)
            == ((size >= 2 || |lines[i]| >= 24) && |BlockRecord(start, size)| + 1 < |Unrows(lines[i..i + size])|)
    ensures BlockPays(lines, i, start, size) != NoBlockPays(lines, i)
  {
    forall other: nat, count: nat | BlockPays(lines, i, other, count)
      ensures BlockPays(lines, i, start, size)
    {
      BlockIsUnique(lines, i, start, size, other, count);
    }
  }

  lemma NoCopyNoBlock(lines: seq<string>, i: nat)
    requires i < |lines| && lines[i] !in lines[..i]
    ensures NoBlockPays(lines, i)
  {
    forall start: nat, count: nat
      ensures !BlockPays(lines, i, start, count)
    {
      assert start < i ==> lines[start] != lines[i];
    }
  }

  /** The record takes the decoder from the rows before `i` to those before `next`. */
  predicate Advances(record: string, lines: seq<string>, i: nat, next: nat, prefix: string, prefixes: seq<string>)
    requires i <= next <= |lines|
  {
    match Step(record, At(lines, i, prefix, prefixes), true)
    case Ok(reached) => NoLf(record) && !IsEnd(record) && reached == At(lines, next, prefix, prefixes)
    case Err => NoLf(record) && !IsEnd(record) && !Fits(lines)
  }

  lemma BlockRecordLeads(lines: seq<string>, i: nat, start: nat, count: nat, prefix: string, prefixes: seq<string>)
    requires count > 0 && start + count <= i && i + count <= |lines|
    requires Same(lines, start, i, count)
    ensures Advances(BlockRecord(start, count), lines, i, i + count, prefix, prefixes)
  {
    if count == 1 {
      assert lines[start] == lines[i];
      OneRowAdvances(lines, i, start, prefix, prefixes);
    } else {
      SameIs(lines, start, i, count);
      BlockAdvances(lines, i, start, count, prefix, prefixes);
    }
  }

  lemma OneRowAdvances(lines: seq<string>, i: nat, start: nat, prefix: string, prefixes: seq<string>)
    requires start < i < |lines| && lines[start] == lines[i]
    ensures Advances("&" + Decimal(start), lines, i, i + 1, prefix, prefixes)
  {
    DecimalRoundTrip(start);
    ReferenceLeads(lines, i, start, prefix, prefixes, true);
  }

  lemma BlockAdvances(lines: seq<string>, i: nat, start: nat, count: nat, prefix: string, prefixes: seq<string>)
    requires count > 0 && start + count <= i && i + count <= |lines|
    requires lines[start..start + count] == lines[i..i + count]
    ensures Advances("&" + Decimal(start) + ":" + Decimal(count), lines, i, i + count, prefix, prefixes)
  {
    DecimalRoundTrip(start);
    DecimalRoundTrip(count);
    BlockLeads(lines, i, start, count, prefix, prefixes);
  }

  /** The record of the block worth a reference at row `i`, and the row after it. */
  method NextBlock(lines: seq<string>, i: nat, seen: map<string, nat>, ghost prefix: string, ghost prefixes: seq<string>)
    returns (record: string, next: nat)
    requires i < |lines| && Seen(seen, lines, i)
    ensures i <= next <= |lines|
    ensures next > i ==> Advances(record, lines, i, next, prefix, prefixes)
    ensures next > i ==> ChosenAt(record, At(lines, i, prefix, prefixes), true, lines)
    ensures next == i ==> NoBlockPays(lines, i)
  {
    record, next := "", i;
    var count := BlockAt(lines, i, seen);
    if count > 0 {
      record, next := BlockRecord(seen[lines[i]], count), i + count;
      ThisBlockLeads(record, next, lines, i, seen[lines[i]], count, prefix, prefixes);
      BlockChosen(lines, i, seen[lines[i]], count, prefix, prefixes);
    }
  }

  lemma BlockChosen(lines: seq<string>, i: nat, start: nat, count: nat, prefix: string, prefixes: seq<string>)
    requires i < |lines| && BlockPays(lines, i, start, count)
    ensures ChosenAt(BlockRecord(start, count), At(lines, i, prefix, prefixes), true, lines)
  {
    assert BlockRecord(start, count)[0] == '&';
  }

  lemma ThisBlockLeads(record: string, next: nat, lines: seq<string>, i: nat, start: nat, count: nat, prefix: string,
                       prefixes: seq<string>)
    requires count > 0 && start + count <= i && i + count <= |lines| && Same(lines, start, i, count)
    requires record == BlockRecord(start, count) && next == i + count
    ensures Advances(record, lines, i, next, prefix, prefixes)
  {
    BlockRecordLeads(lines, i, start, count, prefix, prefixes);
  }

  method TryBlock(out: string, lines: seq<string>, i: nat, seen: map<string, nat>, ghost prefix: string,
                  ghost records: seq<string>, ghost prefixes: seq<string>)
    returns (written: string, next: nat, ghost after: seq<string>)
    requires i < |lines| && Seen(seen, lines, i)
    requires Encodes(out, records, true, lines, At(lines, i, prefix, prefixes)) && AllChosen(records, true, lines)
    ensures i <= next <= |lines| && Encodes(written, after, true, lines, At(lines, next, prefix, prefixes))
    ensures AllChosen(after, true, lines) && (next == i ==> NoBlockPays(lines, i))
  {
    var record;
    record, next := NextBlock(lines, i, seen, prefix, prefixes);
    if next == i {
      return out, i, records;
    }
    ChosenNext(out, records, true, lines, At(lines, i, prefix, prefixes), record);
    Writes(out, records, true, lines, At(lines, i, prefix, prefixes), record, At(lines, next, prefix, prefixes));
    written := out + (record + "\n");
    after := records + [record];
  }

  method MarkSeen(known: map<string, nat>, lines: seq<string>, i: nat, next: nat) returns (seen: map<string, nat>)
    requires Seen(known, lines, i) && i <= next <= |lines|
    ensures Seen(seen, lines, next)
  {
    seen := known;
    for k := i to next
      invariant Seen(seen, lines, k)
    {
      OneMoreSeen(seen, lines, k);
      seen := OrInsert(seen, lines[k], k);
    }
  }

  /** The prefix for row `i` and the end of the rows it was chosen for. */
  method BestPrefix(lines: seq<string>, i: nat) returns (best: string, bestEnd: nat)
    requires i < |lines|
    ensures i < bestEnd <= |lines| && best <= lines[i]
    ensures IsBest(lines, i, bestEnd, best)
  {
    var search := Search(lines[i], "", i + 1, 0);
    var limit := if i + 64 < |lines| then i + 64 else |lines|;
    SearchStarts(lines, i);
    var end := i + 1;
    while end < limit
      invariant i < end <= limit && Searched(lines, i, end, search)
    {
      search := SearchRow(lines, i, end, search);
      if |search.common| < 4 {
        return search.best, search.end;
      }
      end := end + 1;
    }
    SearchEnds(lines, i, end, search);
    return search.best, search.end;
  }

  /** One turn of the search; less than four common bytes end it. */
  method SearchRow(lines: seq<string>, i: nat, end: nat, search: Search) returns (next: Search)
    requires i < end < |lines| && end < i + 64 && Searched(lines, i, end, search)
    ensures |next.common| >= 4 ==> Searched(lines, i, end + 1, next)
    ensures |next.common| < 4 ==>
              IsBest(lines, i, next.end, next.best) && next.best <= lines[i] && i < next.end <= |lines|
  {
    var common := CommonPrefix(search.common, lines[end]);
    next := search.(common := common);
    if |common| < 4 {
      SearchStops(lines, i, end, search, common);
      return;
    }
    var score := Score(|common|, end - i);
    if score > search.score + 12 {
      next := Search(common, common, end + 1, score);
    }
    SearchStep(lines, i, end, search, common, score, next);
  }

  /** What all rows so far have in common, and the best prefix so far with the
      end of its rows and its score. */
  datatype Search = Search(common: string, best: string, end: nat, score: nat)

  ghost predicate Searched(lines: seq<string>, i: nat, end: nat, search: Search) {
    match search
    case Search(common, best, bestEnd, score) =>
      IsLongest(lines, i, end, common) && BestSoFar(lines, i, end, best, bestEnd, score)
  }

  /** The longest prefix of row `i`, between characters, of all rows before `end`. */
  ghost predicate IsLongest(lines: seq<string>, i: nat, end: nat, common: string) {
    i < end <= |lines| && AllHave(lines, i, end, common) && IsCharBoundary(lines[i], |common|)
    && forall k :: |common| < k <= |lines[i]| && IsCharBoundary(lines[i], k) ==> !AllHave(lines, i, end, lines[i][..k])
  }

  /** The best prefix if only rows before `end` are looked at. */
  ghost predicate BestSoFar(lines: seq<string>, i: nat, end: nat, best: string, bestEnd: nat, score: nat) {
    i < bestEnd <= end <= |lines| && score == Score(|best|, bestEnd - 1 - i)
    && ((best == "" && bestEnd == i + 1)
        || (best <= lines[i] && IsCandidate(lines, i, |best|, bestEnd - 1) && score > 12
            && NoLongerCandidate(lines, i, |best|, bestEnd - 1)))
    && forall length: nat, last: nat :: last < end && IsCandidate(lines, i, length, last) ==>
         Score(length, last - i) <= score + 12
  }

  lemma SearchStarts(lines: seq<string>, i: nat)
    requires i < |lines|
    ensures Searched(lines, i, i + 1, Search(lines[i], "", i + 1, 0))
  {
  }

  lemma SearchEnds(lines: seq<string>, i: nat, end: nat, search: Search)
    requires i < |lines| && end == (if i + 64 < |lines| then i + 64 else |lines|)
    requires Searched(lines, i, end, search)
    ensures IsBest(lines, i, search.end, search.best) && search.best <= lines[i] && i < search.end <= |lines|
  {
  }

  /** No further row, once the rows have less than four bytes in common. */
  lemma SearchStops(lines: seq<string>, i: nat, end: nat, search: Search, common: string)
    requires i < end < |lines| && end < i + 64 && Searched(lines, i, end, search)
    requires IsCommon(common, search.common, lines[end]) && |common| < 4
    ensures IsBest(lines, i, search.end, search.best) && search.best <= lines[i] && i < search.end <= |lines|
  {
    LongestNext(lines, i, end, search.common, common);
    NoneLonger(lines, i, end, common, search.best, search.end, search.score);
  }

  /** One more row, whose common prefix with the earlier ones is `common`. */
  lemma SearchStep(lines: seq<string>, i: nat, end: nat, search: Search, common: string, score: nat, next: Search)
    requires i < end < |lines| && end < i + 64 && Searched(lines, i, end, search)
    requires IsCommon(common, search.common, lines[end]) && |common| >= 4 && score == Score(|common|, end - i)
    requires next == if score > search.score + 12 then Search(common, common, end + 1, score)
                     else search.(common := common)
    ensures Searched(lines, i, end + 1, next)
  {
    LongestNext(lines, i, end, search.common, common);
    BetterOrNot(lines, i, end, common, search.best, search.end, search.score, score);
  }

  lemma LongestNext(lines: seq<string>, i: nat, end: nat, before: string, common: string)
    requires i < end < |lines| && IsLongest(lines, i, end, before) && IsCommon(common, before, lines[end])
    ensures IsLongest(lines, i, end + 1, common)
  {
    assert before == lines[i][..|before|] && common == lines[i][..|common|];
    assert |common| < |before| ==> lines[i][|common|] == before[|common|];
    forall k | |common| < k <= |lines[i]| && IsCharBoundary(lines[i], k)
      ensures !AllHave(lines, i, end + 1, lines[i][..k])
    {
      if k <= |before| {
        assert before[..k] == lines[i][..k] && IsCharBoundary(before, k);
        assert !(lines[i][..k] <= lines[end]);
      } else {
        assert !AllHave(lines, i, end, lines[i][..k]);
      }
    }
  }

  lemma LongestBounds(lines: seq<string>, i: nat, end: nat, common: string, length: nat, last: nat)
    requires IsLongest(lines, i, end, common) && end - 1 <= last && IsCandidate(lines, i, length, last)
    ensures length <= |common|
  {
    assert length > |common| ==> AllHave(lines, i, end, lines[i][..length]);
  }

  lemma NoneLonger(lines: seq<string>, i: nat, end: nat, common: string, best: string, bestEnd: nat, score: nat)
    requires IsLongest(lines, i, end + 1, common) && |common| < 4
    requires BestSoFar(lines, i, end, best, bestEnd, score)
    ensures IsBest(lines, i, bestEnd, best)
  {
    forall length: nat, last: nat | last >= end
      ensures !IsCandidate(lines, i, length, last)
    {
      NoCandidate(lines, i, end + 1, common, length, last);
    }
  }

  lemma NoCandidate(lines: seq<string>, i: nat, end: nat, common: string, length: nat, last: nat)
    requires IsLongest(lines, i, end, common) && end - 1 <= last && |common| < 4
    ensures !IsCandidate(lines, i, length, last)
  {
    if 4 <= length <= |lines[i]| && last < |lines| {
      assert AllHave(lines, i, last + 1, lines[i][..length]) ==> AllHave(lines, i, end, lines[i][..length]);
    }
  }

  lemma BetterOrNot(lines: seq<string>, i: nat, end: nat, common: string, best: string, bestEnd: nat, bestScore: nat,
                    score: nat)
    requires IsLongest(lines, i, end + 1, common) && |common| >= 4 && i < end < i + 64
    requires BestSoFar(lines, i, end, best, bestEnd, bestScore) && score == Score(|common|, end - i)
    ensures if score > bestScore + 12 then BestSoFar(lines, i, end + 1, common, end + 1, score)
            else BestSoFar(lines, i, end + 1, best, bestEnd, bestScore)
  {
    assert common == lines[i][..|common|];
    forall length: nat, last: nat | last < end + 1 && IsCandidate(lines, i, length, last)
      ensures Score(length, last - i) <= bestScore + 12 || (last == end && length <= |common|)
    {
      if last == end {
        LongestBounds(lines, i, end + 1, common, length, last);
      }
    }
    forall length: nat | IsCandidate(lines, i, length, end)
      ensures length <= |common| && Score(length, end - i) <= score
    {
      LongestBounds(lines, i, end + 1, common, length, end);
      ScoreGrows(length, |common|, end - i);
    }
    assert IsCandidate(lines, i, |common|, end);
  }

  lemma ScoreGrows(a: nat, b: nat, n: nat)
    requires a <= b
    ensures Score(a, n) <= Score(b, n)
  {
    assert Score(b, n) == Score(a, n) + (b - a) * n;
  }

  /** The longest proper prefix of `best` that is already numbered. */
  method Ancestor(best: string, known: map<string, nat>) returns (end: Option<nat>)
    ensures end.Some? ==> end.value < |best| && IsCharBoundary(best, end.value) && best[..end.value] in known
    ensures forall k :: (if end.Some? then end.value + 1 else 0) <= k < |best| && IsCharBoundary(best, k)
                        ==> best[..k] !in known
  {
    var k: nat := |best|;
    while k > 0
      invariant k <= |best|
      invariant forall j :: k <= j < |best| && IsCharBoundary(best, j) ==> best[..j] !in known
    {
      k := k - 1;
      if IsCharBoundary(best, k) && best[..k] in known {
        return Some(k);
      }
    }
    end := None;
  }

  /** The record takes the decoder to the prefix `best` where it stands. */
  predicate Installs(record: string, lines: seq<string>, i: nat, before: string, best: string, prefixes: seq<string>,
                     numbered: seq<string>)
    requires i <= |lines|
  {
    match Step(record, At(lines, i, before, prefixes), true)
    case Ok(reached) => NoLf(record) && !IsEnd(record) && reached == At(lines, i, best, numbered)
    case Err => NoLf(record) && !IsEnd(record) && !Fits(lines)
  }

  /** The record that makes `best` the running prefix, and the numbers after it. */
  method NewPrefix(best: string, known: map<string, nat>, ghost lines: seq<string>, ghost i: nat, ghost before: string,
                   ghost prefixes: seq<string>)
    returns (record: string, ids: map<string, nat>, ghost numbered: seq<string>)
    requires i < |lines| && best <= lines[i] && |prefixes| <= i && Numbered(known, prefixes)
    ensures |numbered| <= |prefixes| + 1 && Numbered(ids, numbered)
    ensures Installs(record, lines, i, before, best, prefixes, numbered) && Recalls(record, best, prefixes)
  {
    ids := known;
    if best in known {
      record, numbered := "@" + Decimal(known[best]), prefixes;
      KnownRecalls(lines, i, before, best, known[best], prefixes);
      return;
    }
    var parent := Ancestor(best, known);
    AncestorIs(best, known, prefixes, parent);
    numbered, ids := prefixes + [best], known[best := |known|];
    if parent.Some? && parent.value >= 8 {
      var id := known[best[..parent.value]];
      record := "@" + Decimal(id) + ":" + JsonString.Encode(best[parent.value..]);
      ExtensionRecalls(lines, i, before, best, parent.value, id, prefixes);
    } else {
      record := "@" + JsonString.Encode(best);
      WholeRecalls(lines, i, before, best, prefixes);
    }
  }

  lemma KnownRecalls(lines: seq<string>, i: nat, before: string, best: string, id: nat, prefixes: seq<string>)
    requires i < |lines| && best <= lines[i] && |prefixes| <= i && id < |prefixes| && prefixes[id] == best
    ensures var record := "@" + Decimal(id);
            Installs(record, lines, i, before, best, prefixes, prefixes) && Recalls(record, best, prefixes)
  {
    DecimalRoundTrip(id);
    RecallLeads(lines, i, before, id, prefixes);
  }

  lemma ExtensionRecalls(lines: seq<string>, i: nat, before: string, best: string, k: nat, id: nat, prefixes: seq<string>)
    requires i < |lines| && best <= lines[i] && |prefixes| <= i && best !in prefixes
    requires k >= 8 && IsAncestor(best, k, prefixes) && id < |prefixes| && prefixes[id] == best[..k]
    ensures var record := "@" + Decimal(id) + ":" + JsonString.Encode(best[k..]);
            Installs(record, lines, i, before, best, prefixes, prefixes + [best]) && Recalls(record, best, prefixes)
  {
    DecimalRoundTrip(id);
    JsonString.EncodeNoLf(best[k..]);
    assert prefixes[id] + best[k..] == best;
    ExtendLeads(lines, i, before, id, best[k..], prefixes);
  }

  lemma WholeRecalls(lines: seq<string>, i: nat, before: string, best: string, prefixes: seq<string>)
    requires i < |lines| && best <= lines[i] && best !in prefixes
    requires forall k: nat :: IsAncestor(best, k, prefixes) ==> k < 8
    ensures var record := "@" + JsonString.Encode(best);
            Installs(record, lines, i, before, best, prefixes, prefixes + [best]) && Recalls(record, best, prefixes)
  {
    JsonString.EncodeNoLf(best);
    DefineLeads(lines, i, before, best, prefixes, true);
  }

  method WriteNewPrefix(out: string, ghost before: string, best: string, known: map<string, nat>, ghost lines: seq<string>,
                        ghost i: nat, ghost records: seq<string>, ghost prefixes: seq<string>)
    returns (written: string, ids: map<string, nat>, ghost after: seq<string>, ghost numbered: seq<string>)
    requires i < |lines| && best <= lines[i] && |prefixes| <= i && Numbered(known, prefixes)
    requires best != before && NoBlockPays(lines, i) && exists end: nat :: IsBest(lines, i, end, best)
    requires Encodes(out, records, true, lines, At(lines, i, before, prefixes)) && AllChosen(records, true, lines)
    ensures |numbered| <= |prefixes| + 1 && Numbered(ids, numbered)
    ensures Encodes(written, after, true, lines, At(lines, i, best, numbered))
    ensures AllChosen(after, true, lines)
  {
    var record;
    record, ids, numbered := NewPrefix(best, known, lines, i, before, prefixes);
    RecallChosen(record, lines, i, before, best, prefixes);
    ChosenNext(out, records, true, lines, At(lines, i, before, prefixes), record);
    Writes(out, records, true, lines, At(lines, i, before, prefixes), record, At(lines, i, best, numbered));
    written := out + (record + "\n");
    after := records + [record];
  }

  lemma AncestorIs(best: string, known: map<string, nat>, prefixes: seq<string>, end: Option<nat>)
    requires Numbered(known, prefixes)
    requires end.Some? ==> end.value < |best| && IsCharBoundary(best, end.value) && best[..end.value] in known
    requires forall k :: (if end.Some? then end.value + 1 else 0) <= k < |best| && IsCharBoundary(best, k)
                         ==> best[..k] !in known
    ensures end.Some? ==> IsAncestor(best, end.value, prefixes)
    ensures forall k: nat :: IsAncestor(best, k, prefixes) ==> end == Some(k)
  {
    assert forall p :: p in known <==> p in prefixes;
  }

  lemma RecallChosen(record: string, lines: seq<string>, i: nat, before: string, best: string, prefixes: seq<string>)
    requires i < |lines| && best != before && NoBlockPays(lines, i) && exists end: nat :: IsBest(lines, i, end, best)
    requires Recalls(record, best, prefixes)
    ensures ChosenAt(record, At(lines, i, before, prefixes), true, lines)
  {
    assert record[0] == '@';
  }

  method StartGroup(out: string, before: string, known: map<string, nat>, lines: seq<string>, i: nat,
                    ghost records: seq<string>, ghost prefixes: seq<string>)
    returns (written: string, prefix: string, groupEnd: nat, ids: map<string, nat>,
             ghost after: seq<string>, ghost numbered: seq<string>)
    requires i < |lines| && |prefixes| <= i && Numbered(known, prefixes) && NoBlockPays(lines, i)
    requires Encodes(out, records, true, lines, At(lines, i, before, prefixes)) && AllChosen(records, true, lines)
    ensures prefix <= lines[i] && |numbered| <= |prefixes| + 1 && Numbered(ids, numbered)
    ensures Encodes(written, after, true, lines, At(lines, i, prefix, numbered)) && AllChosen(after, true, lines)
    ensures IsBest(lines, i, groupEnd, prefix)
  {
    written, ids, after, numbered := out, known, records, prefixes;
    prefix, groupEnd := BestPrefix(lines, i);
    if prefix != before {
      written, ids, after, numbered := WriteNewPrefix(out, before, prefix, known, lines, i, records, prefixes);
    }
  }

  /** The group of the prefix in force ends before row `end`. */
  ghost predicate Grouped(lines: seq<string>, i: nat, prefix: string, end: nat) {
    i < end ==> exists start: nat :: start <= i && IsBest(lines, start, end, prefix)
  }

  lemma BestRow(lines: seq<string>, i: nat, prefix: string, end: nat, prefixes: seq<string>)
    requires i < |lines| && i < end && Grouped(lines, i, prefix, end) && prefix <= lines[i] && NoBlockPays(lines, i)
    ensures ChosenAt(LiteralRecord(lines[i][|prefix|..]), At(lines, i, prefix, prefixes), true, lines)
    ensures Grouped(lines, i + 1, prefix, end)
  {
    LiteralIsPlain(lines[i][|prefix|..]);
    var start: nat :| start <= i && IsBest(lines, start, end, prefix);
    assert InBest(lines, i, prefix);
  }

  /** A row that no block covers, after a new prefix if its group has ended. */
  method WriteRow(out: string, before: string, groupEnd: nat, ids: map<string, nat>, lines: seq<string>, i: nat,
                  ghost records: seq<string>, ghost prefixes: seq<string>)
    returns (written: string, prefix: string, end: nat, known: map<string, nat>,
             ghost after: seq<string>, ghost numbered: seq<string>)
    requires i < |lines| && AllNoLf(lines) && |prefixes| <= i && Numbered(ids, prefixes)
    requires NoBlockPays(lines, i) && Grouped(lines, i, before, groupEnd)
    requires Encodes(out, records, true, lines, At(lines, i, before, prefixes)) && AllChosen(records, true, lines)
    ensures |numbered| <= i + 1 && Numbered(known, numbered) && Grouped(lines, i + 1, prefix, end)
    ensures Encodes(written, after, true, lines, At(lines, i + 1, prefix, numbered)) && AllChosen(after, true, lines)
  {
    written, prefix, end, known, after, numbered := out, before, groupEnd, ids, records, prefixes;
    if i >= groupEnd || !(before <= lines[i]) {
      written, prefix, end, known, after, numbered := StartGroup(out, before, ids, lines, i, records, prefixes);
    }
    BestRow(lines, i, prefix, end, numbered);
    written, after := WriteLiteralRow(written, prefix, lines[i], after, true, lines, i, numbered);
  }

  /** The next row or block, and where the encoder stands after it. */
  method WriteNext(out: string, before: string, groupEnd: nat, lines: seq<string>, i: nat, met: map<string, nat>,
                   ids: map<string, nat>, ghost records: seq<string>, ghost prefixes: seq<string>)
    returns (written: string, prefix: string, end: nat, next: nat, seen: map<string, nat>, known: map<string, nat>,
             ghost after: seq<string>, ghost numbered: seq<string>)
    requires i < |lines| && AllNoLf(lines) && Seen(met, lines, i) && Numbered(ids, prefixes) && |prefixes| <= i
    requires Encodes(out, records, true, lines, At(lines, i, before, prefixes)) && AllChosen(records, true, lines)
    requires Grouped(lines, i, before, groupEnd)
    ensures i < next <= |lines| && Seen(seen, lines, next) && Numbered(known, numbered) && |numbered| <= next
    ensures Encodes(written, after, true, lines, At(lines, next, prefix, numbered)) && AllChosen(after, true, lines)
    ensures Grouped(lines, next, prefix, end)
  {
    prefix, end, known, numbered := before, groupEnd, ids, prefixes;
    written, next, after := TryBlock(out, lines, i, met, before, records, prefixes);
    if next == i {
      written, prefix, end, known, after, numbered :=
        WriteRow(written, before, groupEnd, ids, lines, i, after, prefixes);
      next := i + 1;
    }
    seen := MarkSeen(met, lines, i, next);
  }

  /** The rows of `factor_blocks`, from the magic line to the end record. */
  method EncodeBlocks(lines: seq<string>) returns (output: string)
    requires AllNoLf(lines)
    ensures EncodesAll(output, true, lines)
  {
    output := MAGIC3;
    ghost var records: seq<string> := [];
    ghost var prefixes: seq<string> := [];
    var seen: map<string, nat>, known: map<string, nat> := map[], map[];
    var prefix, groupEnd, i := "", 0, 0;
    Starts(true, lines);
    while i < |lines|
      invariant i <= |lines| && Seen(seen, lines, i)
      invariant Numbered(known, prefixes) && |prefixes| <= i
      invariant Grouped(lines, i, prefix, groupEnd)
      invariant Encodes(output, records, true, lines, At(lines, i, prefix, prefixes)) && AllChosen(records, true, lines)
    {
      output, prefix, groupEnd, i, seen, known, records, prefixes :=
        WriteNext(output, prefix, groupEnd, lines, i, seen, known, records, prefixes);
    }
    assert lines[..i] == lines;
    assert EncodesWith(output, records, true, lines, At(lines, i, prefix, prefixes));
  }

  /** `factor_blocks`, under the same contract. */
  method FactorBlocks(raw: string) returns (view: string, ghost stream: string)
    ensures raw == "" || "LMR-LINES/" <= raw ==> view == raw
    ensures raw != "" && !("LMR-LINES/" <= raw) ==>
              MAGIC3 <= stream && WellChosen(stream, true, Rows(raw))
              && Decoded(stream) == (if Fits(Rows(raw)) then Ok(raw) else Err)
              && view == if |stream| < |raw| then stream else raw
  {
    view, stream := raw, "";
    if raw == "" || "LMR-LINES/" <= raw {
      return;
    }
    RowsNoLf(raw);
    var output := EncodeBlocks(Rows(raw));
    ghost var records, st :| EncodesWith(output, records, true, Rows(raw), st);
    Finishes(raw, output, records, true, st, []);
    ghost var all := Rows(output + (EndRecord(raw) + "\n") + Unrows([]))[1..];
    assert all == records + [EndRecord(raw)] && all[..|all| - 1] == records;
    output := output + (EndRecord(raw) + "\n");
    assert output + Unrows([]) == output;
    stream := output;
    if |output| < |raw| {
      view := output;
    }
  }
}

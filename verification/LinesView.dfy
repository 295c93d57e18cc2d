/** The bounded decoder of LMR-LINES/2 and /3 (`expand` in
    `src/lossless_filters.rs`), and what each kind of record means to it.
    Arithmetic that the source checks for overflow is above the limits here,
    so both end in the same failure. */
module LinesView {
  import opened Text
  import JsonString

  const MAGIC2 := "LMR-LINES/2\n"
  const MAGIC3 := "LMR-LINES/3\n"
  const ROW_LIMIT: nat := 1_000_000

  function Magic(version3: bool): string {
    if version3 then MAGIC3 else MAGIC2
  }

  datatype State = State(prefix: string, prefixes: seq<string>, rows: seq<string>, bytes: nat)

  const INITIAL := State("", [], [], 0)

  // ----- one record

  function Define(st: State, prefix: string): Result<State> {
    if |prefix| > LIMIT then Err
    else Ok(st.(prefix := prefix, prefixes := st.prefixes + [prefix]))
  }

  /** A record after its `@`: a literal prefix, a known one, or an extension. */
  function PrefixRecord(json: string, st: State, version3: bool): Result<State> {
    if version3 && !("\"" <= json) then
      match SplitOnce(json, ':')
      case Some((number, tail)) =>
        var id, extension := ParseUsize(number), JsonString.Decode(tail);
        if id.None? || id.value >= |st.prefixes| || extension.None? then Err
        else Define(st, st.prefixes[id.value] + extension.value)
      case None =>
        var id := ParseUsize(json);
        if id.None? || id.value >= |st.prefixes| || |st.prefixes[id.value]| > LIMIT then Err
        else Ok(st.(prefix := st.prefixes[id.value]))
    else
      match JsonString.Decode(json)
      case None => Err
      case Some(prefix) => Define(st, prefix)
  }

  function Block(number: string, size: string, st: State): Result<State> {
    var start, count := ParseUsize(number), ParseUsize(size);
    if start.None? || count.None? || count.value == 0
       || start.value + count.value > |st.rows| || |st.rows| + count.value > ROW_LIMIT then Err
    else
      var block := st.rows[start.value..start.value + count.value];
      if st.bytes + |Unrows(block)| > LIMIT then Err
      else Ok(st.(rows := st.rows + block, bytes := st.bytes + |Unrows(block)|))
  }

  function Times(row: string, n: nat): (rows: seq<string>)
    ensures |rows| == n
  {
    if n == 0 then [] else [row] + Times(row, n - 1)
  }

  function Append(st: State, row: string, n: nat): Result<State> {
    if st.bytes + (|row| + 1) * n > LIMIT || |st.rows| + n > ROW_LIMIT then Err
    else Ok(st.(rows := st.rows + Times(row, n), bytes := st.bytes + (|row| + 1) * n))
  }

  function RowRecord(record: string, st: State): Result<State> {
    if "&" <= record then
      var index := ParseUsize(record[1..]);
      if index.None? || index.value >= |st.rows| then Err else Append(st, st.rows[index.value], 1)
    else if "=" <= record then
      var count := ParseUsize(record[1..]);
      if st.rows == [] || count.None? then Err else Append(st, st.rows[|st.rows| - 1], count.value)
    else
      Append(st, st.prefix + (if "\\" <= record then record[1..] else record), 1)
  }

  function Step(record: string, st: State, version3: bool): Result<State> {
    if "@" <= record then PrefixRecord(record[1..], st, version3)
    else if version3 && "&" <= record && SplitOnce(record[1..], ':').Some? then
      var (number, size) := SplitOnce(record[1..], ':').value;
      Block(number, size, st)
    else RowRecord(record, st)
  }

  // ----- the whole view

  predicate IsEnd(record: string) {
    record == "!0" || record == "!1"
  }

  function EndIndex(records: seq<string>): (k: nat)
    ensures k <= |records|
    ensures forall i :: 0 <= i < k ==> !IsEnd(records[i])
    ensures k < |records| ==> IsEnd(records[k])
  {
    if records == [] || IsEnd(records[0]) then 0 else 1 + EndIndex(records[1..])
  }

  function Replay(records: seq<string>, version3: bool): Result<State> {
    if records == [] then Ok(INITIAL)
    else
      match Replay(records[..|records| - 1], version3)
      case Err => Err
      case Ok(st) => Step(records[|records| - 1], st, version3)
  }

  predicate IsTrailer(rest: seq<string>) {
    rest == [] || (|rest| == 1 && IsRawHint(rest[0]))
  }

  function DecodedRecords(records: seq<string>, version3: bool): Result<string> {
    var end := EndIndex(records);
    match Replay(records[..end], version3)
    case Err => Err
    case Ok(st) =>
      if end == |records| || !IsTrailer(records[end + 1..]) then Err
      else Ok(Join(st.rows) + if records[end] == "!1" then "\n" else "")
  }

  function Decoded(view: string): Result<string>
    requires MAGIC2 <= view || MAGIC3 <= view
  {
    DecodedRecords(Rows(view)[1..], MAGIC3 <= view)
  }

  lemma ReplaySnoc(records: seq<string>, record: string, version3: bool)
    ensures Replay(records + [record], version3)
            == match Replay(records, version3)
               case Err => Err
               case Ok(st) => Step(record, st, version3)
  {
    assert (records + [record])[..|records|] == records;
  }

  lemma ReplayOne(records: seq<string>, i: nat, version3: bool)
    requires i < |records|
    ensures Replay(records[..i + 1], version3)
            == match Replay(records[..i], version3)
               case Err => Err
               case Ok(st) => Step(records[i], st, version3)
  {
    assert records[..i + 1][..i] == records[..i];
  }

  /** A failed prefix of the records fails the view. */
  lemma {:induction false} ReplayFails(records: seq<string>, k: nat, version3: bool)
    requires k <= |records| && Replay(records[..k], version3).Err?
    ensures Replay(records, version3).Err?
  {
    if k < |records| {
      assert records[..|records| - 1][..k] == records[..k];
      ReplayFails(records[..|records| - 1], k, version3);
    } else {
      assert records[..k] == records;
    }
  }

  lemma EndIndexAt(records: seq<string>, k: nat)
    requires k < |records| && IsEnd(records[k])
    requires forall i :: 0 <= i < k ==> !IsEnd(records[i])
    ensures EndIndex(records) == k
  {
  }

  lemma DecodeStops(records: seq<string>, i: nat, version3: bool)
    requires i <= |records| && Replay(records[..i], version3).Err?
    requires forall k :: 0 <= k < i ==> !IsEnd(records[k])
    ensures DecodedRecords(records, version3) == Err
  {
    var end := EndIndex(records);
    assert end >= i;
    assert records[..end][..i] == records[..i];
    ReplayFails(records[..end], i, version3);
  }

  lemma DecodeEnds(records: seq<string>, i: nat, version3: bool)
    requires i <= |records| && (i < |records| ==> IsEnd(records[i]))
    requires forall k :: 0 <= k < i ==> !IsEnd(records[k])
    ensures EndIndex(records) == i
  {
    if i < |records| {
      EndIndexAt(records, i);
    }
  }

  method ExpandRecords(records: seq<string>, version3: bool) returns (result: Result<string>)
    ensures result == DecodedRecords(records, version3)
  {
    var st := INITIAL;
    var i := 0;
    while i < |records| && !IsEnd(records[i])
      invariant i <= |records|
      invariant forall k :: 0 <= k < i ==> !IsEnd(records[k])
      invariant Replay(records[..i], version3) == Ok(st)
    {
      ReplayOne(records, i, version3);
      var next := Step(records[i], st, version3);
      i := i + 1;
      if next.Err? {
        DecodeStops(records, i, version3);
        return Err;
      }
      st := next.value;
    }
    result := FinishRecords(records, i, st, version3);
  }

  method FinishRecords(records: seq<string>, i: nat, st: State, version3: bool) returns (result: Result<string>)
    requires i <= |records| && (i < |records| ==> IsEnd(records[i]))
    requires forall k :: 0 <= k < i ==> !IsEnd(records[k])
    requires Replay(records[..i], version3) == Ok(st)
    ensures result == DecodedRecords(records, version3)
  {
    DecodeEnds(records, i, version3);
    if i == |records| || !IsTrailer(records[i + 1..]) {
      return Err;
    }
    result := Ok(Join(st.rows) + if records[i] == "!1" then "\n" else "");
  }

  // ----- limits

  predicate Fits(rows: seq<string>) {
    |rows| <= ROW_LIMIT && |Unrows(rows)| <= LIMIT
  }

  predicate Sound(st: State) {
    Fits(st.rows) && st.bytes == |Unrows(st.rows)|
  }

  lemma {:induction false} TimesText(row: string, n: nat)
    ensures |Unrows(Times(row, n))| == (|row| + 1) * n
    ensures forall i :: 0 <= i < n ==> Times(row, n)[i] == row
  {
    if n > 0 {
      TimesText(row, n - 1);
    }
  }

  lemma BlockSound(number: string, size: string, st: State)
    requires Sound(st) && Block(number, size, st).Ok?
    ensures Sound(Block(number, size, st).value)
  {
    var start, count := ParseUsize(number).value, ParseUsize(size).value;
    UnrowsAppend(st.rows, st.rows[start..start + count]);
  }

  lemma StepSound(record: string, st: State, version3: bool)
    requires Sound(st)
    ensures Step(record, st, version3).Ok? ==> Sound(Step(record, st, version3).value)
  {
    if "@" <= record {
    } else if version3 && "&" <= record && SplitOnce(record[1..], ':').Some? {
      var (number, size) := SplitOnce(record[1..], ':').value;
      if Block(number, size, st).Ok? {
        BlockSound(number, size, st);
      }
    } else if RowRecord(record, st).Ok? {
      AppendSound(record, st);
    }
  }

  lemma AppendSound(record: string, st: State)
    requires Sound(st) && RowRecord(record, st).Ok?
    ensures Sound(RowRecord(record, st).value)
  {
    var row, n := if "&" <= record then st.rows[ParseUsize(record[1..]).value]
                  else if "=" <= record then st.rows[|st.rows| - 1]
                  else st.prefix + (if "\\" <= record then record[1..] else record),
                  if "&" <= record then 1 else if "=" <= record then ParseUsize(record[1..]).value else 1;
    assert RowRecord(record, st) == Append(st, row, n);
    TimesText(row, n);
    UnrowsAppend(st.rows, Times(row, n));
  }

  /** No view, however malformed, makes the decoder hold more than its limits. */
  lemma {:induction false} DecoderIsBounded(records: seq<string>, version3: bool)
    ensures Replay(records, version3).Ok? ==>
              var st := Replay(records, version3).value;
              Sound(st) && |st.rows| <= 1_000_000 && |Unrows(st.rows)| <= 512 * 1024 * 1024
  {
    if records != [] {
      DecoderIsBounded(records[..|records| - 1], version3);
      var before := Replay(records[..|records| - 1], version3);
      if before.Ok? {
        StepSound(records[|records| - 1], before.value, version3);
      }
    }
  }
}

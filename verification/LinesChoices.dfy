/** What the LMR-LINES encoders share (`factor_lines`, `factor_blocks` in
    `src/lossless_filters.rs`), stated on the rows alone: which record may stand
    in a stream at a row, given what the decoder holds there. */
module LinesChoices {
  import opened Text
  import opened LinesView
  import JsonString

  /** `str::is_char_boundary` on UTF-8 bytes. */
  predicate IsCharBoundary(s: string, k: nat) {
    k == 0 || k == |s| || (k < |s| && !(0x80 <= s[k] as nat < 0xC0))
  }

  predicate NeedsEscape(row: string) {
    row != "" && row[0] in {'@', '&', '=', '!', '\\'}
  }

  function LiteralRecord(row: string): string {
    if NeedsEscape(row) then "\\" + row else row
  }

  /** Row `k` is the first of those before `i` that reads `row`. */
  predicate IsFirst(lines: seq<string>, k: nat, row: string, i: nat)
    requires i <= |lines|
  {
    k < i && lines[k] == row && row !in lines[..k]
  }

  // ----- LMR-LINES/2

  /** A row that neither refers back nor starts a run: a group starts here. */
  predicate Opens(lines: seq<string>, i: nat)
    requires i < |lines|
  {
    !(|lines[i]| >= 40 && lines[i] in lines[..i]) && (i + 1 < |lines| ==> lines[i + 1] != lines[i])
  }

  /** The longest common prefix of `a` and `b` that ends between characters. */
  ghost predicate IsCommon(prefix: string, a: string, b: string) {
    prefix <= a && prefix <= b && IsCharBoundary(a, |prefix|)
    && forall k :: |prefix| < k <= |a| && IsCharBoundary(a, k) ==> !(a[..k] <= b)
  }

  ghost predicate AllHave(lines: seq<string>, i: nat, end: nat, prefix: string)
    requires end <= |lines|
  {
    forall k :: i <= k < end ==> prefix <= lines[k]
  }

  /** Rows `i..end` are all the rows from `i` on with the prefix that rows `i`
      and `i + 1` have in common, and leaving it out pays for its record. */
  ghost predicate PrefixPays(lines: seq<string>, i: nat, end: nat, prefix: string) {
    i + 1 < end <= |lines| && IsCommon(prefix, lines[i], lines[i + 1]) && AllHave(lines, i, end, prefix)
    && (end < |lines| ==> !(prefix <= lines[end]))
    && |prefix| >= 8 && |prefix| * (end - i - 1) > |prefix| + 12
  }

  ghost predicate IsGroup(lines: seq<string>, i: nat, end: nat, prefix: string)
    requires i < |lines|
  {
    Opens(lines, i)
    && (PrefixPays(lines, i, end, prefix)
        || (prefix == "" && end == i + 1
            && forall shared: string, last: nat :: !PrefixPays(lines, i, last, shared)))
  }

  /** Rows `i..i + n` repeat the row before them, and no further row does. */
  ghost predicate IsRepetition(lines: seq<string>, i: nat, n: nat) {
    0 < n && 0 < i && i + n <= |lines| && (forall k :: i <= k < i + n ==> lines[k] == lines[i - 1])
    && (i + n < |lines| ==> lines[i + n] != lines[i - 1])
  }

  ghost predicate StartsRun(lines: seq<string>, i: nat)
    requires i < |lines|
  {
    !(|lines[i]| >= 40 && lines[i] in lines[..i]) && i + 1 < |lines| && lines[i + 1] == lines[i]
  }

  /** A record of LMR-LINES/2 where the decoder stands before row `i`: a long
      known row refers to its first copy, a repetition covers the whole run, a
      prefix belongs to a group that it pays for, and any other row is written
      out under the prefix of its group. */
  ghost predicate Counted(record: string, lines: seq<string>, i: nat, prefix: string) {
    i < |lines|
    && if "&" <= record then
         |lines[i]| >= 40 && exists k: nat :: IsFirst(lines, k, lines[i], i) && record == "&" + Decimal(k)
       else if "=" <= record then
         exists n: nat :: IsRepetition(lines, i, n) && record == "=" + Decimal(n)
       else if "@" <= record then
         exists next: string :: next != prefix && record == "@" + JsonString.Encode(next)
                                && ((next == "" && StartsRun(lines, i)) || exists end: nat :: IsGroup(lines, i, end, next))
       else
         prefix <= lines[i] && record == LiteralRecord(lines[i][|prefix|..])
         && ((prefix == "" && StartsRun(lines, i)) || InGroup(lines, i, prefix))
  }

  ghost predicate InGroup(lines: seq<string>, i: nat, prefix: string) {
    exists start: nat, end: nat :: start <= i < end && start < |lines| && IsGroup(lines, start, end, prefix)
  }

  // ----- LMR-LINES/3

  /** `count` rows from `start` on equal those from `i` on. */
  predicate Same(lines: seq<string>, start: nat, i: nat, count: nat)
    requires start + count <= |lines| && i + count <= |lines|
  {
    count == 0 || (Same(lines, start, i, count - 1) && lines[start + count - 1] == lines[i + count - 1])
  }

  function BlockRecord(start: nat, count: nat): string {
    if count == 1 then "&" + Decimal(start) else "&" + Decimal(start) + ":" + Decimal(count)
  }

  /** The rows from `i` on that repeat those from the first copy of row `i` on,
      as far as they reach without touching row `i` itself. */
  predicate IsBlock(lines: seq<string>, i: nat, start: nat, count: nat) {
    i < |lines| && IsFirst(lines, start, lines[i], i)
    && 1 <= count && start + count <= i && i + count <= |lines| && Same(lines, start, i, count)
    && (start + count < i && i + count < |lines| ==> lines[start + count] != lines[i + count])
  }

  /** A block that is long enough, and whose record is shorter than its rows. */
  predicate BlockPays(lines: seq<string>, i: nat, start: nat, count: nat) {
    IsBlock(lines, i, start, count) && (count >= 2 || |lines[i]| >= 24)
    && |BlockRecord(start, count)| + 1 < |Unrows(lines[i..i + count])|
  }

  ghost predicate NoBlockPays(lines: seq<string>, i: nat) {
    forall start: nat, count: nat :: !BlockPays(lines, i, start, count)
  }

  lemma {:induction false} SameAt(lines: seq<string>, start: nat, i: nat, count: nat, k: nat)
    requires start + count <= |lines| && i + count <= |lines| && k < count && Same(lines, start, i, count)
    ensures lines[start + k] == lines[i + k]
  {
    if k < count - 1 {
      SameAt(lines, start, i, count - 1, k);
    }
  }

  lemma NotEarlier(lines: seq<string>, k: nat, row: string, i: nat, j: nat)
    requires i <= |lines| && IsFirst(lines, k, row, i)
    ensures j < k ==> lines[j] != row
  {
    if j < k {
      assert lines[..k][j] == lines[j];
    }
  }

  /** A row has at most one block. */
  lemma BlockIsUnique(lines: seq<string>, i: nat, start: nat, count: nat, other: nat, size: nat)
    requires IsBlock(lines, i, start, count) && IsBlock(lines, i, other, size)
    ensures start == other && count == size
  {
    NotEarlier(lines, start, lines[i], i, other);
    NotEarlier(lines, other, lines[i], i, start);
    if count < size {
      SameAt(lines, start, i, size, count);
    } else if size < count {
      SameAt(lines, start, i, count, size);
    }
  }

  function Score(length: nat, rows: nat): nat {
    length * rows
  }

  /** A prefix of row `i` that the rows up to `last` share. */
  ghost predicate IsCandidate(lines: seq<string>, i: nat, length: nat, last: nat) {
    i < last < |lines| && last < i + 64 && 4 <= length <= |lines[i]| && IsCharBoundary(lines[i], length)
    && AllHave(lines, i, last + 1, lines[i][..length])
  }

  ghost predicate NoLongerCandidate(lines: seq<string>, i: nat, length: nat, last: nat) {
    forall other: nat :: IsCandidate(lines, i, other, last) ==> other <= length
  }

  /** The prefix chosen at row `i` for the rows before `end`: no candidate saves
      over 12 bytes more, and none is longer over the same rows. */
  ghost predicate IsBest(lines: seq<string>, i: nat, end: nat, best: string) {
    i < end <= |lines|
    && ((best == "" && end == i + 1)
        || (best <= lines[i] && IsCandidate(lines, i, |best|, end - 1) && Score(|best|, end - 1 - i) > 12
            && NoLongerCandidate(lines, i, |best|, end - 1)))
    && forall length: nat, last: nat :: IsCandidate(lines, i, length, last) ==>
         Score(length, last - i) <= Score(|best|, end - 1 - i) + 12
  }

  ghost predicate InBest(lines: seq<string>, i: nat, prefix: string) {
    exists start: nat, end: nat :: start <= i < end && IsBest(lines, start, end, prefix)
  }

  /** The longest numbered proper prefix of `best` that ends between characters. */
  ghost predicate IsAncestor(best: string, k: nat, prefixes: seq<string>) {
    k < |best| && IsCharBoundary(best, k) && best[..k] in prefixes
    && forall j :: k < j < |best| && IsCharBoundary(best, j) ==> best[..j] !in prefixes
  }

  /** The record that brings the prefix into force: its number, an extension of
      its ancestor, or the prefix itself. */
  ghost predicate Recalls(record: string, best: string, prefixes: seq<string>) {
    if best in prefixes then
      exists id: nat :: id < |prefixes| && prefixes[id] == best && record == "@" + Decimal(id)
    else if exists k: nat :: k >= 8 && IsAncestor(best, k, prefixes) then
      exists k: nat, id: nat :: k >= 8 && IsAncestor(best, k, prefixes) && id < |prefixes| && prefixes[id] == best[..k]
                                && record == "@" + Decimal(id) + ":" + JsonString.Encode(best[k..])
    else record == "@" + JsonString.Encode(best)
  }

  /** A record of LMR-LINES/3 where the decoder stands before row `i`: a block
      that pays is always shared, and any other row is written out under a best
      prefix whose group has not ended. */
  ghost predicate Shared(record: string, lines: seq<string>, i: nat, prefix: string, prefixes: seq<string>) {
    i < |lines|
    && if "&" <= record then
         exists start: nat, count: nat :: BlockPays(lines, i, start, count) && record == BlockRecord(start, count)
       else
         NoBlockPays(lines, i)
         && if "@" <= record then
              exists best: string, end: nat :: best != prefix && IsBest(lines, i, end, best) && Recalls(record, best, prefixes)
            else
              prefix <= lines[i] && record == LiteralRecord(lines[i][|prefix|..]) && InBest(lines, i, prefix)
  }

  // ----- whole streams

  ghost predicate ChosenAt(record: string, st: State, version3: bool, lines: seq<string>) {
    match version3
    case true => Shared(record, lines, |st.rows|, st.prefix, st.prefixes)
    case false => Counted(record, lines, |st.rows|, st.prefix)
  }

  ghost predicate Chosen(record: string, r: Result<State>, version3: bool, lines: seq<string>) {
    match r
    case Ok(st) => ChosenAt(record, st, version3, lines)
    case Err => true
  }

  /** Every record is one the encoder may choose where the decoder stands. */
  ghost predicate AllChosen(records: seq<string>, version3: bool, lines: seq<string>) {
    records == []
    || (AllChosen(records[..|records| - 1], version3, lines)
        && Chosen(records[|records| - 1], Replay(records[..|records| - 1], version3), version3, lines))
  }

  lemma {:induction false} ChosenIn(records: seq<string>, version3: bool, lines: seq<string>, k: nat)
    requires AllChosen(records, version3, lines) && k < |records|
    ensures Chosen(records[k], Replay(records[..k], version3), version3, lines)
  {
    if k < |records| - 1 {
      ChosenIn(records[..|records| - 1], version3, lines, k);
      assert records[..|records| - 1][..k] == records[..k];
    }
  }

  lemma OneMoreChosen(records: seq<string>, version3: bool, lines: seq<string>, record: string)
    requires AllChosen(records, version3, lines) && Chosen(record, Replay(records, version3), version3, lines)
    ensures AllChosen(records + [record], version3, lines)
  {
    assert (records + [record])[..|records|] == records;
  }

  /** The records of a stream, without its magic line and its end record, are
      all chosen. */
  ghost predicate WellChosen(stream: string, version3: bool, lines: seq<string>) {
    Rows(stream) != []
    && var records := Rows(stream)[1..];
       records != [] && AllChosen(records[..|records| - 1], version3, lines)
  }

  lemma {:induction false} FirstExists(lines: seq<string>, row: string, i: nat) returns (k: nat)
    requires i <= |lines| && row in lines[..i]
    ensures IsFirst(lines, k, row, i)
  {
    k :| 0 <= k < i && lines[k] == row;
    if row in lines[..k] {
      k := FirstExists(lines, row, k);
    }
  }

  lemma {:induction false} BlockGrows(lines: seq<string>, i: nat, start: nat, count: nat) returns (size: nat)
    requires i < |lines| && IsFirst(lines, start, lines[i], i)
    requires 1 <= count && start + count <= i && i + count <= |lines| && Same(lines, start, i, count)
    ensures IsBlock(lines, i, start, size)
    decreases |lines| - count
  {
    size := count;
    if start + count < i && i + count < |lines| && lines[start + count] == lines[i + count] {
      size := BlockGrows(lines, i, start, count + 1);
    }
  }

  lemma {:induction false} DecimalWidth(n: nat, digits: nat, bound: nat)
    requires n < bound && bound == Power10(digits) && digits >= 1
    ensures |Decimal(n)| <= digits
  {
    if n >= 10 {
      DecimalWidth(n / 10, digits - 1, bound / 10);
    }
  }

  function Power10(n: nat): nat {
    if n == 0 then 1 else 10 * Power10(n - 1)
  }

  lemma {:induction false} UnrowsAtLeast(rows: seq<string>)
    requires rows != []
    ensures |Unrows(rows)| >= |rows[0]| + |rows|
  {
    if |rows| > 1 {
      UnrowsAtLeast(rows[1..]);
    }
  }

  /** A row of 24 bytes or more is written out once: where the decoder meets it
      again, the stream has a block reference. */
  lemma LongRowsAreWrittenOnce(stream: string, lines: seq<string>, k: nat, st: State)
    requires WellChosen(stream, true, lines)
    requires k < |Rows(stream)[1..]| - 1 && Replay(Rows(stream)[1..][..k], true) == Ok(st)
    requires |st.rows| < |lines| && |lines[|st.rows|]| >= 24 && lines[|st.rows|] in lines[..|st.rows|]
    ensures "&" <= Rows(stream)[1..][k]
  {
    var all := Rows(stream)[1..];
    var records := all[..|all| - 1];
    assert records[..k] == all[..k] && records[k] == all[k];
    LongRowIsShared(records, lines, k, st);
  }

  lemma LongRowIsShared(records: seq<string>, lines: seq<string>, k: nat, st: State)
    requires AllChosen(records, true, lines) && k < |records| && Replay(records[..k], true) == Ok(st)
    requires |st.rows| < |lines| && |lines[|st.rows|]| >= 24 && lines[|st.rows|] in lines[..|st.rows|]
    ensures "&" <= records[k]
  {
    ChosenIn(records, true, lines, k);
    DecoderIsBounded(records[..k], true);
    LongBlockPays(lines, |st.rows|);
    assert Shared(records[k], lines, |st.rows|, st.prefix, st.prefixes);
  }

  lemma LongBlockPays(lines: seq<string>, i: nat)
    requires i < |lines| && i <= ROW_LIMIT && |lines[i]| >= 24 && lines[i] in lines[..i]
    ensures !NoBlockPays(lines, i)
  {
    var start := FirstExists(lines, lines[i], i);
    assert Same(lines, start, i, 0);
    var count := BlockGrows(lines, i, start, 1);
    assert Power10(8) == 100_000_000;
    DecimalWidth(start, 8, 100_000_000);
    DecimalWidth(count, 8, 100_000_000);
    UnrowsAtLeast(lines[i..i + count]);
    assert BlockPays(lines, i, start, count);
  }
}

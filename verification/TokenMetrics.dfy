/** The token-count cache of `src/token_metrics.rs` (`count_cached`): at most
    three texts, reuse of a counted text under a short recovery trailer, and two
    separate critical sections, so that other calls may run between them. */
module TokenMetrics {
  import opened Text

  /** The tokenizer. */
  type Counter = string -> nat

  /** What the cache relies on: an empty text has no tokens, and a token never
      spans an LF followed by an opening bracket. */
  ghost predicate SplitsAtBracket(count: Counter) {
    count("") == 0
    && forall a: string, b: string :: EndsWithLf(a) && b != "" && b[0] == '[' ==> count(a + b) == count(a) + count(b)
  }

  const MAX_ENTRIES: nat := 3
  const MAX_BYTES: nat := 16 * 1024 * 1024

  datatype Entry = Entry(text: string, count: nat)

  function Bytes(entries: seq<Entry>): nat {
    if entries == [] then 0 else |entries[0].text| + Bytes(entries[1..])
  }

  // ----- first critical section

  datatype Found = Hit(count: nat) | Reuse(count: nat, offset: nat) | Miss

  /** Whether `text` is `known` and a one-line recovery trailer. */
  predicate Extends(known: string, text: string) {
    EndsWithLf(known) && known <= text
    && var suffix := text[|known|..];
       |suffix| <= 100 && ("[raw: " <= suffix || "[tee:" <= suffix)
       && EndsWithLf(suffix) && '\n' !in suffix[..|suffix| - 1]
  }

  /** The scan from the newest entry to the oldest. */
  function Scan(entries: seq<Entry>, text: string, found: Found): Found {
    if entries == [] then found
    else
      var last := entries[|entries| - 1];
      if last.text == text then Hit(last.count)
      else Scan(entries[..|entries| - 1], text,
                if Extends(last.text, text) then Reuse(last.count, |last.text|) else found)
  }

  function Lookup(entries: seq<Entry>, text: string): Found {
    Scan(entries, text, Miss)
  }

  function Counted(found: Found, text: string, count: Counter): nat {
    match found
    case Hit(n) => n
    case Reuse(n, offset) => if offset <= |text| then n + count(text[offset..]) else n
    case Miss => count(text)
  }

  ghost predicate Absent(entries: seq<Entry>, text: string, i: nat) {
    forall k :: i <= k < |entries| ==> entries[k].text != text
  }

  ghost predicate NoneExtended(entries: seq<Entry>, text: string, i: nat) {
    i <= |entries| && forall k :: 0 <= k < i ==> !Extends(entries[k].text, text)
  }

  /** What a scan may find: the newest entry of the text itself, and only without
      one the oldest entry that the text extends. */
  ghost predicate Finds(entries: seq<Entry>, text: string, found: Found) {
    match found
    case Hit(n) => exists i: nat :: i < |entries| && entries[i] == Entry(text, n) && Absent(entries, text, i + 1)
    case Reuse(n, offset) =>
      Absent(entries, text, 0)
      && exists i: nat :: i < |entries| && Extends(entries[i].text, text) && NoneExtended(entries, text, i)
                          && n == entries[i].count && offset == |entries[i].text|
    case Miss => Absent(entries, text, 0) && NoneExtended(entries, text, |entries|)
  }

  lemma LookupFinds(entries: seq<Entry>, text: string)
    ensures Finds(entries, text, Lookup(entries, text))
  {
    assert entries[..|entries|] == entries;
    ScanFinds(entries, |entries|, text, Miss);
  }

  lemma {:induction false} ScanFinds(entries: seq<Entry>, i: nat, text: string, found: Found)
    requires i <= |entries| && Absent(entries, text, i)
    requires match found
             case Hit(_) => false
             case Reuse(n, offset) =>
               exists j: nat :: i <= j < |entries| && Extends(entries[j].text, text)
                                && n == entries[j].count && offset == |entries[j].text|
                                && forall k :: i <= k < j ==> !Extends(entries[k].text, text)
             case Miss => forall k :: i <= k < |entries| ==> !Extends(entries[k].text, text)
    ensures Finds(entries, text, Scan(entries[..i], text, found))
  {
    if i > 0 {
      var last := entries[i - 1];
      assert entries[..i][i - 1] == last && entries[..i][..i - 1] == entries[..i - 1];
      if last.text == text {
        assert entries[i - 1] == Entry(text, last.count);
      } else {
        ScanFinds(entries, i - 1, text, if Extends(last.text, text) then Reuse(last.count, |last.text|) else found);
      }
    }
  }

  /** A counted text is reused under either recovery line, of at most 100 bytes. */
  lemma RecoveryLineExtends(known: string, line: string)
    requires EndsWithLf(known) && NoLf(line) && |line| <= 99 && ("[raw: " <= line || "[tee:" <= line)
    ensures Extends(known, known + line + "\n")
  {
    var text, suffix := known + line + "\n", line + "\n";
    assert text == known + suffix && text[|known|..] == suffix;
    assert suffix[..|suffix| - 1] == line;
  }

  // ----- second critical section

  predicate Full(entries: seq<Entry>, size: nat) {
    |entries| >= MAX_ENTRIES || Bytes(entries) + size > MAX_BYTES
  }

  function Evict(entries: seq<Entry>, size: nat): (kept: seq<Entry>)
    requires size <= MAX_BYTES
    ensures !Full(kept, size)
    ensures exists k :: 0 <= k <= |entries| && kept == entries[k..]
                        && forall j :: 0 <= j < k ==> Full(entries[j..], size)
  {
    if Full(entries, size) then
      assert entries != [];
      var kept := Evict(entries[1..], size);
      var k :| 0 <= k <= |entries[1..]| && kept == entries[1..][k..]
               && forall j :: 0 <= j < k ==> Full(entries[1..][j..], size);
      assert kept == entries[k + 1..];
      assert forall j :: 0 <= j < k + 1 ==> entries[j..] == if j == 0 then entries else entries[1..][j - 1..];
      kept
    else
      assert entries == entries[0..];
      entries
  }

  function Insert(entries: seq<Entry>, text: string, count: nat): seq<Entry> {
    if |text| <= MAX_BYTES then Evict(entries, |text|) + [Entry(text, count)] else entries
  }

  /** A text of at most 16 MiB is stored as the newest entry, and found by the
      next lookup. */
  lemma InsertStores(entries: seq<Entry>, text: string, n: nat)
    ensures |text| <= 16_777_216 ==>
              Lookup(Insert(entries, text, n), text) == Hit(n)
              && exists k :: 0 <= k <= |entries| && Insert(entries, text, n) == entries[k..] + [Entry(text, n)]
    ensures |text| > 16_777_216 ==> Insert(entries, text, n) == entries
  {
  }

  // ----- the cache

  ghost predicate Correct(entries: seq<Entry>, count: Counter) {
    forall i :: 0 <= i < |entries| ==> entries[i].count == count(entries[i].text)
  }

  predicate Bounded(entries: seq<Entry>) {
    |entries| <= MAX_ENTRIES && Bytes(entries) <= MAX_BYTES
  }

  class TokenCache {
    var entries: seq<Entry>

    constructor ()
      ensures entries == []
    {
      entries := [];
    }

    method Look(text: string) returns (found: Found)
      ensures found == Lookup(entries, text)
    {
      found := Miss;
      var i := |entries|;
      assert entries[..i] == entries;
      while i > 0
        invariant 0 <= i <= |entries|
        invariant Lookup(entries, text) == Scan(entries[..i], text, found)
      {
        i := i - 1;
        var known := entries[i];
        assert entries[..i + 1][..i] == entries[..i];
        if known.text == text {
          return Hit(known.count);
        }
        if Extends(known.text, text) {
          found := Reuse(known.count, |known.text|);
        }
      }
    }

    method Put(text: string, count: nat)
      modifies this
      ensures entries == Insert(old(entries), text, count)
    {
      if |text| <= MAX_BYTES {
        ghost var kept := Evict(entries, |text|);
        while Full(entries, |text|)
          invariant Evict(entries, |text|) == kept
          decreases |entries|
        {
          assert entries != [];
          entries := entries[1..];
        }
        entries := entries + [Entry(text, count)];
      }
    }

    /** `count_cached`, when no other call intervenes. */
    method Count(text: string, tokenizer: Counter) returns (count: nat)
      requires SplitsAtBracket(tokenizer) && Correct(entries, tokenizer) && Bounded(entries)
      modifies this
      ensures count == tokenizer(text)
      ensures Correct(entries, tokenizer) && Bounded(entries)
      ensures 0 < |text| <= 16_777_216 ==> Lookup(entries, text) == Hit(count)
    {
      if text == "" {
        return 0;
      }
      var found := Look(text);
      LookupIsRight(entries, text, tokenizer);
      count := match found
        case Hit(n) => n
        case Reuse(n, offset) => n + tokenizer(text[offset..])
        case Miss => tokenizer(text);
      if found.Hit? {
        return;
      }
      InsertKeeps(entries, text, count, tokenizer);
      InsertStores(entries, text, count);
      Put(text, count);
    }
  }

  lemma {:induction false} ScanIsRight(entries: seq<Entry>, text: string, found: Found, count: Counter)
    requires Correct(entries, count) && SplitsAtBracket(count)
    requires Counted(found, text, count) == count(text) && (found.Reuse? ==> found.offset <= |text|)
    ensures Counted(Scan(entries, text, found), text, count) == count(text)
    ensures Scan(entries, text, found).Reuse? ==> Scan(entries, text, found).offset <= |text|
  {
    if entries != [] {
      var last := entries[|entries| - 1];
      var next := if Extends(last.text, text) then Reuse(last.count, |last.text|) else found;
      if Extends(last.text, text) {
        var suffix := text[|last.text|..];
        assert last.text + suffix == text;
        assert suffix[0] == '[';
      }
      if last.text != text {
        ScanIsRight(entries[..|entries| - 1], text, next, count);
      }
    }
  }

  /** Whatever the scan finds, the count built from it is the tokenizer's. */
  lemma LookupIsRight(entries: seq<Entry>, text: string, count: Counter)
    requires Correct(entries, count) && SplitsAtBracket(count)
    ensures Counted(Lookup(entries, text), text, count) == count(text)
    ensures Lookup(entries, text).Reuse? ==> Lookup(entries, text).offset <= |text|
  {
    ScanIsRight(entries, text, Miss, count);
  }

  lemma {:induction false} BytesSnoc(entries: seq<Entry>, entry: Entry)
    ensures Bytes(entries + [entry]) == Bytes(entries) + |entry.text|
  {
    if entries == [] {
      assert ([entry])[1..] == [];
    } else {
      BytesSnoc(entries[1..], entry);
      assert (entries + [entry])[1..] == entries[1..] + [entry];
    }
  }

  /** Inserting a right count keeps the cache right and within both bounds. */
  lemma InsertKeeps(entries: seq<Entry>, text: string, n: nat, count: Counter)
    requires Correct(entries, count) && Bounded(entries) && n == count(text)
    ensures Correct(Insert(entries, text, n), count) && Bounded(Insert(entries, text, n))
  {
    if |text| <= MAX_BYTES {
      BytesSnoc(Evict(entries, |text|), Entry(text, n));
    }
  }

  // ----- calls that overlap

  /** A call before its lookup, between its two critical sections, and after. */
  datatype Call = Started(text: string) | Looked(text: string, found: Found) | Returned(text: string, count: nat)

  datatype State = State(entries: seq<Entry>, calls: seq<Call>)

  datatype Action = Start(text: string) | LookUp(i: nat) | Finish(i: nat)

  predicate Enabled(s: State, a: Action) {
    match a
    case Start(_) => true
    case LookUp(i) => i < |s.calls| && s.calls[i].Started?
    case Finish(i) => i < |s.calls| && s.calls[i].Looked?
  }

  function Next(s: State, a: Action, count: Counter): State
    requires Enabled(s, a)
  {
    match a
    case Start(text) => s.(calls := s.calls + [if text == "" then Returned(text, 0) else Started(text)])
    case LookUp(i) =>
      var text := s.calls[i].text;
      var found := Lookup(s.entries, text);
      s.(calls := s.calls[i := if found.Hit? then Returned(text, found.count) else Looked(text, found)])
    case Finish(i) =>
      var n := Counted(s.calls[i].found, s.calls[i].text, count);
      State(Insert(s.entries, s.calls[i].text, n), s.calls[i := Returned(s.calls[i].text, n)])
  }

  ghost predicate CallIsRight(call: Call, count: Counter) {
    match call
    case Started(_) => true
    case Looked(text, found) => Counted(found, text, count) == count(text)
    case Returned(text, n) => n == count(text)
  }

  ghost predicate Inv(s: State, count: Counter) {
    Correct(s.entries, count) && Bounded(s.entries)
    && forall i :: 0 <= i < |s.calls| ==> CallIsRight(s.calls[i], count)
  }

  /** A lookup stays right whatever other calls do before it is used. */
  lemma StepHolds(s: State, a: Action, count: Counter)
    requires SplitsAtBracket(count) && Inv(s, count) && Enabled(s, a)
    ensures Inv(Next(s, a, count), count)
  {
    match a
    case Start(text) =>
    case LookUp(i) =>
      assert CallIsRight(s.calls[i], count);
      LookupIsRight(s.entries, s.calls[i].text, count);
    case Finish(i) =>
      assert CallIsRight(s.calls[i], count);
      InsertKeeps(s.entries, s.calls[i].text, count(s.calls[i].text), count);
  }

  ghost predicate Run(states: seq<State>, actions: seq<Action>, count: Counter) {
    |states| == |actions| + 1 && states[0] == State([], [])
    && forall i :: 0 <= i < |actions| ==>
         Enabled(states[i], actions[i]) && states[i + 1] == Next(states[i], actions[i], count)
  }

  /** In every interleaving of any calls, every returned count is the tokenizer's
      own and the cache stays within three entries and 16 MiB. */
  lemma {:induction false} CachedIsUncached(states: seq<State>, actions: seq<Action>, count: Counter)
    requires SplitsAtBracket(count) && Run(states, actions, count)
    ensures Inv(states[|actions|], count)
    ensures |states[|actions|].entries| <= 3 && Bytes(states[|actions|].entries) <= 16_777_216
  {
    var n := |actions|;
    if n > 0 {
      CachedIsUncached(states[..n], actions[..n - 1], count);
      StepHolds(states[n - 1], actions[n - 1], count);
    }
  }
}

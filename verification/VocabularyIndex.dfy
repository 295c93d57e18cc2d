/** The packed vocabulary and its open-addressed index: written by
    `crates/lm-resizer-core/build.rs`, read by `RankTable::get` in
    `crates/lm-resizer-core/src/tokenizer/count_only.rs`. */
module VocabularyIndex {
  import opened Bytes
  import opened Text

  type Token = seq<Byte>

  const CAPACITY: nat := 0x8_0000
  const EMPTY: nat := 0xFFFF_FFFF

  // ----- hashing and the probe sequence

  /** FNV-1a, as both sides fold it. */
  function Hash(bytes: Token): bv64 {
    if bytes == [] then 0xcbf29ce484222325
    else (Hash(bytes[..|bytes| - 1]) ^ (bytes[|bytes| - 1] as bv64)) * 0x100000001b3
  }

  lemma Mix(h: bv64, b: bv64)
    requires h == 0xcbf29ce484222325 && b == 0x61
    ensures (h ^ b) * 0x100000001b3 == 0xaf63dc4c8601ec8c
  {
    assert h ^ b == 0xcbf29ce484222344;
  }

  /** Published values of 64-bit FNV-1a. */
  lemma HashVectors()
    ensures Hash([]) == 0xcbf29ce484222325
    ensures Hash([0x61]) == 0xaf63dc4c8601ec8c
  {
    var a: Byte := 0x61;
    assert [a][..0] == [];
    Mix(Hash([]), a as bv64);
  }

  /** Slot reached after `step` probes; masking by a power of two less one is `%`. */
  function Probe(token: Token, step: nat): (slot: nat)
    ensures slot < CAPACITY
  {
    (Hash(token) as nat % CAPACITY + step) % CAPACITY
  }

  lemma ProbeNext(token: Token, step: nat)
    ensures (Probe(token, step) + 1) % CAPACITY == Probe(token, step + 1)
  {
  }

  /** Every slot is on every probe sequence. */
  lemma ProbeReaches(token: Token, slot: nat) returns (step: nat)
    requires slot < CAPACITY
    ensures step < CAPACITY && Probe(token, step) == slot
  {
    var start := Hash(token) as nat % CAPACITY;
    step := if slot >= start then slot - start else slot + CAPACITY - start;
  }

  // ----- the packed vocabulary

  /** Length and bytes of each token in rank order. */
  function Packed(tokens: seq<Token>): seq<Byte> {
    if tokens == [] then []
    else Packed(tokens[..|tokens| - 1]) + Le(|tokens[|tokens| - 1]|, 2) + tokens[|tokens| - 1]
  }

  /** Offset of rank `r` in the packed file, after the four bytes of the count. */
  function Offset(tokens: seq<Token>, r: nat): nat
    requires r <= |tokens|
  {
    4 + |Packed(tokens[..r])|
  }

  function File(tokens: seq<Token>): seq<Byte> {
    Le(|tokens|, 4) + Packed(tokens)
  }

  /** What the build script needs: 16-bit lengths, and 32-bit offsets below the
      mark of an empty slot. */
  predicate Packable(tokens: seq<Token>) {
    (forall r :: 0 <= r < |tokens| ==> |tokens[r]| < 0x1_0000) && |File(tokens)| < EMPTY
  }

  lemma {:induction false} PackedSplits(tokens: seq<Token>, r: nat)
    requires r < |tokens|
    ensures Packed(tokens[..r]) + Le(|tokens[r]|, 2) + tokens[r] <= Packed(tokens)
  {
    var n := |tokens| - 1;
    if r == n {
      assert tokens[..r] == tokens[..n];
    } else {
      PackedSplits(tokens[..n], r);
      assert tokens[..n][..r] == tokens[..r];
    }
  }

  /** The bytes stored at an offset. */
  function Stored(file: seq<Byte>, offset: nat): seq<Byte>
    requires offset + 2 <= |file| && offset + 2 + FromLe(file[offset..offset + 2]) <= |file|
  {
    file[offset + 2..offset + 2 + FromLe(file[offset..offset + 2])]
  }

  /** The packed bytes at the offset of a rank are that token. */
  lemma StoredIsToken(tokens: seq<Token>, r: nat)
    requires Packable(tokens) && r < |tokens|
    ensures var offset := Offset(tokens, r);
            offset < EMPTY && offset + 2 <= |File(tokens)|
            && offset + 2 + FromLe(File(tokens)[offset..offset + 2]) <= |File(tokens)|
            && Stored(File(tokens), offset) == tokens[r]
  {
    PackedSplits(tokens, r);
    var offset, length := Offset(tokens, r), Le(|tokens[r]|, 2);
    var front := Le(|tokens|, 4) + Packed(tokens[..r]);
    assert front + (length + tokens[r]) <= File(tokens) by {
      assert front + (length + tokens[r]) == Le(|tokens|, 4) + (Packed(tokens[..r]) + length + tokens[r]);
    }
    assert Power256(2) == 0x1_0000;
    LeRoundTrip(|tokens[r]|, 2);
    StoredAfter(File(tokens), front, length, tokens[r]);
  }

  lemma StoredAfter(file: seq<Byte>, front: seq<Byte>, length: seq<Byte>, token: Token)
    requires |length| == 2 && FromLe(length) == |token| && front + (length + token) <= file
    ensures var offset := |front|;
            offset + 2 + |token| <= |file| && file[offset..offset + 2] == length && Stored(file, offset) == token
  {
    var offset := |front|;
    SliceOf(file, front, length, token);
    assert Stored(file, offset) == file[offset + 2..offset + 2 + |token|];
  }

  lemma SliceOf(file: seq<Byte>, front: seq<Byte>, length: seq<Byte>, token: seq<Byte>)
    requires front + (length + token) <= file
    ensures var start := |front| + |length|;
            file[|front|..start] == length && file[start..start + |token|] == token
  {
    var start, whole := |front| + |length|, front + (length + token);
    assert whole[|front|..start] == length && whole[start..] == token;
    assert whole == file[..|whole|];
  }

  // ----- the table

  datatype Slot = Slot(offset: nat, rank: nat)

  type Table = slots: seq<Slot> | |slots| == CAPACITY witness seq(CAPACITY, _ => Slot(EMPTY, 0))

  predicate IsEmpty(slot: Slot) {
    slot.offset == EMPTY
  }

  /** Rank `r` sits at the end of `steps` probes over slots of lower ranks. */
  predicate Placed(table: Table, tokens: seq<Token>, r: nat, steps: nat)
    requires r < |tokens|
  {
    steps < CAPACITY
    && table[Probe(tokens[r], steps)] == Slot(Offset(tokens, r), r)
    && forall j :: 0 <= j < steps ==>
         !IsEmpty(table[Probe(tokens[r], j)]) && table[Probe(tokens[r], j)].rank < r
  }

  ghost predicate IsPlaced(table: Table, tokens: seq<Token>, r: nat)
    requires r < |tokens|
  {
    exists steps: nat :: Placed(table, tokens, r, steps)
  }

  predicate OccupiedBy(table: Table, tokens: seq<Token>, k: nat) {
    k <= |tokens|
    && forall s :: 0 <= s < CAPACITY && !IsEmpty(table[s]) ==>
         table[s].rank < k && table[s].offset == Offset(tokens, table[s].rank)
  }

  /** The table holds the first `k` ranks and nothing else. */
  ghost predicate Holds(table: Table, tokens: seq<Token>, k: nat) {
    OccupiedBy(table, tokens, k)
    && (forall r :: 0 <= r < k ==> IsPlaced(table, tokens, r))
    && |Occupied(table)| == k
  }

  function Occupied(table: Table): set<nat> {
    set s: nat | s < CAPACITY && !IsEmpty(table[s])
  }

  function UpTo(n: nat): (numbers: set<nat>)
    ensures |numbers| == n
    ensures forall s: nat :: s in numbers <==> s < n
  {
    if n == 0 then {} else UpTo(n - 1) + {n - 1}
  }

  /** A table that is not full has an empty slot on every probe sequence. */
  lemma EmptyOnPath(table: Table, token: Token) returns (step: nat)
    requires |Occupied(table)| < CAPACITY
    ensures step < CAPACITY && IsEmpty(table[Probe(token, step)])
  {
    var all := UpTo(CAPACITY);
    assert Occupied(table) <= all && Occupied(table) != all;
    var slot :| slot in all && slot !in Occupied(table);
    step := ProbeReaches(token, slot);
  }

  // ----- insertion

  predicate OccupiedPath(table: Table, token: Token, step: nat) {
    forall j :: 0 <= j < step ==> !IsEmpty(table[Probe(token, j)])
  }

  /** Writing the next rank at the first empty slot of its path extends the table. */
  lemma Inserts(table: Table, tokens: seq<Token>, k: nat, step: nat)
    requires Packable(tokens) && k < |tokens| && Holds(table, tokens, k)
    requires step < CAPACITY && OccupiedPath(table, tokens[k], step) && IsEmpty(table[Probe(tokens[k], step)])
    ensures Holds(table[Probe(tokens[k], step) := Slot(Offset(tokens, k), k)], tokens, k + 1)
  {
    var slot := Probe(tokens[k], step);
    var after: Table := table[slot := Slot(Offset(tokens, k), k)];
    OneMoreOccupied(table, tokens, k, slot);
    NewPlace(table, tokens, k, step);
    forall r | 0 <= r < k
      ensures IsPlaced(after, tokens, r)
    {
      StoredIsToken(tokens, r);
      KeepsPlace(table, tokens, r, slot, Slot(Offset(tokens, k), k));
    }
  }

  lemma OneMoreOccupied(table: Table, tokens: seq<Token>, k: nat, slot: nat)
    requires Packable(tokens) && k < |tokens| && OccupiedBy(table, tokens, k) && |Occupied(table)| == k
    requires slot < CAPACITY && IsEmpty(table[slot])
    ensures var after: Table := table[slot := Slot(Offset(tokens, k), k)];
            OccupiedBy(after, tokens, k + 1) && |Occupied(after)| == k + 1
  {
    StoredIsToken(tokens, k);
    var after: Table := table[slot := Slot(Offset(tokens, k), k)];
    assert Occupied(after) == Occupied(table) + {slot};
  }

  lemma NewPlace(table: Table, tokens: seq<Token>, k: nat, step: nat)
    requires k < |tokens| && OccupiedBy(table, tokens, k)
    requires step < CAPACITY && OccupiedPath(table, tokens[k], step) && IsEmpty(table[Probe(tokens[k], step)])
    ensures IsPlaced(table[Probe(tokens[k], step) := Slot(Offset(tokens, k), k)], tokens, k)
  {
    assert Placed(table[Probe(tokens[k], step) := Slot(Offset(tokens, k), k)], tokens, k, step);
  }

  lemma KeepsPlace(table: Table, tokens: seq<Token>, r: nat, slot: nat, entry: Slot)
    requires r < |tokens| && IsPlaced(table, tokens, r) && slot < CAPACITY && IsEmpty(table[slot])
    requires Offset(tokens, r) != EMPTY
    ensures IsPlaced(table[slot := entry], tokens, r)
  {
    var steps: nat :| Placed(table, tokens, r, steps);
    assert Placed(table[slot := entry], tokens, r, steps);
  }

  /** The build loop over all ranks, into a fresh array of slots. */
  method Build(tokens: seq<Token>) returns (file: seq<Byte>, index: seq<Byte>, ghost table: Table)
    requires Packable(tokens) && |tokens| < CAPACITY
    ensures file == File(tokens)
    ensures Holds(table, tokens, |tokens|) && index == IndexBytes(table)
  {
    var slots := new Slot[CAPACITY](_ => Slot(EMPTY, 0));
    file := Le(|tokens|, 4);
    var offset := 4;
    var rank := 0;
    table := slots[..];
    assert Occupied(table) == {};
    while rank < |tokens|
      invariant rank <= |tokens|
      invariant slots[..] == table && Holds(table, tokens, rank)
      invariant file == Le(|tokens|, 4) + Packed(tokens[..rank]) && offset == Offset(tokens, rank)
    {
      var slot := FreeSlot(slots, tokens, rank, table);
      slots[slot] := Slot(offset, rank);
      table := slots[..];
      PackedSnoc(tokens, rank);
      offset := offset + 2 + |tokens[rank]|;
      file := file + Le(|tokens[rank]|, 2) + tokens[rank];
      rank := rank + 1;
    }
    assert tokens[..rank] == tokens;
    index := WriteIndex(slots);
  }

  lemma PackedSnoc(tokens: seq<Token>, r: nat)
    requires r < |tokens|
    ensures Packed(tokens[..r + 1]) == Packed(tokens[..r]) + Le(|tokens[r]|, 2) + tokens[r]
    ensures Offset(tokens, r + 1) == Offset(tokens, r) + 2 + |tokens[r]|
  {
    assert tokens[..r + 1][..r] == tokens[..r];
  }

  /** Linear probing to the slot of the next rank; it ends because the table is never full. */
  method FreeSlot(slots: array<Slot>, tokens: seq<Token>, rank: nat, ghost table: Table) returns (slot: nat)
    requires Packable(tokens) && rank < |tokens| && rank < CAPACITY && Holds(table, tokens, rank)
    requires slots[..] == table
    ensures slot < CAPACITY
    ensures Holds(table[slot := Slot(Offset(tokens, rank), rank)], tokens, rank + 1)
  {
    var token := tokens[rank];
    slot := Probe(token, 0);
    ghost var step := 0;
    ghost var bound := EmptyOnPath(table, token);
    while slots[slot].offset != EMPTY
      invariant slot == Probe(token, step) && step <= bound
      invariant OccupiedPath(table, token, step)
      decreases bound - step
    {
      ProbeNext(token, step);
      slot := (slot + 1) % CAPACITY;
      step := step + 1;
    }
    Inserts(table, tokens, rank, step);
  }

  // ----- the index file

  function IndexPrefix(table: Table, k: nat): (bytes: seq<Byte>)
    requires k <= CAPACITY
    ensures |bytes| == 8 * k
  {
    if k == 0 then []
    else IndexPrefix(table, k - 1) + (Le(table[k - 1].offset, 4) + Le(table[k - 1].rank, 4))
  }

  function IndexBytes(table: Table): seq<Byte> {
    IndexPrefix(table, CAPACITY)
  }

  method WriteIndex(slots: array<Slot>) returns (index: seq<Byte>)
    requires slots.Length == CAPACITY
    ensures index == IndexBytes(slots[..])
  {
    index := [];
    for s := 0 to CAPACITY
      invariant index == IndexPrefix(slots[..], s)
    {
      index := index + (Le(slots[s].offset, 4) + Le(slots[s].rank, 4));
    }
  }

  lemma {:induction false} EntryAt(table: Table, s: nat, k: nat)
    requires s < k <= CAPACITY
    ensures IndexPrefix(table, k)[8 * s..8 * s + 4] == Le(table[s].offset, 4)
    ensures IndexPrefix(table, k)[8 * s + 4..8 * s + 8] == Le(table[s].rank, 4)
  {
    var before, entry := IndexPrefix(table, k - 1), Le(table[k - 1].offset, 4) + Le(table[k - 1].rank, 4);
    if s == k - 1 {
      assert (before + entry)[8 * s..8 * s + 4] == entry[..4];
      assert (before + entry)[8 * s + 4..8 * s + 8] == entry[4..];
    } else {
      EntryAt(table, s, k - 1);
      assert (before + entry)[8 * s..8 * s + 4] == before[8 * s..8 * s + 4];
      assert (before + entry)[8 * s + 4..8 * s + 8] == before[8 * s + 4..8 * s + 8];
    }
  }

  lemma EntryReads(table: Table, tokens: seq<Token>, s: nat)
    requires Packable(tokens) && Holds(table, tokens, |tokens|) && |tokens| < CAPACITY && s < CAPACITY
    ensures |IndexBytes(table)| == 8 * CAPACITY
    ensures FromLe(IndexBytes(table)[8 * s..8 * s + 4]) == table[s].offset
    ensures !IsEmpty(table[s]) ==> FromLe(IndexBytes(table)[8 * s + 4..8 * s + 8]) == table[s].rank
  {
    EntryAt(table, s, CAPACITY);
    assert Power256(4) == 0x1_0000_0000;
    if !IsEmpty(table[s]) {
      StoredIsToken(tokens, table[s].rank);
      LeRoundTrip(table[s].rank, 4);
    }
    LeRoundTrip(table[s].offset, 4);
  }

  // ----- lookup

  /** The lowest rank of these bytes: the only one in a vocabulary without repeats. */
  function FirstRank(tokens: seq<Token>, bytes: Token): (r: Option<nat>)
    ensures r.None? ==> bytes !in tokens
    ensures r.Some? ==> r.value < |tokens| && tokens[r.value] == bytes
                        && forall k :: 0 <= k < r.value ==> tokens[k] != bytes
  {
    if tokens == [] then None
    else
      match FirstRank(tokens[..|tokens| - 1], bytes)
      case Some(r) => Some(r)
      case None => if tokens[|tokens| - 1] == bytes then Some(|tokens| - 1) else None
  }

  /** The slots already probed hold other tokens. */
  predicate Passed(table: Table, tokens: seq<Token>, bytes: Token, step: nat) {
    forall j :: 0 <= j < step ==>
      !IsEmpty(table[Probe(bytes, j)]) && table[Probe(bytes, j)].rank < |tokens|
      && tokens[table[Probe(bytes, j)].rank] != bytes
  }

  lemma NotPassed(table: Table, tokens: seq<Token>, bytes: Token, step: nat, r: nat, steps: nat)
    requires r < |tokens| && tokens[r] == bytes && Placed(table, tokens, r, steps)
    requires Passed(table, tokens, bytes, step)
    ensures step <= steps
  {
  }

  /** Probing meets the first rank of a token before any other copy of it, and
      before any empty slot. */
  lemma MeetsFirstRank(table: Table, tokens: seq<Token>, bytes: Token, step: nat)
    requires Packable(tokens) && Holds(table, tokens, |tokens|) && Passed(table, tokens, bytes, step)
    ensures IsEmpty(table[Probe(bytes, step)]) ==> FirstRank(tokens, bytes).None?
    ensures var slot := table[Probe(bytes, step)];
            !IsEmpty(slot) && slot.rank < |tokens| && tokens[slot.rank] == bytes ==>
              FirstRank(tokens, bytes) == Some(slot.rank)
  {
    var first := FirstRank(tokens, bytes);
    if first.Some? {
      assert IsPlaced(table, tokens, first.value);
      var steps: nat :| Placed(table, tokens, first.value, steps);
      NotPassed(table, tokens, bytes, step, first.value, steps);
      StoredIsToken(tokens, first.value);
      FirstOnPath(table, tokens, bytes, step, first.value, steps);
    }
  }

  lemma FirstOnPath(table: Table, tokens: seq<Token>, bytes: Token, step: nat, r: nat, steps: nat)
    requires r < |tokens| && tokens[r] == bytes && forall k :: 0 <= k < r ==> tokens[k] != bytes
    requires Placed(table, tokens, r, steps) && step <= steps && Offset(tokens, r) != EMPTY
    ensures var slot := table[Probe(bytes, step)];
            !IsEmpty(slot) && slot.rank <= r && (slot.rank < |tokens| && tokens[slot.rank] == bytes ==> slot.rank == r)
  {
  }

  /** `RankTable::get`, on the two files of the build script. */
  method Get(file: seq<Byte>, index: seq<Byte>, bytes: Token, ghost tokens: seq<Token>, ghost table: Table)
    returns (rank: Option<nat>)
    requires Packable(tokens) && |tokens| < CAPACITY && Holds(table, tokens, |tokens|)
    requires file == File(tokens) && index == IndexBytes(table)
    ensures rank == FirstRank(tokens, bytes)
  {
    var slot := Probe(bytes, 0);
    ghost var step := 0;
    ghost var bound := EmptyOnPath(table, bytes);
    while true
      invariant slot == Probe(bytes, step) && step <= bound && Passed(table, tokens, bytes, step)
      decreases bound - step
    {
      var done;
      done, rank := Look(file, index, bytes, slot, tokens, table, step);
      if done {
        return;
      }
      ProbeNext(bytes, step);
      slot := (slot + 1) % CAPACITY;
      step := step + 1;
    }
  }

  /** One probe: it ends at an empty slot or at the token, and otherwise passes another token. */
  method Look(file: seq<Byte>, index: seq<Byte>, bytes: Token, slot: nat, ghost tokens: seq<Token>, ghost table: Table,
              ghost step: nat)
    returns (done: bool, rank: Option<nat>)
    requires Packable(tokens) && |tokens| < CAPACITY && Holds(table, tokens, |tokens|)
    requires file == File(tokens) && index == IndexBytes(table)
    requires slot == Probe(bytes, step) && Passed(table, tokens, bytes, step)
    ensures done ==> rank == FirstRank(tokens, bytes)
    ensures !done ==> !IsEmpty(table[slot]) && Passed(table, tokens, bytes, step + 1)
  {
    EntryReads(table, tokens, slot);
    MeetsFirstRank(table, tokens, bytes, step);
    var offset := FromLe(index[8 * slot..8 * slot + 4]);
    if offset == EMPTY {
      return true, None;
    }
    StoredIsToken(tokens, table[slot].rank);
    if Stored(file, offset) == bytes {
      return true, Some(FromLe(index[8 * slot + 4..8 * slot + 8]));
    }
    return false, None;
  }
}

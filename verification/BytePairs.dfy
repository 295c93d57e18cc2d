/** Greedy byte-pair counting (`crates/lm-resizer-core/src/tokenizer/count_only.rs`).
    `count_small` rescans the boundaries before every merge; `count_heap` keeps a
    linked list and a queue with stale entries. Both make the same merges. */
module BytePairs {
  import opened Bytes
  import opened Text

  type Ranks = seq<Byte> -> Option<nat>

  const NONE: nat := USIZE_LIMIT - 1

  // ----- one merge at a time

  /** Positions between tokens, from 0 to the length of the piece. */
  predicate Boundaries(b: seq<nat>, n: nat) {
    b != [] && b[0] == 0 && b[|b| - 1] == n && forall i, j :: 0 <= i < j < |b| ==> b[i] < b[j]
  }

  /** Rank of the token that merging at boundary `i + 1` would make. */
  function PairRank(piece: seq<Byte>, ranks: Ranks, b: seq<nat>, i: nat): Option<nat>
    requires Boundaries(b, |piece|) && i + 2 < |b|
  {
    ranks(piece[b[i]..b[i + 2]])
  }

  /** Lowest rank, then leftmost. */
  predicate IsBest(piece: seq<Byte>, ranks: Ranks, b: seq<nat>, i: nat)
    requires Boundaries(b, |piece|)
  {
    i + 2 < |b| && PairRank(piece, ranks, b, i).Some?
    && forall j :: 0 <= j < |b| - 2 && PairRank(piece, ranks, b, j).Some? ==>
         var r, s := PairRank(piece, ranks, b, i).value, PairRank(piece, ranks, b, j).value;
         r < s || (r == s && i <= j)
  }

  predicate NoPair(piece: seq<Byte>, ranks: Ranks, b: seq<nat>)
    requires Boundaries(b, |piece|)
  {
    forall j :: 0 <= j < |b| - 2 ==> PairRank(piece, ranks, b, j).None?
  }

  /** The best pair among the first `k`, as the iterator's `min`. */
  function BestBelow(piece: seq<Byte>, ranks: Ranks, b: seq<nat>, k: nat): (r: Option<nat>)
    requires Boundaries(b, |piece|) && k + 2 <= |b|
    ensures r.None? ==> forall j :: 0 <= j < k ==> PairRank(piece, ranks, b, j).None?
    ensures r.Some? ==>
              r.value < k && PairRank(piece, ranks, b, r.value).Some?
              && forall j :: 0 <= j < k && PairRank(piece, ranks, b, j).Some? ==>
                   var low, s := PairRank(piece, ranks, b, r.value).value, PairRank(piece, ranks, b, j).value;
                   low < s || (low == s && r.value <= j)
  {
    if k == 0 then None
    else
      var before := BestBelow(piece, ranks, b, k - 1);
      var last := PairRank(piece, ranks, b, k - 1);
      if last.None? then before
      else if before.Some? && PairRank(piece, ranks, b, before.value).value <= last.value then before
      else Some(k - 1)
  }

  function Best(piece: seq<Byte>, ranks: Ranks, b: seq<nat>): (r: Option<nat>)
    requires Boundaries(b, |piece|)
    ensures r.Some? ==> IsBest(piece, ranks, b, r.value)
    ensures r.None? ==> NoPair(piece, ranks, b)
  {
    if |b| < 2 then None else BestBelow(piece, ranks, b, |b| - 2)
  }

  function Remove(b: seq<nat>, i: nat): seq<nat>
    requires i < |b|
  {
    b[..i] + b[i + 1..]
  }

  lemma RemoveKeeps(b: seq<nat>, i: nat, n: nat)
    requires Boundaries(b, n) && 0 < i < |b| - 1
    ensures Boundaries(Remove(b, i), n)
  {
  }

  /** The boundaries left when no pair has a rank. */
  ghost function Merged(piece: seq<Byte>, ranks: Ranks, b: seq<nat>): (r: seq<nat>)
    requires Boundaries(b, |piece|)
    ensures Boundaries(r, |piece|)
    decreases |b|
  {
    match Best(piece, ranks, b)
    case None => b
    case Some(i) =>
      RemoveKeeps(b, i + 1, |piece|);
      Merged(piece, ranks, Remove(b, i + 1))
  }

  lemma BestIsUnique(piece: seq<Byte>, ranks: Ranks, b: seq<nat>, i: nat)
    requires Boundaries(b, |piece|) && IsBest(piece, ranks, b, i)
    ensures Best(piece, ranks, b) == Some(i)
  {
  }

  function Identity(n: nat): (b: seq<nat>)
    ensures |b| == n + 1 && forall i :: 0 <= i <= n ==> b[i] == i
  {
    seq(n + 1, i => i)
  }

  /** Number of tokens of a piece under greedy merging. */
  ghost function Count(piece: seq<Byte>, ranks: Ranks): nat {
    |Merged(piece, ranks, Identity(|piece|))| - 1
  }

  /** Each list of boundaries follows from the one before by merging its best pair,
      and the last one has no pair to merge. */
  ghost predicate IsGreedyRun(piece: seq<Byte>, ranks: Ranks, run: seq<seq<nat>>) {
    run != [] && (forall k :: 0 < k < |run| ==> MergesBest(piece, ranks, run[k - 1], run[k]))
    && Boundaries(run[|run| - 1], |piece|) && NoPair(piece, ranks, run[|run| - 1])
  }

  /** The pair of least rank, leftmost among equals, becomes one token. */
  ghost predicate MergesBest(piece: seq<Byte>, ranks: Ranks, b: seq<nat>, after: seq<nat>) {
    Boundaries(b, |piece|) && exists i: nat :: IsBest(piece, ranks, b, i) && after == b[..i + 1] + b[i + 2..]
  }

  lemma {:induction false} MergedIsGreedy(piece: seq<Byte>, ranks: Ranks, b: seq<nat>) returns (run: seq<seq<nat>>)
    requires Boundaries(b, |piece|)
    ensures IsGreedyRun(piece, ranks, run) && run[0] == b && run[|run| - 1] == Merged(piece, ranks, b)
    ensures |b| - |Merged(piece, ranks, b)| == |run| - 1
    decreases |b|
  {
    match Best(piece, ranks, b)
    case None => run := [b];
    case Some(i) =>
      RemoveKeeps(b, i + 1, |piece|);
      var rest := MergedIsGreedy(piece, ranks, Remove(b, i + 1));
      assert MergesBest(piece, ranks, b, rest[0]);
      run := [b] + rest;
      RunCons(piece, ranks, b, rest);
  }

  lemma RunCons(piece: seq<Byte>, ranks: Ranks, b: seq<nat>, rest: seq<seq<nat>>)
    requires IsGreedyRun(piece, ranks, rest) && MergesBest(piece, ranks, b, rest[0])
    ensures IsGreedyRun(piece, ranks, [b] + rest)
  {
    var run := [b] + rest;
    forall k | 0 < k < |run|
      ensures MergesBest(piece, ranks, run[k - 1], run[k])
    {
      assert run[k] == rest[k - 1] && run[k - 1] == if k == 1 then b else rest[k - 2];
    }
    assert run[|run| - 1] == rest[|rest| - 1];
  }

  /** The count is what is left of one token a byte after as many merges as a
      greedy run from single bytes makes. */
  lemma CountIsGreedy(piece: seq<Byte>, ranks: Ranks) returns (run: seq<seq<nat>>)
    ensures IsGreedyRun(piece, ranks, run)
    ensures |run[0]| == |piece| + 1 && forall i :: 0 <= i <= |piece| ==> run[0][i] == i
    ensures Count(piece, ranks) == |run[|run| - 1]| - 1 == |piece| - (|run| - 1)
  {
    run := MergedIsGreedy(piece, ranks, Identity(|piece|));
  }

  method CountSmall(piece: seq<Byte>, ranks: Ranks) returns (count: nat)
    ensures count == Count(piece, ranks)
  {
    var boundaries := Identity(|piece|);
    ghost var whole := Merged(piece, ranks, boundaries);
    var next := Best(piece, ranks, boundaries);
    while next.Some?
      invariant Boundaries(boundaries, |piece|) && next == Best(piece, ranks, boundaries)
      invariant Merged(piece, ranks, boundaries) == whole
      decreases |boundaries|
    {
      MergeOne(piece, ranks, boundaries, next.value);
      boundaries := Remove(boundaries, next.value + 1);
      next := Best(piece, ranks, boundaries);
    }
    count := |boundaries| - 1;
  }

  lemma MergeOne(piece: seq<Byte>, ranks: Ranks, b: seq<nat>, i: nat)
    requires Boundaries(b, |piece|) && Best(piece, ranks, b) == Some(i)
    ensures i + 2 < |b| && Boundaries(Remove(b, i + 1), |piece|)
    ensures Merged(piece, ranks, Remove(b, i + 1)) == Merged(piece, ranks, b)
  {
    RemoveKeeps(b, i + 1, |piece|);
  }

  // ----- the linked list and the queue

  /** A queued merge: rank, first boundary, last boundary. */
  datatype Entry = Entry(rank: nat, left: nat, end: nat)

  predicate Leq(a: Entry, b: Entry) {
    a.rank < b.rank || (a.rank == b.rank && (a.left < b.left || (a.left == b.left && a.end <= b.end)))
  }

  lemma {:induction false} MinimumExists(queue: multiset<Entry>)
    requires queue != multiset{}
    ensures exists e :: e in queue && forall f :: f in queue ==> Leq(e, f)
    decreases |queue|
  {
    var e :| e in queue;
    var rest := queue - multiset{e};
    assert queue == multiset{e} + rest;
    if rest != multiset{} {
      MinimumExists(rest);
      var m :| m in rest && forall f :: f in rest ==> Leq(m, f);
      LowerOf(rest, e, m);
    } else {
      assert forall f :: f in queue ==> f == e;
    }
  }

  lemma LowerOf(rest: multiset<Entry>, e: Entry, m: Entry)
    requires m in rest && forall f :: f in rest ==> Leq(m, f)
    ensures exists low :: low in multiset{e} + rest && forall f :: f in multiset{e} + rest ==> Leq(low, f)
  {
    var queue := multiset{e} + rest;
    var low := if Leq(e, m) then e else m;
    forall f | f in queue
      ensures Leq(low, f)
    {
      if f != e {
        assert f in rest;
      }
    }
    assert low in queue;
  }

  /** `BinaryHeap::pop` of reversed entries. */
  method Pop(queue: multiset<Entry>) returns (top: Entry, rest: multiset<Entry>)
    requires queue != multiset{}
    ensures top in queue && (forall f :: f in queue ==> Leq(top, f)) && rest == queue - multiset{top}
  {
    MinimumExists(queue);
    top :| top in queue && forall f :: f in queue ==> Leq(top, f);
    rest := queue - multiset{top};
  }

  /** `next` and `prev` hold exactly the boundaries `b`. */
  predicate Linked(b: seq<nat>, n: nat, next: seq<nat>, prev: seq<nat>) {
    Boundaries(b, n) && |next| == |prev| == n
    && (forall i :: 0 <= i < |b| - 1 ==> next[b[i]] == b[i + 1])
    && (forall x :: 0 <= x < n && x !in b ==> next[x] == NONE)
    && (forall i :: 0 < i < |b| - 1 ==> prev[b[i]] == b[i - 1])
    && (n > 0 ==> prev[0] == NONE)
  }

  predicate SoundQueue(piece: seq<Byte>, ranks: Ranks, queue: multiset<Entry>) {
    forall e :: e in queue ==> e.left < e.end <= |piece| && ranks(piece[e.left..e.end]) == Some(e.rank)
  }

  predicate Queued(piece: seq<Byte>, ranks: Ranks, b: seq<nat>, queue: multiset<Entry>, i: nat)
    requires Boundaries(b, |piece|) && i + 2 < |b|
  {
    PairRank(piece, ranks, b, i).Some? ==>
      Entry(PairRank(piece, ranks, b, i).value, b[i], b[i + 2]) in queue
  }

  /** Every mergeable neighbouring pair is queued. */
  predicate CompleteQueue(piece: seq<Byte>, ranks: Ranks, b: seq<nat>, queue: multiset<Entry>)
    requires Boundaries(b, |piece|)
  {
    forall i :: 0 <= i < |b| - 2 ==> Queued(piece, ranks, b, queue, i)
  }

  /** Whether the entry still names three consecutive boundaries. */
  predicate Fresh(e: Entry, n: nat, next: seq<nat>)
    requires |next| == n && e.left < n
  {
    next[e.left] < n && next[next[e.left]] == e.end
  }

  lemma FreshIsLive(b: seq<nat>, n: nat, next: seq<nat>, prev: seq<nat>, e: Entry) returns (i: nat)
    requires Linked(b, n, next, prev) && n < NONE && e.left < n && Fresh(e, n, next)
    ensures i + 2 < |b| && e.left == b[i] && e.end == b[i + 2] && next[e.left] == b[i + 1]
  {
    assert e.left in b;
    i :| 0 <= i < |b| && b[i] == e.left;
    assert i < |b| - 1;
    assert next[b[i]] == b[i + 1];
    assert i + 1 < |b| - 1;
  }

  lemma StaleIsNotNeeded(piece: seq<Byte>, ranks: Ranks, b: seq<nat>, next: seq<nat>, prev: seq<nat>,
                         queue: multiset<Entry>, e: Entry)
    requires Linked(b, |piece|, next, prev) && CompleteQueue(piece, ranks, b, queue)
    requires e in queue && e.left < |piece| && !Fresh(e, |piece|, next)
    ensures CompleteQueue(piece, ranks, b, queue - multiset{e})
  {
    forall i | 0 <= i < |b| - 2
      ensures Queued(piece, ranks, b, queue - multiset{e}, i)
    {
      assert Queued(piece, ranks, b, queue, i);
      assert next[b[i]] == b[i + 1] && next[b[i + 1]] == b[i + 2];
      assert b[i + 1] < b[|b| - 1];
    }
  }

  lemma PoppedIsBest(piece: seq<Byte>, ranks: Ranks, b: seq<nat>, queue: multiset<Entry>, e: Entry, i: nat)
    requires Boundaries(b, |piece|) && i + 2 < |b| && e.left == b[i] && e.end == b[i + 2]
    requires SoundQueue(piece, ranks, queue) && CompleteQueue(piece, ranks, b, queue)
    requires e in queue && forall f :: f in queue ==> Leq(e, f)
    ensures IsBest(piece, ranks, b, i)
  {
    forall j | 0 <= j < |b| - 2 && PairRank(piece, ranks, b, j).Some?
      ensures var r, s := PairRank(piece, ranks, b, i).value, PairRank(piece, ranks, b, j).value;
              r < s || (r == s && i <= j)
    {
      assert Queued(piece, ranks, b, queue, j);
      assert Leq(e, Entry(PairRank(piece, ranks, b, j).value, b[j], b[j + 2]));
    }
  }

  lemma EmptyQueueIsDone(piece: seq<Byte>, ranks: Ranks, b: seq<nat>)
    requires Boundaries(b, |piece|) && CompleteQueue(piece, ranks, b, multiset{})
    ensures Merged(piece, ranks, b) == b
  {
    forall i | 0 <= i < |b| - 2
      ensures PairRank(piece, ranks, b, i).None?
    {
      assert Queued(piece, ranks, b, multiset{}, i);
    }
    NothingLeft(piece, ranks, b);
  }

  lemma NothingLeft(piece: seq<Byte>, ranks: Ranks, b: seq<nat>)
    requires Boundaries(b, |piece|) && NoPair(piece, ranks, b)
    ensures Merged(piece, ranks, b) == b
  {
    assert Best(piece, ranks, b).None?;
  }

  // ----- one merge in the linked list

  /** `next` after merging at `b[i + 1]`. */
  function NextAfter(next: seq<nat>, b: seq<nat>, i: nat): seq<nat>
    requires i + 2 < |b| && b[i] < |next| && b[i + 1] < |next|
  {
    next[b[i] := b[i + 2]][b[i + 1] := NONE]
  }

  function PrevAfter(prev: seq<nat>, b: seq<nat>, i: nat): seq<nat>
    requires i + 2 < |b|
  {
    if b[i + 2] < |prev| then prev[b[i + 2] := b[i]] else prev
  }

  lemma MergeKeepsLinks(b: seq<nat>, n: nat, next: seq<nat>, prev: seq<nat>, i: nat)
    requires Linked(b, n, next, prev) && i + 2 < |b|
    ensures b[i] < n && b[i + 1] < n
    ensures Linked(Remove(b, i + 1), n, NextAfter(next, b, i), PrevAfter(prev, b, i))
  {
    assert b[i + 1] < b[|b| - 1] && b[i] < b[|b| - 1];
    RemoveKeeps(b, i + 1, n);
    NextLinks(b, n, next, prev, i);
    PrevLinks(b, n, next, prev, i);
  }

  lemma NextLinks(b: seq<nat>, n: nat, next: seq<nat>, prev: seq<nat>, i: nat)
    requires Linked(b, n, next, prev) && i + 2 < |b| && b[i] < n && b[i + 1] < n
    ensures var after := Remove(b, i + 1);
            (forall k :: 0 <= k < |after| - 1 ==> after[k] < n && NextAfter(next, b, i)[after[k]] == after[k + 1])
            && forall x :: 0 <= x < n && x !in after ==> NextAfter(next, b, i)[x] == NONE
  {
    var after, nexts := Remove(b, i + 1), NextAfter(next, b, i);
    forall k | 0 <= k < |after| - 1
      ensures after[k] < n && nexts[after[k]] == after[k + 1]
    {
      var before := if k <= i then k else k + 1;
      assert after[k] == b[before] < b[|b| - 1] && next[b[before]] == b[before + 1];
    }
    forall x | 0 <= x < n && x !in after
      ensures nexts[x] == NONE
    {
      OnlyOneRemoved(b, i + 1, x);
    }
  }

  lemma PrevLinks(b: seq<nat>, n: nat, next: seq<nat>, prev: seq<nat>, i: nat)
    requires Linked(b, n, next, prev) && i + 2 < |b|
    ensures var after := Remove(b, i + 1);
            (forall k :: 0 < k < |after| - 1 ==> after[k] < n && PrevAfter(prev, b, i)[after[k]] == after[k - 1])
            && (n > 0 ==> PrevAfter(prev, b, i)[0] == NONE)
  {
    var after, prevs := Remove(b, i + 1), PrevAfter(prev, b, i);
    forall k | 0 < k < |after| - 1
      ensures after[k] < n && prevs[after[k]] == after[k - 1]
    {
      var before := if k <= i then k else k + 1;
      assert after[k] == b[before] < b[|b| - 1] && prev[b[before]] == b[before - 1];
    }
    assert b[i + 2] > b[0];
  }

  lemma OnlyOneRemoved(b: seq<nat>, i: nat, x: nat)
    requires i < |b|
    ensures x in b ==> x == b[i] || x in Remove(b, i)
  {
    if x in b {
      var k :| 0 <= k < |b| && b[k] == x;
      if k < i {
        assert Remove(b, i)[k] == x;
      } else if k > i {
        assert Remove(b, i)[k - 1] == x;
      }
    }
  }

  /** Pairs that do not touch the merged token stay queued. */
  lemma FarPairsQueued(piece: seq<Byte>, ranks: Ranks, b: seq<nat>, queue: multiset<Entry>, e: Entry, i: nat,
                       after: seq<nat>, rest: multiset<Entry>)
    requires Boundaries(b, |piece|) && i + 2 < |b| && e.left == b[i] && e.end == b[i + 2]
    requires CompleteQueue(piece, ranks, b, queue)
    requires after == Remove(b, i + 1) && rest == queue - multiset{e}
    ensures Boundaries(after, |piece|)
    ensures forall k :: 0 <= k < |after| - 2 && k != i && k != i - 1 ==> Queued(piece, ranks, after, rest, k)
  {
    RemoveKeeps(b, i + 1, |piece|);
    forall k | 0 <= k < |after| - 2 && k != i && k != i - 1
      ensures Queued(piece, ranks, after, rest, k)
    {
      var before := if k < i then k else k + 1;
      assert after[k] == b[before] && after[k + 1] == b[before + 1] && after[k + 2] == b[before + 2];
      assert Queued(piece, ranks, b, queue, before);
      assert b[before] != b[i];
    }
  }

  /** Queueing the two pairs that now touch the merged token completes the queue. */
  lemma NearPairsQueued(piece: seq<Byte>, ranks: Ranks, after: seq<nat>, rest: multiset<Entry>, i: nat,
                        queue: multiset<Entry>)
    requires Boundaries(after, |piece|) && rest <= queue
    requires forall k :: 0 <= k < |after| - 2 && k != i && k != i - 1 ==> Queued(piece, ranks, after, rest, k)
    requires 0 < i && i + 1 < |after| ==> Queued(piece, ranks, after, queue, i - 1)
    requires i + 2 < |after| ==> Queued(piece, ranks, after, queue, i)
    ensures CompleteQueue(piece, ranks, after, queue)
  {
    forall k | 0 <= k < |after| - 2
      ensures Queued(piece, ranks, after, queue, k)
    {
      if k != i && k != i - 1 {
        assert Queued(piece, ranks, after, rest, k);
      }
    }
  }

  /** Queue the pair that starts at `start`, if there is one. */
  method Push(piece: seq<Byte>, ranks: Ranks, next: array<nat>, start: nat, queue: multiset<Entry>,
              ghost b: seq<nat>, ghost prev: seq<nat>, ghost i: int)
    returns (more: multiset<Entry>)
    requires Linked(b, |piece|, next[..], prev) && |piece| < NONE && SoundQueue(piece, ranks, queue)
    requires if 0 <= i < |b| - 1 then start == b[i] else start == NONE
    ensures queue <= more && |more| <= |queue| + 1 && SoundQueue(piece, ranks, more)
    ensures 0 <= i < |b| - 2 ==> Queued(piece, ranks, b, more, i)
  {
    more := queue;
    if start < |piece| {
      var middle := next[start];
      assert middle == next[..][b[i]] == b[i + 1];
      if middle < |piece| {
        var end := next[middle];
        assert i + 1 < |b| - 1 && end == next[..][b[i + 1]] == b[i + 2];
        var rank := ranks(piece[start..end]);
        if rank.Some? {
          more := more + multiset{Entry(rank.value, start, end)};
        }
      }
    }
  }

  /** Every byte linked to its neighbours. */
  method InitialList(n: nat) returns (next: array<nat>, prev: array<nat>)
    requires n > 0
    ensures fresh(next) && fresh(prev) && next != prev
    ensures Linked(Identity(n), n, next[..], prev[..])
  {
    next := new nat[n](i => i + 1);
    prev := new nat[n](i => if i == 0 then NONE else i - 1);
    ghost var b := Identity(n);
    forall x | 0 <= x < n
      ensures x in b
    {
      assert b[x] == x;
    }
  }

  /** The queue of all adjacent byte pairs that have a rank. */
  method InitialQueue(piece: seq<Byte>, ranks: Ranks) returns (queue: multiset<Entry>)
    requires |piece| >= 2
    ensures Boundaries(Identity(|piece|), |piece|)
    ensures SoundQueue(piece, ranks, queue) && CompleteQueue(piece, ranks, Identity(|piece|), queue)
  {
    ghost var b := Identity(|piece|);
    queue := multiset{};
    for left := 0 to |piece| - 1
      invariant SoundQueue(piece, ranks, queue)
      invariant forall i :: 0 <= i < left ==> Queued(piece, ranks, b, queue, i)
    {
      var rank := ranks(piece[left..left + 2]);
      ghost var before := queue;
      if rank.Some? {
        queue := queue + multiset{Entry(rank.value, left, left + 2)};
      }
      forall i | 0 <= i < left + 1
        ensures Queued(piece, ranks, b, queue, i)
      {
        if i < left {
          assert Queued(piece, ranks, b, before, i);
        }
      }
    }
  }

  /** The pair of a fresh entry is merged in the list, and its new neighbours queued. */
  method MergeEntry(piece: seq<Byte>, ranks: Ranks, next: array<nat>, prev: array<nat>, top: Entry,
                    popped: multiset<Entry>, ghost b: seq<nat>, ghost queue: multiset<Entry>)
    returns (more: multiset<Entry>, ghost after: seq<nat>)
    requires |piece| < NONE && next != prev
    requires Linked(b, |piece|, next[..], prev[..])
    requires SoundQueue(piece, ranks, queue) && CompleteQueue(piece, ranks, b, queue)
    requires top in queue && (forall f :: f in queue ==> Leq(top, f)) && popped == queue - multiset{top}
    requires top.left < |piece| && Fresh(top, |piece|, next[..])
    modifies next, prev
    ensures Linked(after, |piece|, next[..], prev[..])
    ensures SoundQueue(piece, ranks, more) && CompleteQueue(piece, ranks, after, more)
    ensures |after| == |b| - 1 && Merged(piece, ranks, after) == Merged(piece, ranks, b)
    ensures |more| <= |popped| + 2
  {
    ghost var nexts, prevs := next[..], prev[..];
    ghost var i := MergeIsGreedy(piece, ranks, next[..], prev[..], top, popped, b, queue);
    after := Remove(b, i + 1);
    Unlink(next, prev, top.left, next[top.left], top.end);
    assert next[..] == NextAfter(nexts, b, i) && prev[..] == PrevAfter(prevs, b, i);
    assert prev[top.left] == prev[..][b[i]];
    more := PushBoth(piece, ranks, next, prev[top.left], top.left, popped, after, prev[..], i);
  }

  /** Queue the pairs around the merged token. */
  method PushBoth(piece: seq<Byte>, ranks: Ranks, next: array<nat>, before: nat, left: nat, popped: multiset<Entry>,
                  ghost b: seq<nat>, ghost prev: seq<nat>, ghost i: nat)
    returns (more: multiset<Entry>)
    requires Linked(b, |piece|, next[..], prev) && |piece| < NONE && SoundQueue(piece, ranks, popped)
    requires i + 1 < |b| && left == b[i] && before == if i == 0 then NONE else b[i - 1]
    requires forall k :: 0 <= k < |b| - 2 && k != i && k != i - 1 ==> Queued(piece, ranks, b, popped, k)
    ensures SoundQueue(piece, ranks, more) && CompleteQueue(piece, ranks, b, more) && |more| <= |popped| + 2
  {
    var half := Push(piece, ranks, next, before, popped, b, prev, i - 1);
    more := Push(piece, ranks, next, left, half, b, prev, i);
    assert 0 < i && i + 1 < |b| ==> Queued(piece, ranks, b, more, i - 1);
    NearPairsQueued(piece, ranks, b, popped, i, more);
  }

  method Unlink(next: array<nat>, prev: array<nat>, left: nat, middle: nat, end: nat)
    requires left < middle < next.Length && prev.Length == next.Length && next != prev
    modifies next, prev
    ensures next[..] == old(next[..])[left := end][middle := NONE]
    ensures prev[..] == if end < prev.Length then old(prev[..])[end := left] else old(prev[..])
  {
    next[left] := end;
    next[middle] := NONE;
    if end < prev.Length {
      prev[end] := left;
    }
  }

  /** A fresh minimum of the queue is the pair that `count_small` would merge. */
  lemma MergeIsGreedy(piece: seq<Byte>, ranks: Ranks, next: seq<nat>, prev: seq<nat>, top: Entry,
                      popped: multiset<Entry>, b: seq<nat>, queue: multiset<Entry>) returns (i: nat)
    requires |piece| < NONE && Linked(b, |piece|, next, prev)
    requires SoundQueue(piece, ranks, queue) && CompleteQueue(piece, ranks, b, queue)
    requires top in queue && (forall f :: f in queue ==> Leq(top, f)) && popped == queue - multiset{top}
    requires top.left < |piece| && Fresh(top, |piece|, next)
    ensures i + 2 < |b| && top.left == b[i] && top.end == b[i + 2] && next[top.left] == b[i + 1]
    ensures b[i] < b[i + 1] < |piece|
    ensures var after := Remove(b, i + 1);
            Linked(after, |piece|, NextAfter(next, b, i), PrevAfter(prev, b, i))
            && Merged(piece, ranks, after) == Merged(piece, ranks, b)
            && forall k :: 0 <= k < |after| - 2 && k != i && k != i - 1 ==> Queued(piece, ranks, after, popped, k)
    ensures i == 0 ==> PrevAfter(prev, b, i)[b[i]] == NONE
    ensures i > 0 ==> PrevAfter(prev, b, i)[b[i]] == b[i - 1]
  {
    i := FreshIsLive(b, |piece|, next, prev, top);
    PoppedIsBest(piece, ranks, b, queue, top, i);
    BestIsUnique(piece, ranks, b, i);
    MergeKeepsLinks(b, |piece|, next, prev, i);
    FarPairsQueued(piece, ranks, b, queue, top, i, Remove(b, i + 1), popped);
    assert b[i + 2] != b[i];
  }

  /** `count_heap` makes the merges of `count_small`. */
  method CountHeap(piece: seq<Byte>, ranks: Ranks) returns (count: nat)
    requires |piece| < NONE
    ensures count == Count(piece, ranks)
  {
    var n := |piece|;
    if n < 2 {
      ShortPieces(piece, ranks);
      return n;
    }
    var next, prev := InitialList(n);
    var queue := InitialQueue(piece, ranks);
    ghost var b := Identity(n);
    count := n;
    while queue != multiset{}
      invariant Linked(b, n, next[..], prev[..])
      invariant SoundQueue(piece, ranks, queue) && CompleteQueue(piece, ranks, b, queue)
      invariant count == |b| - 1
      invariant Merged(piece, ranks, b) == Merged(piece, ranks, Identity(n))
      decreases 2 * count + |queue|
    {
      var top, popped := Pop(queue);
      var middle := next[top.left];
      if middle >= n || next[middle] != top.end {
        StaleIsNotNeeded(piece, ranks, b, next[..], prev[..], queue, top);
        queue := popped;
        continue;
      }
      queue, b := MergeEntry(piece, ranks, next, prev, top, popped, b, queue);
      count := count - 1;
    }
    EmptyQueueIsDone(piece, ranks, b);
  }

  lemma ShortPieces(piece: seq<Byte>, ranks: Ranks)
    requires |piece| < 2
    ensures Count(piece, ranks) == |piece|
  {
  }

  /** One regex piece: a known token counts once, and the choice between the two
      algorithms by length never shows. */
  method CountPiece(piece: seq<Byte>, ranks: Ranks) returns (count: nat)
    requires |piece| < NONE
    ensures count == if ranks(piece).Some? then 1 else Count(piece, ranks)
  {
    if ranks(piece).Some? {
      count := 1;
    } else if |piece| > 64 {
      count := CountHeap(piece, ranks);
    } else {
      count := CountSmall(piece, ranks);
    }
  }
}

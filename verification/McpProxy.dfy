/** The stdio proxy of `src/mcp_proxy.rs`: a table of pending requests shared by
    the agent thread and the upstream loop, and the rewriting of tool results,
    whose originals go to a store that forgets them (`sqlite.rs`). JSON parsing,
    the compression pipeline and the key function are parameters; each critical
    section of the table is one step. */
module McpProxy {
  import opened Text

  type Id = string

  datatype Request = Request(method_: string, tool: string, query: string)

  /** A client line as `process_agent_line` sees it. */
  datatype AgentLine = Skipped | Cancelled(target: Option<Id>) | Call(id: Id, request: Request)

  datatype Block = TextBlock(text: string) | OtherBlock(json: string)

  datatype ToolResult = NoResult | FailedResult | NoContent | Content(blocks: seq<Block>)

  datatype Parsed = NotJson | HasMethod | NoId | Reply(id: Id, protocolError: bool, result: ToolResult)

  /** A line from the server: its text, whether it is blank, and its JSON. */
  datatype UpstreamLine = UpstreamLine(raw: string, blank: bool, parsed: Parsed)

  datatype Outcome = Ignore | Unmodified | Modified(blocks: seq<Block>)

  type Pending = map<Id, Request>

  type KeyOf = string -> string

  /** The foreign parts of one line: the pipeline's output when it reports a
      saving, whether a write to the store succeeds, and whether a read does. */
  datatype Tools = Tools(compress: (string, string) -> Option<string>, puts: string -> bool, gets: string -> bool)

  // ----- the store

  /** Seconds for which the store keeps a text. */
  const TTL: nat := 1800

  datatype Entry = Entry(text: string, created: nat)

  type Store = map<string, Entry>

  datatype Put = Put(text: string, time: nat)

  /** The store with the history of the writes to it. */
  datatype Cache = Cache(store: Store, puts: seq<Put>)

  predicate Live(entry: Entry, now: nat) {
    now < entry.created + TTL
  }

  /** `put`: a text stored again gets a new time. */
  function Stored(cache: Cache, text: string, now: nat, key: KeyOf): Cache {
    Cache(cache.store[key(text) := Entry(text, now)], cache.puts + [Put(text, now)])
  }

  /** `purge_expired`, with which `get` begins. */
  function Purged(cache: Cache, now: nat): Cache {
    cache.(store := map k | k in cache.store && Live(cache.store[k], now) :: cache.store[k])
  }

  predicate Readable(cache: Cache, k: string, now: nat) {
    k in cache.store && Live(cache.store[k], now)
  }

  /** Time of the last write of a text. */
  function LastPut(puts: seq<Put>, text: string): (time: Option<nat>)
    ensures time.Some? <==> exists i :: 0 <= i < |puts| && puts[i].text == text
    ensures time.Some? ==> exists i :: 0 <= i < |puts| && puts[i] == Put(text, time.value)
  {
    if puts == [] then None
    else
      var n := |puts| - 1;
      if puts[n].text == text then
        assert puts[n] == Put(text, puts[n].time);
        Some(puts[n].time)
      else
        var time := LastPut(puts[..n], text);
        assert time.Some? ==> exists i :: 0 <= i < n && puts[..n][i] == Put(text, time.value) && puts[i] == puts[..n][i];
        time
  }

  // ----- the agent side

  /** `process_agent_line`. */
  function AfterAgent(line: AgentLine, pending: Pending): Pending {
    match line
    case Skipped => pending
    case Cancelled(target) => if target.Some? then pending - {target.value} else pending
    case Call(id, request) => pending[id := request]
  }

  // ----- rewriting one result

  function Hint(key: string): string {
    "[full output: <<ccr:" + key + ">>]"
  }

  /** The compressed text with the key of its original. */
  function Candidate(output: string, key: string): string {
    if Contains(output, Hint(key)) || Contains(output, "<<ccr:" + key) then output
    else if output == "" || EndsWithLf(output) then output + Hint(key)
    else output + "\n" + Hint(key)
  }

  function Written(cache: Cache, text: string, now: nat, tools: Tools, key: KeyOf): Cache {
    if tools.puts(text) then Stored(cache, text, now, key) else cache
  }

  /** One block of `compress_tool_call_result` at time `now`. The original is
      written and read back, and the block is kept where that fails. */
  function Rewrite(block: Block, query: string, cache: Cache, now: nat, tools: Tools, key: KeyOf): (Block, Cache) {
    if !block.TextBlock? || |block.text| < 512 || tools.compress(block.text, query).None? then (block, cache)
    else
      var text := block.text;
      var written := Written(cache, text, now, tools, key);
      var after := Purged(written, now);
      if !tools.gets(text) || !Readable(written, key(text), now) then (block, after)
      else
        var candidate := Candidate(tools.compress(text, query).value, key(text));
        (if |candidate| < |text| then TextBlock(candidate) else block, after)
  }

  function RewriteAll(blocks: seq<Block>, query: string, cache: Cache, now: nat, tools: Tools, key: KeyOf)
    : (r: (seq<Block>, Cache))
    ensures |r.0| == |blocks|
  {
    if blocks == [] then ([], cache)
    else
      var (front, after) := RewriteAll(blocks[..|blocks| - 1], query, cache, now, tools, key);
      var (last, end) := Rewrite(blocks[|blocks| - 1], query, after, now, tools, key);
      (front + [last], end)
  }

  /** A shortened text names the key of its original. */
  lemma CandidateNamesKey(output: string, key: string)
    ensures Contains(Candidate(output, key), "<<ccr:" + key)
  {
    var candidate := Candidate(output, key);
    if candidate != output {
      var front := if output == "" || EndsWithLf(output) then output else output + "\n";
      assert candidate == front + Hint(key);
      MarkInHint(front, key);
    } else if Contains(output, Hint(key)) {
      HintNamesKey(output, key);
    }
  }

  /** The candidate is the output, and the hint where the output lacks the key. */
  lemma CandidateIsHinted(output: string, key: string)
    ensures Hinted(Candidate(output, key), output, key)
  {
    CandidateParts(output, key);
    TailIs(output, HintAfter(output, key));
  }

  lemma CandidateParts(output: string, key: string)
    ensures Candidate(output, key) == output + HintAfter(output, key)
  {
    if Contains(output, Hint(key)) {
      HintNamesKey(output, key);
    }
    Parts(output, Hint(key));
  }

  lemma Parts(output: string, hint: string)
    ensures output + "" == output && output + ("" + hint) == output + hint
    ensures output + ("\n" + hint) == output + "\n" + hint
  {
  }

  lemma TailIs(output: string, tail: string)
    ensures output <= output + tail && (output + tail)[|output|..] == tail
  {
  }

  lemma HintNamesKey(output: string, key: string)
    requires Contains(output, Hint(key))
    ensures Contains(output, "<<ccr:" + key)
  {
    var i :| 0 <= i <= |output| && Hint(key) <= output[i..];
    HintHasMark(key);
    assert output[i + 14..] == output[i..][14..];
    assert "<<ccr:" + key <= output[i + 14..];
  }

  lemma HintHasMark(key: string)
    ensures |Hint(key)| >= 14 && "<<ccr:" + key <= Hint(key)[14..]
    ensures forall s: string :: Hint(key) <= s ==> |s| >= 14 && "<<ccr:" + key <= s[14..]
  {
    var mark := "<<ccr:" + key;
    assert Hint(key) == "[full output: " + (mark + ">>]");
    assert Hint(key)[14..] == mark + ">>]";
    forall s: string | Hint(key) <= s
      ensures |s| >= 14 && mark <= s[14..]
    {
      assert s[14..][..|mark|] == Hint(key)[14..][..|mark|];
    }
  }

  lemma MarkInHint(front: string, key: string)
    ensures Contains(front + Hint(key), "<<ccr:" + key)
  {
    HintHasMark(key);
    assert (front + Hint(key))[|front| + 14..] == Hint(key)[14..];
  }

  // ----- what the store keeps

  /** Keys are content addresses: no two texts share one. */
  ghost predicate ContentAddressed(key: KeyOf) {
    forall s, t :: key(s) == key(t) ==> s == t
  }

  predicate EntryIs(cache: Cache, k: string, now: nat, key: KeyOf)
    requires k in cache.store
  {
    var entry := cache.store[k];
    key(entry.text) == k && entry.created <= now && LastPut(cache.puts, entry.text) == Some(entry.created)
  }

  /** A text that was written is still there, unless its last write has expired. */
  predicate IsKept(cache: Cache, text: string, now: nat, key: KeyOf) {
    match LastPut(cache.puts, text)
    case None => true
    case Some(time) => key(text) in cache.store || time + TTL <= now
  }

  /** The store holds what was last written under each key and not yet purged. */
  ghost predicate Tracks(cache: Cache, now: nat, key: KeyOf) {
    (forall k :: k in cache.store ==> EntryIs(cache, k, now, key))
    && (forall text :: IsKept(cache, text, now, key))
  }

  /** A text can be retrieved if and only if its last write is less than half an
      hour old. */
  lemma RecoverableIffFresh(cache: Cache, now: nat, key: KeyOf, text: string)
    requires ContentAddressed(key) && Tracks(cache, now, key)
    ensures var last := LastPut(cache.puts, text);
            Readable(cache, key(text), now) <==> last.Some? && now < last.value + TTL
    ensures Readable(cache, key(text), now) ==> cache.store[key(text)].text == text
  {
    assert IsKept(cache, text, now, key);
    if key(text) in cache.store {
      assert EntryIs(cache, key(text), now, key);
      assert cache.store[key(text)].text == text;
    }
  }

  lemma LastPutSnoc(puts: seq<Put>, last: Put, text: string)
    ensures LastPut(puts + [last], text) == if last.text == text then Some(last.time) else LastPut(puts, text)
  {
    assert (puts + [last])[..|puts|] == puts;
  }

  lemma StoredTracks(cache: Cache, text: string, now: nat, key: KeyOf)
    requires ContentAddressed(key) && Tracks(cache, now, key)
    ensures Tracks(Stored(cache, text, now, key), now, key)
  {
    var after := Stored(cache, text, now, key);
    forall k | k in after.store
      ensures EntryIs(after, k, now, key)
    {
      LastPutSnoc(cache.puts, Put(text, now), after.store[k].text);
      if k != key(text) {
        assert EntryIs(cache, k, now, key);
      }
    }
    forall other
      ensures IsKept(after, other, now, key)
    {
      LastPutSnoc(cache.puts, Put(text, now), other);
      assert IsKept(cache, other, now, key);
    }
  }

  lemma PurgedTracks(cache: Cache, now: nat, key: KeyOf)
    requires ContentAddressed(key) && Tracks(cache, now, key)
    ensures Tracks(Purged(cache, now), now, key)
  {
    var after := Purged(cache, now);
    forall k | k in after.store
      ensures EntryIs(after, k, now, key)
    {
      assert EntryIs(cache, k, now, key);
    }
    forall text
      ensures IsKept(after, text, now, key)
    {
      assert IsKept(cache, text, now, key);
      if key(text) in cache.store {
        assert EntryIs(cache, key(text), now, key);
      }
    }
  }

  lemma LaterTracks(cache: Cache, now: nat, later: nat, key: KeyOf)
    requires Tracks(cache, now, key) && now <= later
    ensures Tracks(cache, later, key)
  {
    forall k | k in cache.store
      ensures EntryIs(cache, k, later, key)
    {
      assert EntryIs(cache, k, now, key);
    }
    forall text
      ensures IsKept(cache, text, later, key)
    {
      assert IsKept(cache, text, now, key);
    }
  }

  /** A write of the text that was readable at that time. */
  ghost predicate WasReadable(puts: seq<Put>, text: string, time: nat) {
    exists i :: 0 <= i < |puts| && puts[i].text == text && puts[i].time <= time < puts[i].time + TTL
  }

  lemma WasReadableLater(puts: seq<Put>, later: seq<Put>, text: string, time: nat)
    requires WasReadable(puts, text, time) && puts <= later
    ensures WasReadable(later, text, time)
  {
    var i :| 0 <= i < |puts| && puts[i].text == text && puts[i].time <= time < puts[i].time + TTL;
    assert later[i] == puts[i];
  }

  lemma ReadableNow(cache: Cache, text: string, now: nat, key: KeyOf)
    requires ContentAddressed(key) && Tracks(cache, now, key) && Readable(cache, key(text), now)
    ensures WasReadable(cache.puts, text, now)
  {
    RecoverableIffFresh(cache, now, key, text);
    assert EntryIs(cache, key(text), now, key);
    var i :| 0 <= i < |cache.puts| && cache.puts[i] == Put(text, LastPut(cache.puts, text).value);
  }

  // ----- what a rewriting may do

  /** What one line is rewritten with. */
  datatype Use = Use(tools: Tools, query: string, time: nat, key: KeyOf)

  /** Nothing if the output already names the key, and otherwise the hint on a row
      of its own. */
  function HintAfter(output: string, key: string): string {
    if Contains(output, "<<ccr:" + key) then ""
    else (if output == "" || EndsWithLf(output) then "" else "\n") + ("[full output: <<ccr:" + key + ">>]")
  }

  predicate Hinted(text: string, output: string, key: string) {
    output <= text && text[|output|..] == HintAfter(output, key)
  }

  /** A long text became the shorter output of the pipeline for this very text and
      the query of its request, with the key under which it could be read then. */
  ghost predicate Shortened(before: string, after: string, puts: seq<Put>, use: Use) {
    |after| < |before| && |before| >= 512 && WasReadable(puts, before, use.time)
    && Contains(after, "<<ccr:" + use.key(before))
    && use.tools.compress(before, use.query).Some?
    && Hinted(after, use.tools.compress(before, use.query).value, use.key(before))
  }

  /** The tools give a shorter text for this one. */
  predicate Shortenable(before: string, use: Use) {
    |before| >= 512 && use.tools.puts(before) && use.tools.gets(before)
    && use.tools.compress(before, use.query).Some?
    && var output := use.tools.compress(before, use.query).value;
       |output| + |HintAfter(output, use.key(before))| < |before|
  }

  /** A block is the original or a shortened text; where the tools give a shorter
      one it is shortened. */
  ghost predicate Shortens(before: Block, after: Block, puts: seq<Put>, use: Use) {
    (after == before || (before.TextBlock? && after.TextBlock? && Shortened(before.text, after.text, puts, use)))
    && (before.TextBlock? && Shortenable(before.text, use) ==> after != before)
  }

  ghost predicate AllShorten(before: seq<Block>, after: seq<Block>, puts: seq<Put>, use: Use) {
    |after| == |before| && forall i :: 0 <= i < |before| ==> Shortens(before[i], after[i], puts, use)
  }

  lemma ShortensLater(before: Block, after: Block, puts: seq<Put>, later: seq<Put>, use: Use)
    requires Shortens(before, after, puts, use) && puts <= later
    ensures Shortens(before, after, later, use)
  {
    if after != before {
      WasReadableLater(puts, later, before.text, use.time);
    }
  }

  lemma AllShortenLater(before: seq<Block>, after: seq<Block>, puts: seq<Put>, later: seq<Put>, use: Use)
    requires AllShorten(before, after, puts, use) && puts <= later
    ensures AllShorten(before, after, later, use)
  {
    forall i | 0 <= i < |before|
      ensures Shortens(before[i], after[i], later, use)
    {
      ShortensLater(before[i], after[i], puts, later, use);
    }
  }

  lemma RewriteShortens(block: Block, query: string, cache: Cache, now: nat, tools: Tools, key: KeyOf)
    requires ContentAddressed(key) && Tracks(cache, now, key)
    ensures var (after, end) := Rewrite(block, query, cache, now, tools, key);
            Shortens(block, after, end.puts, Use(tools, query, now, key)) && Tracks(end, now, key) && cache.puts <= end.puts
  {
    if block.TextBlock? && |block.text| >= 512 && tools.compress(block.text, query).Some? {
      var text := block.text;
      CandidateNamesKey(tools.compress(text, query).value, key(text));
      CandidateIsHinted(tools.compress(text, query).value, key(text));
      WrittenTracks(cache, text, now, tools, key);
    }
  }

  lemma WrittenTracks(cache: Cache, text: string, now: nat, tools: Tools, key: KeyOf)
    requires ContentAddressed(key) && Tracks(cache, now, key)
    ensures var written := Written(cache, text, now, tools, key);
            Tracks(Purged(written, now), now, key) && cache.puts <= written.puts
            && (Readable(written, key(text), now) ==> WasReadable(written.puts, text, now))
  {
    var written := Written(cache, text, now, tools, key);
    StoredTracks(cache, text, now, key);
    PurgedTracks(written, now, key);
    if Readable(written, key(text), now) {
      ReadableNow(written, text, now, key);
    }
  }

  /** Each block is left alone or shortened; the writes to the store only grow. */
  lemma {:induction false} RewriteAllShortens(blocks: seq<Block>, query: string, cache: Cache, now: nat, tools: Tools,
                                              key: KeyOf)
    requires ContentAddressed(key) && Tracks(cache, now, key)
    ensures var (after, end) := RewriteAll(blocks, query, cache, now, tools, key);
            AllShorten(blocks, after, end.puts, Use(tools, query, now, key)) && Tracks(end, now, key) && cache.puts <= end.puts
  {
    if blocks != [] {
      var n := |blocks| - 1;
      RewriteAllShortens(blocks[..n], query, cache, now, tools, key);
      var (front, middle) := RewriteAll(blocks[..n], query, cache, now, tools, key);
      RewriteShortens(blocks[n], query, middle, now, tools, key);
      var (last, end) := Rewrite(blocks[n], query, middle, now, tools, key);
      AllShortenLater(blocks[..n], front, middle.puts, end.puts, Use(tools, query, now, key));
      SnocShortens(blocks, front, last, end.puts, Use(tools, query, now, key));
    }
  }

  lemma SnocShortens(blocks: seq<Block>, front: seq<Block>, last: Block, puts: seq<Put>, use: Use)
    requires blocks != [] && AllShorten(blocks[..|blocks| - 1], front, puts, use)
    requires Shortens(blocks[|blocks| - 1], last, puts, use)
    ensures AllShorten(blocks, front + [last], puts, use)
  {
    forall i | 0 <= i < |blocks|
      ensures Shortens(blocks[i], (front + [last])[i], puts, use)
    {
      if i < |front| {
        assert Shortens(blocks[..|blocks| - 1][i], front[i], puts, use);
      }
    }
  }

  // ----- the upstream side

  /** `process_upstream_line` at time `now`: outcome, table and store after it. */
  function AfterUpstream(line: UpstreamLine, pending: Pending, cache: Cache, now: nat, tools: Tools, key: KeyOf)
    : (Outcome, Pending, Cache)
  {
    if line.blank then (Ignore, pending, cache)
    else if !line.parsed.Reply? || line.parsed.id !in pending then (Unmodified, pending, cache)
    else
      var request := pending[line.parsed.id];
      var left := pending - {line.parsed.id};
      if request.method_ != "tools/call" || line.parsed.protocolError || !line.parsed.result.Content?
      then (Unmodified, left, cache)
      else
        var blocks := line.parsed.result.blocks;
        var (after, end) := RewriteAll(blocks, request.query, cache, now, tools, key);
        (if after != blocks then Modified(after) else Unmodified, left, end)
  }

  class Proxy {
    var pending: Pending
    var store: Store
    ghost var puts: seq<Put>
    const key: KeyOf

    ghost function Stores(): Cache
      reads this
    {
      Cache(store, puts)
    }

    constructor (store: Store, ghost puts: seq<Put>, key: KeyOf)
      ensures pending == map[] && Stores() == Cache(store, puts) && this.key == key
    {
      pending, this.store, this.puts, this.key := map[], store, puts, key;
    }

    method ProcessAgentLine(line: AgentLine)
      modifies this`pending
      ensures pending == AfterAgent(line, old(pending))
    {
      match line
      case Skipped =>
      case Cancelled(target) =>
        if target.Some? {
          pending := pending - {target.value};
        }
      case Call(id, request) =>
        pending := pending[id := request];
    }

    method ProcessUpstreamLine(line: UpstreamLine, now: nat, tools: Tools) returns (outcome: Outcome)
      modifies this
      ensures (outcome, pending, Stores()) == AfterUpstream(line, old(pending), old(Stores()), now, tools, key)
    {
      if line.blank {
        return Ignore;
      }
      if !line.parsed.Reply? || line.parsed.id !in pending {
        return Unmodified;
      }
      var request := pending[line.parsed.id];
      pending := pending - {line.parsed.id};
      if request.method_ != "tools/call" || line.parsed.protocolError {
        return Unmodified;
      }
      match line.parsed.result
      case Content(blocks) =>
        var after := CompressResult(blocks, request.query, now, tools);
        outcome := if after != blocks then Modified(after) else Unmodified;
      case _ =>
        outcome := Unmodified;
    }

    /** `compress_tool_call_result` on the content blocks. */
    method CompressResult(blocks: seq<Block>, query: string, now: nat, tools: Tools) returns (after: seq<Block>)
      modifies this`store, this`puts
      ensures (after, Stores()) == RewriteAll(blocks, query, old(Stores()), now, tools, key)
    {
      after := [];
      var i := 0;
      while i < |blocks|
        invariant i <= |blocks| && (after, Stores()) == RewriteAll(blocks[..i], query, old(Stores()), now, tools, key)
      {
        assert blocks[..i + 1][..i] == blocks[..i];
        var block := CompressBlock(blocks[i], query, now, tools);
        after := after + [block];
        i := i + 1;
      }
      assert blocks[..i] == blocks;
    }

    method CompressBlock(block: Block, query: string, now: nat, tools: Tools) returns (after: Block)
      modifies this`store, this`puts
      ensures (after, Stores()) == Rewrite(block, query, old(Stores()), now, tools, key)
    {
      after := block;
      if !block.TextBlock? || |block.text| < 512 {
        return;
      }
      var text, report := block.text, tools.compress(block.text, query);
      if report.None? {
        return;
      }
      if tools.puts(text) {
        store, puts := store[key(text) := Entry(text, now)], puts + [Put(text, now)];
      }
      store := map k | k in store && Live(store[k], now) :: store[k];
      if !tools.gets(text) || key(text) !in store {
        return;
      }
      var candidate := Candidate(report.value, key(text));
      if |candidate| < |text| {
        after := TextBlock(candidate);
      }
    }
  }

  // ----- runs of the two threads

  /** What the client is sent: a line as it came, a rewritten reply or an error. */
  datatype Out = Raw(line: UpstreamLine) | Rewritten(id: Id, blocks: seq<Block>) | ErrorReply(id: Id)

  /** One upstream line with the request it consumed, if any, its outcome and its time. */
  datatype Handled = Handled(line: UpstreamLine, request: Option<Request>, outcome: Outcome, time: nat, tools: Tools)

  datatype Phase = Running | Closed | Finished

  /** One line of the server's output; one that is no UTF-8 ends the reading. */
  datatype ServerLine = Valid(line: UpstreamLine) | Invalid

  /** `server` is all that the server writes, `read` how much of it was handled. */
  datatype State = State(
    pending: Pending, cache: Cache, now: nat, sent: seq<Out>, phase: Phase, log: seq<Handled>, drained: seq<Id>,
    server: seq<ServerLine>, read: nat)

  /** `Wait` moves the clock; `Keep` and `Retrieve` are writes and reads of the
      store from outside the loop. */
  datatype Action =
    | Agent(message: AgentLine)
    | Upstream(line: UpstreamLine, tools: Tools)
    | Wait(seconds: nat)
    | Keep(text: string)
    | Retrieve
    | Close
    | Drain(order: seq<Id>)

  /** An enumeration of the table, as `drain` may produce it. */
  predicate Enumerates(order: seq<Id>, pending: Pending) {
    (forall i, j :: 0 <= i < j < |order| ==> order[i] != order[j])
    && (forall i :: 0 <= i < |order| ==> order[i] in pending)
    && (forall id :: id in pending ==> id in order)
  }

  predicate Enabled(s: State, a: Action) {
    match a
    case Upstream(line, _) => s.phase.Running? && s.read < |s.server| && s.server[s.read] == Valid(line)
    case Close => s.phase.Running? && (s.read < |s.server| ==> s.server[s.read].Invalid?)
    case Drain(order) => s.phase.Closed? && Enumerates(order, s.pending)
    case _ => true
  }

  function OutOf(h: Handled): seq<Out> {
    match h.outcome
    case Ignore => []
    case Unmodified => [Raw(h.line)]
    case Modified(blocks) => if h.line.parsed.Reply? then [Rewritten(h.line.parsed.id, blocks)] else []
  }

  function Errors(ids: seq<Id>): (replies: seq<Out>)
    ensures |replies| == |ids| && forall i :: 0 <= i < |ids| ==> replies[i] == ErrorReply(ids[i])
  {
    if ids == [] then [] else [ErrorReply(ids[0])] + Errors(ids[1..])
  }

  predicate Answers(line: UpstreamLine, id: Id) {
    !line.blank && line.parsed.Reply? && line.parsed.id == id
  }

  function Consumed(line: UpstreamLine, pending: Pending): Option<Request> {
    if !line.blank && line.parsed.Reply? && line.parsed.id in pending then Some(pending[line.parsed.id]) else None
  }

  function Next(s: State, a: Action, key: KeyOf): State
    requires Enabled(s, a)
  {
    match a
    case Agent(message) => s.(pending := AfterAgent(message, s.pending))
    case Upstream(line, tools) =>
      var (outcome, pending, cache) := AfterUpstream(line, s.pending, s.cache, s.now, tools, key);
      var handled := Handled(line, Consumed(line, s.pending), outcome, s.now, tools);
      s.(pending := pending, cache := cache, sent := s.sent + OutOf(handled), log := s.log + [handled],
         read := s.read + 1)
    case Wait(seconds) => s.(now := s.now + seconds)
    case Keep(text) => s.(cache := Stored(s.cache, text, s.now, key))
    case Retrieve => s.(cache := Purged(s.cache, s.now))
    case Close => s.(phase := Closed)
    case Drain(order) =>
      s.(pending := map[], sent := s.sent + Errors(order), phase := Finished, drained := order)
  }

  function Outs(log: seq<Handled>): seq<Out> {
    if log == [] then [] else Outs(log[..|log| - 1]) + OutOf(log[|log| - 1])
  }

  /** The line answered a pending tool call, and not with an error. */
  predicate AnswersTool(h: Handled) {
    !h.line.blank && h.request.Some? && h.request.value.method_ == "tools/call"
    && h.line.parsed.Reply? && !h.line.parsed.protocolError && h.line.parsed.result.Content?
  }

  /** The blocks that the client reads in an answer. */
  function BlocksIn(out: Out): seq<Block> {
    match out
    case Raw(line) => if line.parsed.Reply? && line.parsed.result.Content? then line.parsed.result.blocks else []
    case Rewritten(_, blocks) => blocks
    case ErrorReply(_) => []
  }

  /** The blocks that the client is sent for one line. */
  function ShownBlocks(h: Handled): seq<Block> {
    if OutOf(h) == [] then [] else BlocksIn(OutOf(h)[0])
  }

  function UseOf(h: Handled, key: KeyOf): Use {
    Use(h.tools, if h.request.Some? then h.request.value.query else "", h.time, key)
  }

  /** The line itself, or an answer to the call that the line answered. */
  predicate IsFor(out: Out, h: Handled) {
    out == Raw(h.line) || (AnswersTool(h) && out.Rewritten? && out.id == h.line.parsed.id)
  }

  /** A line is dropped only if blank, and rewritten only if it answered a pending
      tool call without an error; each block of such an answer is shown as it came
      or shortened, with the query of the request, and shortened wherever the tools
      give a shorter text. */
  ghost predicate Faithful(h: Handled, puts: seq<Put>, key: KeyOf) {
    (OutOf(h) == [] <==> h.line.blank) && (OutOf(h) != [] ==> |OutOf(h)| == 1 && IsFor(OutOf(h)[0], h))
    && (h.outcome.Modified? ==> AnswersTool(h) && h.outcome.blocks != h.line.parsed.result.blocks)
    && (AnswersTool(h) ==> AllShorten(h.line.parsed.result.blocks, ShownBlocks(h), puts, UseOf(h, key)))
  }

  ghost predicate AllFaithful(log: seq<Handled>, puts: seq<Put>, key: KeyOf) {
    forall i :: 0 <= i < |log| ==> Faithful(log[i], puts, key)
  }

  /** What the client has received: the outcome of each line, then the drain. */
  predicate SentIsLog(s: State) {
    s.sent == Outs(s.log) + Errors(s.drained)
    && (s.drained != [] ==> s.phase.Finished?)
    && (forall i, j :: 0 <= i < j < |s.drained| ==> s.drained[i] != s.drained[j])
  }

  ghost predicate Inv(s: State, key: KeyOf) {
    Tracks(s.cache, s.now, key) && SentIsLog(s) && AllFaithful(s.log, s.cache.puts, key)
  }

  lemma FaithfulLater(h: Handled, puts: seq<Put>, later: seq<Put>, key: KeyOf)
    requires Faithful(h, puts, key) && puts <= later
    ensures Faithful(h, later, key)
  {
    if AnswersTool(h) {
      AllShortenLater(h.line.parsed.result.blocks, ShownBlocks(h), puts, later, UseOf(h, key));
    }
  }

  lemma LogLater(log: seq<Handled>, puts: seq<Put>, later: seq<Put>, key: KeyOf)
    requires AllFaithful(log, puts, key) && puts <= later
    ensures AllFaithful(log, later, key)
  {
    forall i | 0 <= i < |log|
      ensures Faithful(log[i], later, key)
    {
      FaithfulLater(log[i], puts, later, key);
    }
  }

  lemma UpstreamIsFaithful(line: UpstreamLine, pending: Pending, cache: Cache, now: nat, tools: Tools, key: KeyOf)
    requires ContentAddressed(key) && Tracks(cache, now, key)
    ensures var (outcome, left, end) := AfterUpstream(line, pending, cache, now, tools, key);
            Faithful(Handled(line, Consumed(line, pending), outcome, now, tools), end.puts, key)
            && Tracks(end, now, key) && cache.puts <= end.puts
  {
    if Consumed(line, pending).Some? && line.parsed.result.Content? {
      RewriteAllShortens(line.parsed.result.blocks, pending[line.parsed.id].query, cache, now, tools, key);
    }
  }

  lemma UpstreamStep(s: State, line: UpstreamLine, tools: Tools, key: KeyOf)
    requires ContentAddressed(key) && Inv(s, key) && Enabled(s, Upstream(line, tools))
    ensures Inv(Next(s, Upstream(line, tools), key), key)
  {
    var next := Next(s, Upstream(line, tools), key);
    UpstreamIsFaithful(line, s.pending, s.cache, s.now, tools, key);
    UpstreamSends(s, line, tools, key);
    LogLater(s.log, s.cache.puts, next.cache.puts, key);
    LogSnoc(s.log, next.log[|s.log|], next.cache.puts, key);
  }

  lemma LogSnoc(log: seq<Handled>, last: Handled, puts: seq<Put>, key: KeyOf)
    requires AllFaithful(log, puts, key) && Faithful(last, puts, key)
    ensures AllFaithful(log + [last], puts, key)
  {
  }

  lemma UpstreamSends(s: State, line: UpstreamLine, tools: Tools, key: KeyOf)
    requires SentIsLog(s) && Enabled(s, Upstream(line, tools))
    ensures SentIsLog(Next(s, Upstream(line, tools), key)) && Next(s, Upstream(line, tools), key).drained == []
  {
    var next := Next(s, Upstream(line, tools), key);
    assert next.log[..|s.log|] == s.log;
    assert s.sent == Outs(s.log);
    assert next.sent == Outs(next.log);
  }

  lemma KeepStep(s: State, text: string, key: KeyOf)
    requires ContentAddressed(key) && Inv(s, key)
    ensures Inv(Next(s, Keep(text), key), key)
  {
    StoredTracks(s.cache, text, s.now, key);
    LogLater(s.log, s.cache.puts, Next(s, Keep(text), key).cache.puts, key);
  }

  /** Every step of either thread, of the clock and of the store keeps the invariant. */
  lemma StepHolds(s: State, a: Action, key: KeyOf)
    requires ContentAddressed(key) && Inv(s, key) && Enabled(s, a)
    ensures Inv(Next(s, a, key), key)
  {
    match a
    case Upstream(line, tools) => UpstreamStep(s, line, tools, key);
    case Wait(seconds) => LaterTracks(s.cache, s.now, s.now + seconds, key);
    case Keep(text) => KeepStep(s, text, key);
    case Retrieve => PurgedTracks(s.cache, s.now, key);
    case Drain(order) =>
      assert s.drained == [] && s.sent == Outs(s.log);
    case _ =>
  }

  ghost predicate Run(states: seq<State>, actions: seq<Action>, key: KeyOf) {
    |states| == |actions| + 1
    && Tracks(states[0].cache, states[0].now, key)
    && states[0] == State(map[], states[0].cache, states[0].now, [], Running, [], [], states[0].server, 0)
    && forall i :: 0 <= i < |actions| ==>
         Enabled(states[i], actions[i]) && states[i + 1] == Next(states[i], actions[i], key)
  }

  /** Over any run, the client receives the server's non-blank lines in order, each
      as it came or faithfully shortened, and then the error replies of the drain. */
  lemma {:induction false} RunKeepsAnswers(states: seq<State>, actions: seq<Action>, key: KeyOf)
    requires ContentAddressed(key) && Run(states, actions, key)
    ensures Inv(states[|actions|], key)
  {
    var n := |actions|;
    if n == 0 {
      assert Outs([]) + Errors([]) == [];
    } else {
      RunKeepsAnswers(states[..n], actions[..n - 1], key);
      StepHolds(states[n - 1], actions[n - 1], key);
      assert states[n - 1 + 1] == Next(states[n - 1], actions[n - 1], key);
    }
  }

  // ----- how long an original stays recoverable

  /** The original of a rewritten block could be read when its line was sent, and
      can be read later exactly until half an hour after its last write. */
  lemma OriginalsStayUntilExpiry(states: seq<State>, actions: seq<Action>, key: KeyOf, i: nat, b: nat)
    requires ContentAddressed(key) && Run(states, actions, key)
    requires i < |states[|actions|].log| && states[|actions|].log[i].outcome.Modified?
    ensures var s := states[|actions|];
            var h := s.log[i];
            h.line.parsed.Reply? && h.line.parsed.result.Content?
            && |h.outcome.blocks| == |h.line.parsed.result.blocks|
    ensures var s := states[|actions|];
            var h := s.log[i];
            b < |h.outcome.blocks| && h.outcome.blocks[b] != h.line.parsed.result.blocks[b] ==>
              h.line.parsed.result.blocks[b].TextBlock?
              && var text := h.line.parsed.result.blocks[b].text;
                 WasReadable(s.cache.puts, text, h.time) && LastPut(s.cache.puts, text).Some?
                 && (Readable(s.cache, key(text), s.now) <==> s.now < LastPut(s.cache.puts, text).value + TTL)
                 && (Readable(s.cache, key(text), s.now) ==> s.cache.store[key(text)].text == text)
  {
    var s := states[|actions|];
    RunKeepsAnswers(states, actions, key);
    var h := s.log[i];
    assert Faithful(h, s.cache.puts, key);
    if b < |h.outcome.blocks| && h.outcome.blocks[b] != h.line.parsed.result.blocks[b] {
      assert Shortens(h.line.parsed.result.blocks[b], h.outcome.blocks[b], s.cache.puts, UseOf(h, key));
      RecoverableIffFresh(s.cache, s.now, key, h.line.parsed.result.blocks[b].text);
    }
  }

  /** One tool call, its answer and half an hour. */
  function LosingRun(text: string, tools: Tools): seq<Action> {
    [Agent(Call("1", Request("tools/call", "", ""))), Upstream(LongReply(text), tools), Wait(TTL)]
  }

  function LongReply(text: string): UpstreamLine {
    UpstreamLine("", false, Reply("1", false, Content([TextBlock(text)])))
  }

  /** Whatever text is shortened, half an hour without another write loses it. */
  lemma ExpiryLoses(text: string, tools: Tools, key: KeyOf) returns (states: seq<State>)
    requires ContentAddressed(key)
    requires |text| >= 512 && tools.compress(text, "").Some? && tools.puts(text) && tools.gets(text)
    requires |Candidate(tools.compress(text, "").value, key(text))| < |text|
    ensures Run(states, LosingRun(text, tools), key)
    ensures |states[3].log| == 1 && states[3].log[0].outcome.Modified?
    ensures Readable(states[2].cache, key(text), states[2].now)
    ensures !Readable(states[3].cache, key(text), states[3].now)
  {
    var actions := LosingRun(text, tools);
    var s0 := State(map[], Cache(map[], []), 0, [], Running, [], [], [Valid(LongReply(text))], 0);
    var s1 := Next(s0, actions[0], key);
    RewriteOne(text, Cache(map[], []), 0, tools, key);
    var s2 := Next(s1, actions[1], key);
    var s3 := Next(s2, actions[2], key);
    states := [s0, s1, s2, s3];
  }

  /** The first rewriting of one long text. */
  lemma RewriteOne(text: string, cache: Cache, now: nat, tools: Tools, key: KeyOf)
    requires |text| >= 512 && tools.compress(text, "").Some? && tools.puts(text) && tools.gets(text)
    requires |Candidate(tools.compress(text, "").value, key(text))| < |text|
    ensures var (after, end) := RewriteAll([TextBlock(text)], "", cache, now, tools, key);
            after != [TextBlock(text)] && key(text) in end.store && end.store[key(text)] == Entry(text, now)
  {
    var blocks := [TextBlock(text)];
    assert blocks[..0] == [];
    assert RewriteAll(blocks[..0], "", cache, now, tools, key) == ([], cache);
    var (last, end) := Rewrite(blocks[0], "", cache, now, tools, key);
    assert [] + [last] == [last];
    assert blocks[|blocks| - 1] == blocks[0] && blocks[..|blocks| - 1] == blocks[..0];
    assert RewriteAll(blocks, "", cache, now, tools, key) == ([last], end);
    assert last != blocks[0];
  }

  lemma CandidateSize(output: string, key: string)
    ensures |Candidate(output, key)| <= |output| + 1 + |Hint(key)|
    ensures |Hint(key)| == |key| + 23
  {
  }

  /** Such a run exists: the store forgets an original that the client was told of. */
  lemma ExpiryHappens() returns (text: string, tools: Tools, key: KeyOf, states: seq<State>)
    ensures ContentAddressed(key) && Run(states, LosingRun(text, tools), key)
    ensures |states[3].log| == 1 && states[3].log[0].outcome.Modified?
    ensures Readable(states[2].cache, key(text), states[2].now)
    ensures !Readable(states[3].cache, key(text), states[3].now)
  {
    text := seq(600, _ => 'a');
    tools := Tools((_, _) => Some("short"), _ => true, _ => true);
    key := ShortKeyFor(text);
    CandidateSize("short", key(text));
    states := ExpiryLoses(text, tools, key);
  }

  /** A content address that is short for one text. */
  lemma ShortKeyFor(text: string) returns (key: KeyOf)
    ensures ContentAddressed(key) && key(text) == "k"
  {
    key := s => if s == text then "k" else "kk" + s;
    forall s, t | key(s) == key(t)
      ensures s == t
    {
      if s != text && t != text {
        assert ("kk" + s)[2..] == s && ("kk" + t)[2..] == t;
      }
    }
  }

  // ----- where the entries of the table come from

  predicate IsCall(a: Action, id: Id) {
    match a
    case Agent(message) => message.Call? && message.id == id
    case _ => false
  }

  /** A cancellation or an answer, from the server or by the drain. */
  predicate Settles(a: Action, id: Id) {
    match a
    case Agent(message) => message.Cancelled? && message.target == Some(id)
    case Upstream(line, _) => Answers(line, id)
    case Drain(_) => true
    case _ => false
  }

  /** Step `k` is a call that no step before `n` repeats, cancels or answers. */
  predicate Outstanding(actions: seq<Action>, id: Id, k: nat, n: nat) {
    k < n <= |actions| && IsCall(actions[k], id)
    && forall j :: k < j < n ==> !IsCall(actions[j], id) && !Settles(actions[j], id)
  }

  lemma OutstandingStep(actions: seq<Action>, id: Id, k: nat, n: nat)
    requires n < |actions|
    ensures Outstanding(actions, id, k, n + 1)
            <==> if IsCall(actions[n], id) then k == n else Outstanding(actions, id, k, n) && !Settles(actions[n], id)
  {
  }

  lemma TableStep(s: State, a: Action, key: KeyOf, id: Id)
    requires Enabled(s, a)
    ensures var next := Next(s, a, key);
            if IsCall(a, id) then id in next.pending && next.pending[id] == a.message.request
            else if Settles(a, id) then id !in next.pending
            else (id in next.pending <==> id in s.pending) && (id in s.pending ==> next.pending[id] == s.pending[id])
  {
  }

  /** The table holds exactly the calls of this run that have been neither
      cancelled nor answered since, each with the request of its call. */
  lemma {:induction false} TableIsOutstanding(states: seq<State>, actions: seq<Action>, key: KeyOf, id: Id, n: nat)
    requires Run(states, actions, key) && n <= |actions|
    ensures id in states[n].pending <==> exists k: nat :: Outstanding(actions, id, k, n)
    ensures forall k: nat :: Outstanding(actions, id, k, n) ==>
              id in states[n].pending && states[n].pending[id] == actions[k].message.request
  {
    if n > 0 {
      var a := actions[n - 1];
      TableIsOutstanding(states, actions, key, id, n - 1);
      TableStep(states[n - 1], a, key, id);
      assert states[n - 1 + 1] == Next(states[n - 1], a, key);
      forall k: nat
        ensures Outstanding(actions, id, k, n)
                <==> if IsCall(a, id) then k == n - 1 else Outstanding(actions, id, k, n - 1) && !Settles(a, id)
      {
        OutstandingStep(actions, id, k, n - 1);
      }
      if IsCall(a, id) {
        assert Outstanding(actions, id, n - 1, n);
      } else if !Settles(a, id) && id in states[n - 1].pending {
        var k: nat :| Outstanding(actions, id, k, n - 1);
        assert Outstanding(actions, id, k, n);
      }
    }
  }

  /** A rewritten reply answers a tool call that the client made in this run and
      that is still outstanding. */
  lemma RewritesAnswerCalls(states: seq<State>, actions: seq<Action>, key: KeyOf, m: nat) returns (k: nat)
    requires ContentAddressed(key) && Run(states, actions, key) && m < |actions| && actions[m].Upstream?
    requires states[m + 1].log[|states[m].log|].outcome.Modified?
    ensures actions[m].line.parsed.Reply? && Settles(actions[m], actions[m].line.parsed.id)
    ensures Outstanding(actions, actions[m].line.parsed.id, k, m)
    ensures actions[k].message.request.method_ == "tools/call"
  {
    var line, s := actions[m].line, states[m];
    assert states[m + 1] == Next(s, actions[m], key);
    assert Consumed(line, s.pending).Some?;
    var id := line.parsed.id;
    TableIsOutstanding(states, actions, key, id, m);
    k :| Outstanding(actions, id, k, m);
  }

  // ----- the drain

  /** When the drain ends the run, every request still pending has been answered by
      exactly one error reply, and nothing else has. */
  lemma DrainAnswersAll(s: State, order: seq<Id>, key: KeyOf, id: Id)
    requires Inv(s, key) && Enabled(s, Drain(order))
    ensures var next := Next(s, Drain(order), key);
            next.sent == s.sent + Errors(order) && next.pending == map[]
            && multiset(Errors(order))[ErrorReply(id)] == if id in s.pending then 1 else 0
  {
    ErrorsOnce(order, id);
  }

  lemma {:induction false} ErrorsOnce(order: seq<Id>, id: Id)
    requires forall i, j :: 0 <= i < j < |order| ==> order[i] != order[j]
    ensures multiset(Errors(order))[ErrorReply(id)] == if id in order then 1 else 0
  {
    if order != [] {
      ErrorsOnce(order[1..], id);
      assert Errors(order) == [ErrorReply(order[0])] + Errors(order[1..]);
      assert order == [order[0]] + order[1..];
    }
  }
}

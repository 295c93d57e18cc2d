/** What the client of the proxy is sent over whole runs (`run_mcp_proxy` in
    `src/mcp_proxy.rs`): which lines of the server reach it, and how often each
    of its requests is answered. */
module ProxyRuns {
  import opened Text
  import opened McpProxy

  // ----- which lines are shown

  /** The first line that is no UTF-8, or the number of lines. */
  function FirstInvalid(server: seq<ServerLine>): (k: nat)
    ensures k <= |server|
    ensures forall i :: 0 <= i < k ==> server[i].Valid?
    ensures k < |server| ==> server[k].Invalid?
  {
    if server == [] || server[0].Invalid? then 0 else 1 + FirstInvalid(server[1..])
  }

  predicate AllValid(server: seq<ServerLine>) {
    forall i :: 0 <= i < |server| ==> server[i].Valid?
  }

  function LineOf(line: ServerLine): seq<UpstreamLine> {
    if line.Valid? && !line.line.blank then [line.line] else []
  }

  /** The valid lines among the first `n`, without the blank ones. */
  function NonBlank(server: seq<ServerLine>, n: nat): seq<UpstreamLine>
    requires n <= |server|
  {
    if n == 0 then [] else NonBlank(server, n - 1) + LineOf(server[n - 1])
  }

  /** How many of the first `n` lines are not blank, valid or not. */
  function Written(server: seq<ServerLine>, n: nat): nat
    requires n <= |server|
  {
    if n == 0 then 0
    else Written(server, n - 1) + if server[n - 1].Valid? && server[n - 1].line.blank then 0 else 1
  }

  /** What each shown line was before: its own text, or the reply it rewrites. */
  predicate Shows(out: Out, line: UpstreamLine) {
    out == Raw(line) || (out.Rewritten? && line.parsed.Reply? && out.id == line.parsed.id)
  }

  predicate ShowsAll(outs: seq<Out>, lines: seq<UpstreamLine>) {
    |outs| == |lines| && forall i :: 0 <= i < |outs| ==> Shows(outs[i], lines[i])
  }

  /** What one handled line sends. */
  lemma OneLine(line: UpstreamLine, pending: Pending, cache: Cache, now: nat, tools: Tools, key: KeyOf)
    ensures var out := OutOf(Handled(line, Consumed(line, pending),
                                     AfterUpstream(line, pending, cache, now, tools, key).0, now, tools));
            ShowsAll(out, LineOf(Valid(line))) && |out| <= 1
            && (out != [] && out[0].Rewritten? ==> Consumed(line, pending).Some?)
  {
  }

  predicate Reading(s: State) {
    s.read <= FirstInvalid(s.server) && (!s.phase.Running? ==> s.read == FirstInvalid(s.server))
    && ShowsAll(Outs(s.log), NonBlank(s.server, s.read))
  }

  lemma ReadingStep(s: State, a: Action, key: KeyOf)
    requires Reading(s) && Enabled(s, a)
    ensures Reading(Next(s, a, key)) && Next(s, a, key).server == s.server
  {
    match a
    case Upstream(line, tools) => LineStep(s, line, tools, key);
    case _ =>
  }

  lemma LineStep(s: State, line: UpstreamLine, tools: Tools, key: KeyOf)
    requires Reading(s) && Enabled(s, Upstream(line, tools))
    ensures Reading(Next(s, Upstream(line, tools), key)) && Next(s, Upstream(line, tools), key).server == s.server
  {
    var after := Next(s, Upstream(line, tools), key);
    OneLine(line, s.pending, s.cache, s.now, tools, key);
    assert after.log[..|s.log|] == s.log && s.server[s.read] == Valid(line);
  }

  /** Over any run, what the client is shown corresponds one to one, in order, to
      the non-blank lines that were read; once the reader has stopped, these are all
      lines before the first one that is no UTF-8. */
  lemma {:induction false} NoLineIsLost(states: seq<State>, actions: seq<Action>, key: KeyOf)
    requires Run(states, actions, key)
    ensures var s := states[|actions|];
            s.server == states[0].server && s.read <= FirstInvalid(s.server)
            && ShowsAll(Outs(s.log), NonBlank(s.server, s.read))
            && (!s.phase.Running? ==> s.read == FirstInvalid(s.server))
  {
    var n := |actions|;
    if n > 0 {
      NoLineIsLost(states[..n], actions[..n - 1], key);
      assert states[n - 1 + 1] == Next(states[n - 1], actions[n - 1], key);
      ReadingStep(states[n - 1], actions[n - 1], key);
    }
  }

  lemma {:induction false} NonBlankCounts(server: seq<ServerLine>, n: nat)
    requires n <= FirstInvalid(server)
    ensures |NonBlank(server, n)| == Written(server, n)
  {
    if n > 0 {
      NonBlankCounts(server, n - 1);
    }
  }

  lemma {:induction false} WrittenGrows(server: seq<ServerLine>, n: nat, m: nat)
    requires n <= m <= |server|
    ensures Written(server, n) <= Written(server, m)
  {
    if n < m {
      WrittenGrows(server, n, m - 1);
    }
  }

  /** All that the server wrote is shown exactly when all of it is UTF-8. */
  lemma AllIsShownIfValid(states: seq<State>, actions: seq<Action>, key: KeyOf)
    requires Run(states, actions, key) && !states[|actions|].phase.Running?
    ensures var s := states[|actions|];
            |Outs(s.log)| == Written(s.server, |s.server|) <==> AllValid(s.server)
  {
    NoLineIsLost(states, actions, key);
    var server := states[|actions|].server;
    var k := FirstInvalid(server);
    NonBlankCounts(server, k);
    if k < |server| {
      WrittenGrows(server, k + 1, |server|);
    }
  }

  const TOOL_CALL := Agent(Call("1", Request("tools/call", "", "")))

  const EMPTY := Cache(map[], [])

  /** One line that is no UTF-8 hides the answer after it, and the client is told
      that the server terminated. */
  lemma InvalidLineHidesReply(reply: UpstreamLine, key: KeyOf) returns (states: seq<State>, actions: seq<Action>)
    requires Answers(reply, "1")
    ensures Run(states, actions, key) && states[0].server == [Invalid, Valid(reply)]
    ensures states[|actions|].sent == [ErrorReply("1")] && states[|actions|].phase.Finished?
  {
    actions := [TOOL_CALL, Close, Drain(["1"])];
    var s0 := State(map[], EMPTY, 0, [], Running, [], [], [Invalid, Valid(reply)], 0);
    var s1 := Next(s0, actions[0], key);
    var s2 := Next(s1, actions[1], key);
    var s3 := Next(s2, actions[2], key);
    states := [s0, s1, s2, s3];
  }

  // ----- how often a request is answered

  /** This answers request `id`, whoever wrote it. */
  predicate RepliesTo(out: Out, id: Id) {
    match out
    case Raw(line) => Answers(line, id)
    case Rewritten(i, _) => i == id
    case ErrorReply(i) => i == id
  }

  /** This answers request `id` and was written by the proxy. */
  predicate MadeFor(out: Out, id: Id) {
    !out.Raw? && RepliesTo(out, id)
  }

  function Replies(sent: seq<Out>, id: Id): nat {
    if sent == [] then 0
    else Replies(sent[..|sent| - 1], id) + if RepliesTo(sent[|sent| - 1], id) then 1 else 0
  }

  function Made(sent: seq<Out>, id: Id): nat {
    if sent == [] then 0
    else Made(sent[..|sent| - 1], id) + if MadeFor(sent[|sent| - 1], id) then 1 else 0
  }

  /** Calls with this id among the first `n` steps. */
  function Calls(actions: seq<Action>, id: Id, n: nat): nat
    requires n <= |actions|
  {
    if n == 0 then 0 else Calls(actions, id, n - 1) + if IsCall(actions[n - 1], id) then 1 else 0
  }

  predicate IsReply(a: Action, id: Id) {
    a.Upstream? && Answers(a.line, id)
  }

  /** Replies of the server to this id from step `k` to before step `n`. */
  function ServerReplies(actions: seq<Action>, id: Id, k: nat, n: nat): nat
    requires k <= n <= |actions|
  {
    if n == k then 0 else ServerReplies(actions, id, k, n - 1) + if IsReply(actions[n - 1], id) then 1 else 0
  }

  lemma {:induction false} CountsAppend(a: seq<Out>, b: seq<Out>, id: Id)
    ensures Replies(a + b, id) == Replies(a, id) + Replies(b, id)
    ensures Made(a + b, id) == Made(a, id) + Made(b, id)
  {
    if b == [] {
      assert a + b == a;
    } else {
      assert (a + b)[..|a + b| - 1] == a + b[..|b| - 1];
      CountsAppend(a, b[..|b| - 1], id);
    }
  }

  lemma {:induction false} ErrorCounts(order: seq<Id>, id: Id)
    requires forall i, j :: 0 <= i < j < |order| ==> order[i] != order[j]
    ensures var n := if id in order then 1 else 0;
            Replies(Errors(order), id) == n && Made(Errors(order), id) == n
  {
    if order != [] {
      ErrorCounts(order[1..], id);
      CountsAppend([ErrorReply(order[0])], Errors(order[1..]), id);
      assert order == [order[0]] + order[1..];
      OneCounts(ErrorReply(order[0]), id);
    }
  }

  lemma OneCounts(out: Out, id: Id)
    ensures Replies([out], id) == if RepliesTo(out, id) then 1 else 0
    ensures Made([out], id) == if MadeFor(out, id) then 1 else 0
  {
    assert [out][..0] == [];
  }

  /** What one step sends. */
  function Added(s: State, a: Action, key: KeyOf): seq<Out>
    requires Enabled(s, a)
  {
    match a
    case Upstream(line, tools) =>
      OutOf(Handled(line, Consumed(line, s.pending),
                    AfterUpstream(line, s.pending, s.cache, s.now, tools, key).0, s.now, tools))
    case Drain(order) => Errors(order)
    case _ => []
  }

  /** The answers to one request that one step sends. */
  lemma AddedCounts(s: State, a: Action, key: KeyOf, id: Id)
    requires Enabled(s, a)
    ensures Next(s, a, key).sent == s.sent + Added(s, a, key)
    ensures Replies(Added(s, a, key), id) == if IsReply(a, id) || (a.Drain? && id in s.pending) then 1 else 0
    ensures Made(Added(s, a, key), id) <= if Settles(a, id) && id in s.pending then 1 else 0
  {
    match a
    case Upstream(line, tools) => LineCounts(line, s, tools, key, id);
    case Drain(order) => ErrorCounts(order, id);
    case _ => assert s.sent + [] == s.sent;
  }

  lemma LineCounts(line: UpstreamLine, s: State, tools: Tools, key: KeyOf, id: Id)
    requires Enabled(s, Upstream(line, tools))
    ensures var added := Added(s, Upstream(line, tools), key);
            Replies(added, id) == (if Answers(line, id) then 1 else 0)
            && Made(added, id) <= if Answers(line, id) && id in s.pending then 1 else 0
  {
    var added := Added(s, Upstream(line, tools), key);
    OneLine(line, s.pending, s.cache, s.now, tools, key);
    if added != [] {
      assert added == [added[0]] && Shows(added[0], line);
      OneCounts(added[0], id);
    }
  }

  /** In every run the proxy itself writes at most one answer for each call, counting
      rewritten replies and error replies, and an outstanding call has none yet. */
  lemma {:induction false} MadeForCalls(states: seq<State>, actions: seq<Action>, key: KeyOf, id: Id, n: nat)
    requires Run(states, actions, key) && n <= |actions|
    ensures Made(states[n].sent, id) + (if id in states[n].pending then 1 else 0) <= Calls(actions, id, n)
  {
    if n > 0 {
      var s, a := states[n - 1], actions[n - 1];
      MadeForCalls(states, actions, key, id, n - 1);
      assert Enabled(s, a) && states[n - 1 + 1] == Next(s, a, key);
      AddedCounts(s, a, key, id);
      CountsAppend(s.sent, Added(s, a, key), id);
      TableStep(s, a, key, id);
    }
  }

  /** Error replies to one id so far. */
  function Failures(s: State, id: Id): nat {
    multiset(s.sent)[ErrorReply(id)]
  }

  /** In every run each id gets at most one error reply, from the one drain. */
  lemma {:induction false} FailsOnce(states: seq<State>, actions: seq<Action>, key: KeyOf, id: Id, n: nat)
    requires Run(states, actions, key) && n <= |actions|
    ensures Failures(states[n], id) <= if states[n].phase.Finished? then 1 else 0
  {
    if n > 0 {
      FailsOnce(states, actions, key, id, n - 1);
      assert Enabled(states[n - 1], actions[n - 1]) && states[n - 1 + 1] == Next(states[n - 1], actions[n - 1], key);
      FailureBound(states[n - 1], actions[n - 1], key, id);
    }
  }

  lemma FailureBound(s: State, a: Action, key: KeyOf, id: Id)
    requires Enabled(s, a) && Failures(s, id) <= if s.phase.Finished? then 1 else 0
    ensures Failures(Next(s, a, key), id) <= if Next(s, a, key).phase.Finished? then 1 else 0
  {
    FailureStep(s, a, key, id);
  }

  lemma FailureStep(s: State, a: Action, key: KeyOf, id: Id)
    requires Enabled(s, a)
    ensures Failures(Next(s, a, key), id) == Failures(s, id) + if a.Drain? && id in s.pending then 1 else 0
  {
    AddedCounts(s, a, key, id);
    match a
    case Upstream(line, tools) => OneLine(line, s.pending, s.cache, s.now, tools, key);
    case Drain(order) => ErrorsOnce(order, id);
    case _ =>
  }

  /** In every run the client gets every reply that was read and the error replies,
      and no other answer. */
  lemma {:induction false} EveryReplyPasses(states: seq<State>, actions: seq<Action>, key: KeyOf, id: Id, n: nat)
    requires Run(states, actions, key) && n <= |actions|
    ensures Replies(states[n].sent, id) == ServerReplies(actions, id, 0, n) + Failures(states[n], id)
  {
    if n > 0 {
      var s, a := states[n - 1], actions[n - 1];
      EveryReplyPasses(states, actions, key, id, n - 1);
      assert Enabled(s, a) && states[n - 1 + 1] == Next(s, a, key);
      AddedCounts(s, a, key, id);
      CountsAppend(s.sent, Added(s, a, key), id);
      FailureStep(s, a, key, id);
    }
  }

  // ----- the answers to one call

  predicate Cancels(a: Action, id: Id) {
    match a
    case Agent(message) => message.Cancelled? && message.target == Some(id)
    case _ => false
  }

  /** The last call with this id, made before the drain. */
  predicate IsLastCall(states: seq<State>, actions: seq<Action>, id: Id, k: nat) {
    |states| == |actions| + 1 && k < |actions| && IsCall(actions[k], id) && !states[k].phase.Finished?
    && forall j :: k < j < |actions| ==> !IsCall(actions[j], id)
  }

  /** The call was cancelled before the drain. */
  predicate CancelledSince(states: seq<State>, actions: seq<Action>, id: Id, k: nat, n: nat)
    requires |states| == |actions| + 1 && n <= |actions|
  {
    exists j :: k < j < n && Cancels(actions[j], id) && !states[j].phase.Finished?
  }

  lemma CancelledStep(states: seq<State>, actions: seq<Action>, id: Id, k: nat, n: nat)
    requires |states| == |actions| + 1 && k < n < |actions|
    ensures CancelledSince(states, actions, id, k, n + 1)
            <==> CancelledSince(states, actions, id, k, n) || (Cancels(actions[n], id) && !states[n].phase.Finished?)
  {
  }

  /** After `server` replies to it, with `base` answers before the call. */
  predicate Answered(s: State, id: Id, base: nat, server: nat, cancelled: bool) {
    var unanswered := server == 0 && !cancelled;
    Replies(s.sent, id) == base + (if unanswered && s.phase.Finished? then 1 else server)
    && (!s.phase.Finished? ==> (id in s.pending <==> unanswered))
  }

  lemma AnsweredStep(s: State, a: Action, key: KeyOf, id: Id, base: nat, server: nat, cancelled: bool)
    requires Enabled(s, a) && !IsCall(a, id) && Answered(s, id, base, server, cancelled)
    ensures Answered(Next(s, a, key), id, base, server + if IsReply(a, id) then 1 else 0,
                     cancelled || (Cancels(a, id) && !s.phase.Finished?))
  {
    AddedCounts(s, a, key, id);
    CountsAppend(s.sent, Added(s, a, key), id);
    TableStep(s, a, key, id);
  }

  lemma AnsweredFirst(s: State, a: Action, key: KeyOf, id: Id)
    requires Enabled(s, a) && IsCall(a, id) && !s.phase.Finished?
    ensures Answered(Next(s, a, key), id, Replies(s.sent, id), 0, false)
  {
    TableStep(s, a, key, id);
  }

  /** A call that is not repeated gets exactly the replies that the server writes to
      its id; with none, and unless it was cancelled, it gets one error reply from
      the drain. */
  lemma {:induction false} AnswersOfCall(states: seq<State>, actions: seq<Action>, key: KeyOf, id: Id, k: nat, n: nat)
    requires Run(states, actions, key) && IsLastCall(states, actions, id, k) && k < n <= |actions|
    ensures Answered(states[n], id, Replies(states[k].sent, id), ServerReplies(actions, id, k + 1, n),
                     CancelledSince(states, actions, id, k, n))
  {
    var s, a := states[n - 1], actions[n - 1];
    assert Enabled(s, a) && states[n - 1 + 1] == Next(s, a, key);
    if n == k + 1 {
      AnsweredFirst(s, a, key, id);
    } else {
      AnswersOfCall(states, actions, key, id, k, n - 1);
      CancelledStep(states, actions, id, k, n - 1);
      AnsweredStep(s, a, key, id, Replies(states[k].sent, id), ServerReplies(actions, id, k + 1, n - 1),
                   CancelledSince(states, actions, id, k, n - 1));
    }
  }

  /** A call is answered more than once exactly when the server repeats its id. */
  lemma TwiceIfRepeated(states: seq<State>, actions: seq<Action>, key: KeyOf, id: Id, k: nat)
    requires Run(states, actions, key) && IsLastCall(states, actions, id, k)
    ensures Replies(states[|actions|].sent, id) >= Replies(states[k].sent, id) + 2
            <==> ServerReplies(actions, id, k + 1, |actions|) >= 2
  {
    AnswersOfCall(states, actions, key, id, k, |actions|);
  }

  /** Such a run exists: the second reply is no longer in the table and passes. */
  lemma RepeatedReplyPasses(first: UpstreamLine, second: UpstreamLine, tools: Tools, key: KeyOf)
    returns (states: seq<State>, actions: seq<Action>)
    requires Answers(first, "1") && Answers(second, "1") && !first.parsed.result.Content?
    ensures Run(states, actions, key) && Calls(actions, "1", |actions|) == 1
    ensures states[|actions|].sent == [Raw(first), Raw(second)]
  {
    actions := [TOOL_CALL, Upstream(first, tools), Upstream(second, tools)];
    var s0 := State(map[], EMPTY, 0, [], Running, [], [], [Valid(first), Valid(second)], 0);
    var s1 := Next(s0, actions[0], key);
    var s2 := Next(s1, actions[1], key);
    var s3 := Next(s2, actions[2], key);
    states := [s0, s1, s2, s3];
    assert Calls(actions, "1", 1) == 1;
    assert Calls(actions, "1", 2) == 1;
  }
}

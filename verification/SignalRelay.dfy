/** The relay of `src/capture_interrupt.rs` (Unix): signal handlers that publish
    a signal and take it back, against `set_child`, which publishes the target.
    The atomics are sequentially consistent here; each step below is one of
    their operations or one `kill`. */
module SignalRelay {
  import opened Text

  const SIGNALS: set<int> := {1, 2, 3, 15}
  const I32_MAX: int := 0x7FFF_FFFF

  /** Where `forward` is; a published signal is known by its place in `published`. */
  datatype Handler =
    | Entered(signal: int)
    | Published
    | Loaded(target: int)
    | Sending(target: int, signal: int, index: nat)
    | Returned

  /** Where `set_child` is. */
  datatype Setter = Waiting | TargetStored | SetterSending(signal: int, index: nat) | SetterDone

  /** One call of `kill`; `index` is the publication that its signal was swapped out of. */
  datatype Sent = Sent(target: int, signal: int, index: nat)

  /** `raised`, `published`, `taken` and `sent` are histories: signals delivered to
      the process, stored into `pending`, swapped out of it, and passed to `kill`. */
  datatype State = State(
    child: int,
    target: int,
    pending: int,
    handlers: seq<Handler>,
    setter: Setter,
    raised: seq<int>,
    published: seq<int>,
    taken: seq<nat>,
    sent: seq<Sent>)

  /** `set_child`'s target for a child id, or its error. */
  function ChildTarget(childId: nat, grouped: bool): Result<int> {
    var id: int := childId;
    if id > I32_MAX then Err else Ok(if grouped then -id else id)
  }

  datatype Process = Process(id: int, group: int)

  /** The processes that `kill` signals: one, or with a negative target a group. */
  predicate Signals(target: int, process: Process) {
    if target > 0 then process.id == target else target < 0 && process.group == -target
  }

  /** A child that leads a group is signalled with all of its group, and another
      child alone. */
  lemma ChildIsReached(childId: nat, grouped: bool, process: Process)
    requires 0 < childId
    ensures ChildTarget(childId, grouped).Ok? <==> childId < 0x8000_0000
    ensures ChildTarget(childId, grouped).Ok? ==>
            (Signals(ChildTarget(childId, grouped).value, process)
             <==> if grouped then process.group == childId else process.id == childId)
  {
  }

  ghost predicate Init(s: State) {
    (exists childId: nat, grouped: bool :: childId > 0 && ChildTarget(childId, grouped) == Ok(s.child))
    && s == State(s.child, 0, 0, [], Waiting, [], [], [], [])
  }

  datatype Action =
    | Raise(signal: int)
    | Publish(h: nat)
    | Load(h: nat)
    | Swap(h: nat)
    | Kill(h: nat)
    | StoreTarget
    | SetterSwap
    | SetterKill

  predicate At(s: State, h: nat) {
    h < |s.handlers|
  }

  predicate Enabled(s: State, a: Action) {
    match a
    case Raise(signal) => signal in SIGNALS
    case Publish(h) => At(s, h) && s.handlers[h].Entered?
    case Load(h) => At(s, h) && s.handlers[h].Published?
    case Swap(h) => At(s, h) && s.handlers[h].Loaded?
    case Kill(h) => At(s, h) && s.handlers[h].Sending?
    case StoreTarget => s.setter.Waiting?
    case SetterSwap => s.setter.TargetStored?
    case SetterKill => s.setter.SetterSending?
  }

  function Move(s: State, h: nat, next: Handler): State
    requires At(s, h)
  {
    s.(handlers := s.handlers[h := next])
  }

  /** Place of the last published signal. */
  function LastIndex(s: State): nat {
    if s.published == [] then 0 else |s.published| - 1
  }

  /** The state after a step. */
  function Next(s: State, a: Action): State
    requires Enabled(s, a)
  {
    match a
    case Raise(signal) => s.(handlers := s.handlers + [Entered(signal)], raised := s.raised + [signal])
    case Publish(h) =>
      var signal := s.handlers[h].signal;
      Move(s, h, Published).(pending := signal, published := s.published + [signal])
    case Load(h) => Move(s, h, if s.target == 0 then Returned else Loaded(s.target))
    case Swap(h) =>
      if s.pending > 0 then
        Move(s, h, Sending(s.handlers[h].target, s.pending, LastIndex(s)))
          .(pending := 0, taken := s.taken + [LastIndex(s)])
      else Move(s, h, Returned).(pending := 0)
    case Kill(h) =>
      var sending := s.handlers[h];
      Move(s, h, Returned).(sent := s.sent + [Sent(sending.target, sending.signal, sending.index)])
    case StoreTarget => s.(target := s.child, setter := TargetStored)
    case SetterSwap =>
      if s.pending > 0 then
        s.(setter := SetterSending(s.pending, LastIndex(s)), pending := 0, taken := s.taken + [LastIndex(s)])
      else s.(setter := SetterDone, pending := 0)
    case SetterKill =>
      s.(setter := SetterDone, sent := s.sent + [Sent(s.child, s.setter.signal, s.setter.index)])
  }

  // ----- the invariant

  /** The index that a handler has swapped out but not yet passed to `kill`. */
  function Flight(h: Handler): multiset<nat> {
    if h.Sending? then multiset{h.index} else multiset{}
  }

  function InFlight(handlers: seq<Handler>): multiset<nat> {
    if handlers == [] then multiset{}
    else InFlight(handlers[..|handlers| - 1]) + Flight(handlers[|handlers| - 1])
  }

  function SetterFlight(setter: Setter): multiset<nat> {
    match setter
    case SetterSending(_, index) => multiset{index}
    case _ => multiset{}
  }

  function SentIndices(sent: seq<Sent>): multiset<nat> {
    if sent == [] then multiset{} else SentIndices(sent[..|sent| - 1]) + multiset{sent[|sent| - 1].index}
  }

  function Fresh(h: Handler): multiset<int> {
    if h.Entered? then multiset{h.signal} else multiset{}
  }

  /** Signals still to be published. */
  function Unpublished(handlers: seq<Handler>): multiset<int> {
    if handlers == [] then multiset{}
    else Unpublished(handlers[..|handlers| - 1]) + Fresh(handlers[|handlers| - 1])
  }

  predicate WillSwap(h: Handler) {
    h.Published? || h.Loaded?
  }

  /** Some swap after this point is certain. */
  predicate SwapAhead(s: State) {
    s.setter.Waiting? || s.setter.TargetStored? || exists h :: 0 <= h < |s.handlers| && WillSwap(s.handlers[h])
  }

  predicate Increasing(taken: seq<nat>) {
    forall i, j :: 0 <= i < j < |taken| ==> taken[i] < taken[j]
  }

  predicate TargetsAreChild(s: State) {
    (forall h :: 0 <= h < |s.handlers| ==>
       (s.handlers[h].Loaded? || s.handlers[h].Sending? ==> s.handlers[h].target == s.child))
    && (forall k :: 0 <= k < |s.sent| ==> s.sent[k].target == s.child)
    && s.target == (if s.setter.Waiting? then 0 else s.child) && s.child != 0
  }

  predicate RaisesAccounted(s: State) {
    multiset(s.raised) == multiset(s.published) + Unpublished(s.handlers)
  }

  predicate SendsAccounted(s: State) {
    multiset(s.taken) == SentIndices(s.sent) + InFlight(s.handlers) + SetterFlight(s.setter)
  }

  /** `pending` is empty or holds the last published signal, not yet taken; every
      taken index is below it. */
  predicate PendingIsLast(s: State) {
    Increasing(s.taken)
    && (s.pending != 0 ==>
          s.published != [] && s.pending == s.published[|s.published| - 1]
          && forall i :: 0 <= i < |s.taken| ==> s.taken[i] < |s.published| - 1)
    && (s.pending == 0 ==>
          (forall i :: 0 <= i < |s.taken| ==> s.taken[i] < |s.published|)
          && (s.published != [] ==> |s.published| - 1 in s.taken))
  }

  predicate SignalsOnly(s: State) {
    (forall i :: 0 <= i < |s.published| ==> s.published[i] in SIGNALS)
    && (forall h :: 0 <= h < |s.handlers| && s.handlers[h].Entered? ==> s.handlers[h].signal in SIGNALS)
  }

  /** What was swapped out of `pending` is the publication it is known by. */
  predicate Carries(published: seq<int>, signal: int, index: nat) {
    index < |published| && signal == published[index]
  }

  predicate ValuesCarried(s: State) {
    (forall h :: 0 <= h < |s.handlers| && s.handlers[h].Sending? ==>
       Carries(s.published, s.handlers[h].signal, s.handlers[h].index))
    && (s.setter.SetterSending? ==> Carries(s.published, s.setter.signal, s.setter.index))
    && (forall k :: 0 <= k < |s.sent| ==> Carries(s.published, s.sent[k].signal, s.sent[k].index))
  }

  predicate Inv(s: State) {
    TargetsAreChild(s) && ValuesCarried(s) && RaisesAccounted(s) && SendsAccounted(s) && PendingIsLast(s) && SignalsOnly(s)
    && (s.pending != 0 ==> SwapAhead(s))
  }

  lemma Exchange<T>(x: multiset<T>, y: multiset<T>, f: multiset<T>, g: multiset<T>, more: multiset<T>)
    requires x + f == y + g
    ensures (x + more) + f == (y + more) + g
  {
    assert (x + more) + f == (x + f) + more;
    assert (y + more) + g == (y + g) + more;
  }

  lemma Swap3<T>(x: multiset<T>, f: multiset<T>, g: multiset<T>)
    ensures x + f + g == x + g + f
  {
  }

  lemma InFlightSnoc(front: seq<Handler>, last: Handler)
    ensures InFlight(front + [last]) == InFlight(front) + Flight(last)
  {
    assert (front + [last])[..|front|] == front;
  }

  lemma {:induction false} FlightMove(handlers: seq<Handler>, h: nat, next: Handler)
    requires h < |handlers|
    ensures InFlight(handlers[h := next]) + Flight(handlers[h]) == InFlight(handlers) + Flight(next)
  {
    var n := |handlers| - 1;
    var front, last := handlers[..n], handlers[n];
    assert handlers == front + [last];
    InFlightSnoc(front, last);
    if h == n {
      assert handlers[h := next] == front + [next];
      InFlightSnoc(front, next);
      Swap3(InFlight(front), Flight(next), Flight(last));
    } else {
      var moved := front[h := next];
      assert handlers[h := next] == moved + [last] && front[h] == handlers[h];
      InFlightSnoc(moved, last);
      FlightMove(front, h, next);
      Exchange(InFlight(moved), InFlight(front), Flight(handlers[h]), Flight(next), Flight(last));
    }
  }

  lemma UnpublishedSnoc(front: seq<Handler>, last: Handler)
    ensures Unpublished(front + [last]) == Unpublished(front) + Fresh(last)
  {
    assert (front + [last])[..|front|] == front;
  }

  lemma {:induction false} FreshMove(handlers: seq<Handler>, h: nat, next: Handler)
    requires h < |handlers|
    ensures Unpublished(handlers[h := next]) + Fresh(handlers[h]) == Unpublished(handlers) + Fresh(next)
  {
    var n := |handlers| - 1;
    var front, last := handlers[..n], handlers[n];
    assert handlers == front + [last];
    UnpublishedSnoc(front, last);
    if h == n {
      assert handlers[h := next] == front + [next];
      UnpublishedSnoc(front, next);
      Swap3(Unpublished(front), Fresh(next), Fresh(last));
    } else {
      var moved := front[h := next];
      assert handlers[h := next] == moved + [last] && front[h] == handlers[h];
      UnpublishedSnoc(moved, last);
      FreshMove(front, h, next);
      Exchange(Unpublished(moved), Unpublished(front), Fresh(handlers[h]), Fresh(next), Fresh(last));
    }
  }

  lemma InitHolds(s: State)
    requires Init(s)
    ensures Inv(s)
  {
  }

  lemma RaisesNext(s: State, a: Action)
    requires RaisesAccounted(s) && Enabled(s, a)
    ensures RaisesAccounted(Next(s, a))
  {
    if a.Raise? {
      assert Next(s, a).handlers[..|s.handlers|] == s.handlers;
    } else if a.Publish? {
      PublishRaises(s, a.h);
    } else if a.Load? || a.Swap? || a.Kill? {
      OldSignal(s.handlers, a.h, Next(s, a).handlers[a.h]);
    }
  }

  lemma OldSignal(handlers: seq<Handler>, h: nat, next: Handler)
    requires h < |handlers| && !handlers[h].Entered? && !next.Entered?
    ensures Unpublished(handlers[h := next]) == Unpublished(handlers)
  {
    FreshMove(handlers, h, next);
    assert Unpublished(handlers[h := next]) == Unpublished(handlers[h := next]) + Fresh(handlers[h]);
    assert Unpublished(handlers) == Unpublished(handlers) + Fresh(next);
  }

  lemma PublishRaises(s: State, h: nat)
    requires RaisesAccounted(s) && Enabled(s, Publish(h))
    ensures RaisesAccounted(Next(s, Publish(h)))
  {
    var next := Next(s, Publish(h));
    var signal := multiset{s.handlers[h].signal};
    FreshMove(s.handlers, h, Published);
    assert Unpublished(s.handlers) == Unpublished(s.handlers) + Fresh(Published);
    assert multiset(next.published) == multiset(s.published) + signal;
    assert multiset(next.published) + Unpublished(next.handlers)
           == multiset(s.published) + (Unpublished(next.handlers) + signal);
  }

  lemma SendsNext(s: State, a: Action)
    requires SendsAccounted(s) && Enabled(s, a)
    ensures SendsAccounted(Next(s, a))
  {
    match a
    case Raise(signal) =>
      assert Next(s, a).handlers[..|s.handlers|] == s.handlers;
      assert InFlight(Next(s, a).handlers) == InFlight(s.handlers);
    case Publish(h) => QuietMove(s.handlers, h, Published);
    case Load(h) => QuietMove(s.handlers, h, Next(s, a).handlers[h]);
    case Swap(h) => HandlerSwapSends(s, h);
    case Kill(h) => HandlerKillSends(s, h);
    case StoreTarget =>
    case SetterSwap => SetterSwapSends(s);
    case SetterKill => SetterKillSends(s);
  }

  /** One more index in both accounts. */
  lemma OneMoreTaken<T>(taken: multiset<T>, sent: multiset<T>, flight: multiset<T>, setter: multiset<T>, more: multiset<T>)
    requires taken == sent + flight + setter
    ensures taken + more == sent + (flight + more) + setter
    ensures setter == multiset{} ==> taken + more == sent + flight + more
  {
  }

  /** An index that is sent leaves its flight. */
  lemma OneMoreSent<T>(sent: multiset<T>, flight: multiset<T>, setter: multiset<T>, index: multiset<T>)
    ensures sent + (flight + index) + setter == sent + index + flight + setter
    ensures setter == multiset{} ==> sent + flight + index == sent + index + flight + setter
  {
  }

  lemma TakenSnoc(taken: seq<nat>, index: nat)
    ensures multiset(taken + [index]) == multiset(taken) + multiset{index}
  {
  }

  lemma SentSnoc(sent: seq<Sent>, last: Sent)
    ensures SentIndices(sent + [last]) == SentIndices(sent) + multiset{last.index}
  {
    assert (sent + [last])[..|sent|] == sent;
  }

  lemma SetterSwapSends(s: State)
    requires SendsAccounted(s) && Enabled(s, SetterSwap)
    ensures SendsAccounted(Next(s, SetterSwap))
  {
    if s.pending > 0 {
      TakenSnoc(s.taken, LastIndex(s));
      OneMoreTaken(multiset(s.taken), SentIndices(s.sent), InFlight(s.handlers), multiset{}, multiset{LastIndex(s)});
    }
  }

  lemma SetterKillSends(s: State)
    requires SendsAccounted(s) && Enabled(s, SetterKill)
    ensures SendsAccounted(Next(s, SetterKill))
  {
    SentSnoc(s.sent, Sent(s.child, s.setter.signal, s.setter.index));
    OneMoreSent(SentIndices(s.sent), InFlight(s.handlers), multiset{}, multiset{s.setter.index});
  }

  lemma QuietMove(handlers: seq<Handler>, h: nat, next: Handler)
    requires h < |handlers| && !handlers[h].Sending? && !next.Sending?
    ensures InFlight(handlers[h := next]) == InFlight(handlers)
  {
    FlightMove(handlers, h, next);
    assert InFlight(handlers[h := next]) == InFlight(handlers[h := next]) + Flight(handlers[h]);
    assert InFlight(handlers) == InFlight(handlers) + Flight(next);
  }

  lemma HandlerSwapSends(s: State, h: nat)
    requires SendsAccounted(s) && Enabled(s, Swap(h))
    ensures SendsAccounted(Next(s, Swap(h)))
  {
    var index := LastIndex(s);
    if s.pending > 0 {
      StartFlight(s.handlers, h, Sending(s.handlers[h].target, s.pending, index));
      TakenSnoc(s.taken, index);
      OneMoreTaken(multiset(s.taken), SentIndices(s.sent), InFlight(s.handlers), SetterFlight(s.setter), multiset{index});
    } else {
      QuietMove(s.handlers, h, Returned);
    }
  }

  lemma StartFlight(handlers: seq<Handler>, h: nat, next: Handler)
    requires h < |handlers| && !handlers[h].Sending? && next.Sending?
    ensures InFlight(handlers[h := next]) == InFlight(handlers) + multiset{next.index}
  {
    FlightMove(handlers, h, next);
    assert InFlight(handlers[h := next]) + multiset{} == InFlight(handlers[h := next]);
  }

  lemma EndFlight(handlers: seq<Handler>, h: nat, next: Handler)
    requires h < |handlers| && handlers[h].Sending? && !next.Sending?
    ensures InFlight(handlers) == InFlight(handlers[h := next]) + multiset{handlers[h].index}
  {
    FlightMove(handlers, h, next);
    assert InFlight(handlers) + multiset{} == InFlight(handlers);
  }

  lemma HandlerKillSends(s: State, h: nat)
    requires SendsAccounted(s) && Enabled(s, Kill(h))
    ensures SendsAccounted(Next(s, Kill(h)))
  {
    var sending, next := s.handlers[h], Next(s, Kill(h));
    EndFlight(s.handlers, h, Returned);
    SentSnoc(s.sent, Sent(sending.target, sending.signal, sending.index));
    OneMoreSent(SentIndices(s.sent), InFlight(next.handlers), SetterFlight(s.setter), multiset{sending.index});
  }

  lemma SwapAheadNext(s: State, a: Action)
    requires Inv(s) && Enabled(s, a)
    ensures Next(s, a).pending != 0 ==> SwapAhead(Next(s, a))
  {
    var next := Next(s, a);
    if next.pending != 0 && !next.setter.Waiting? && !next.setter.TargetStored? {
      if a.Publish? {
        assert WillSwap(next.handlers[a.h]);
      } else {
        var h :| 0 <= h < |s.handlers| && WillSwap(s.handlers[h]);
        assert WillSwap(next.handlers[h]);
      }
    }
  }

  lemma Takes(s: State)
    requires PendingIsLast(s) && s.pending != 0
    ensures PendingIsLast(s.(pending := 0, taken := s.taken + [LastIndex(s)]))
  {
    var taken := s.taken + [LastIndex(s)];
    assert taken[|s.taken|] == |s.published| - 1;
  }

  lemma PendingNext(s: State, a: Action)
    requires PendingIsLast(s) && SignalsOnly(s) && Enabled(s, a)
    ensures PendingIsLast(Next(s, a))
  {
    if (a.Swap? || a.SetterSwap?) && s.pending > 0 {
      Takes(s);
    }
  }

  lemma SignalsNext(s: State, a: Action)
    requires SignalsOnly(s) && Enabled(s, a)
    ensures SignalsOnly(Next(s, a))
  {
  }

  lemma TargetsNext(s: State, a: Action)
    requires TargetsAreChild(s) && Enabled(s, a)
    ensures TargetsAreChild(Next(s, a))
  {
  }

  lemma ValuesNext(s: State, a: Action)
    requires ValuesCarried(s) && PendingIsLast(s) && SignalsOnly(s) && Enabled(s, a)
    ensures ValuesCarried(Next(s, a))
  {
    var next := Next(s, a);
    forall signal, index: nat | Carries(s.published, signal, index)
      ensures Carries(next.published, signal, index)
    {
    }
    forall h | 0 <= h < |next.handlers| && next.handlers[h].Sending?
      ensures Carries(next.published, next.handlers[h].signal, next.handlers[h].index)
    {
      if !(a.Swap? && a.h == h) {
        assert next.handlers[h] == s.handlers[h];
      }
    }
    forall k | 0 <= k < |next.sent|
      ensures Carries(next.published, next.sent[k].signal, next.sent[k].index)
    {
      if k < |s.sent| {
        assert next.sent[k] == s.sent[k];
      }
    }
  }

  /** Every step of every thread keeps the invariant. */
  lemma StepHolds(s: State, a: Action)
    requires Inv(s) && Enabled(s, a)
    ensures Inv(Next(s, a))
  {
    TargetsNext(s, a);
    ValuesNext(s, a);
    RaisesNext(s, a);
    SendsNext(s, a);
    PendingNext(s, a);
    SignalsNext(s, a);
    SwapAheadNext(s, a);
  }

  // ----- runs

  ghost predicate Run(states: seq<State>, actions: seq<Action>) {
    |states| == |actions| + 1 && Init(states[0])
    && forall i :: 0 <= i < |actions| ==> Enabled(states[i], actions[i]) && states[i + 1] == Next(states[i], actions[i])
  }

  lemma {:induction false} RunHolds(states: seq<State>, actions: seq<Action>)
    requires Run(states, actions)
    ensures Inv(states[|actions|])
  {
    var n := |actions|;
    if n == 0 {
      InitHolds(states[0]);
    } else {
      RunHolds(states[..n], actions[..n - 1]);
      StepHolds(states[n - 1], actions[n - 1]);
    }
  }

  /** `set_child` and every handler have finished. */
  predicate Quiescent(s: State) {
    s.setter.SetterDone? && forall h :: 0 <= h < |s.handlers| ==> s.handlers[h].Returned?
  }

  lemma {:induction false} NothingInFlight(handlers: seq<Handler>)
    requires forall h :: 0 <= h < |handlers| ==> handlers[h].Returned?
    ensures InFlight(handlers) == multiset{} && Unpublished(handlers) == multiset{}
  {
    if handlers != [] {
      NothingInFlight(handlers[..|handlers| - 1]);
    }
  }

  lemma {:induction false} IndexWasSent(sent: seq<Sent>, index: nat)
    requires index in SentIndices(sent)
    ensures exists k :: 0 <= k < |sent| && sent[k].index == index
  {
    var n := |sent| - 1;
    if sent[n].index != index {
      IndexWasSent(sent[..n], index);
      var k :| 0 <= k < n && sent[..n][k].index == index;
      assert sent[k].index == index;
    }
  }

  lemma {:induction false} SentCount(sent: seq<Sent>)
    ensures |SentIndices(sent)| == |sent|
  {
    if sent != [] {
      SentCount(sent[..|sent| - 1]);
    }
  }

  lemma {:induction false} SentIndexCounts(sent: seq<Sent>, k: nat)
    requires k < |sent|
    ensures sent[k].index in SentIndices(sent)
  {
    if k < |sent| - 1 {
      SentIndexCounts(sent[..|sent| - 1], k);
    }
  }

  /** Publication `i` reached the child. */
  predicate Reached(s: State, i: nat)
    requires i < |s.published|
  {
    Sent(s.child, s.published[i], i) in s.sent
  }

  /** Every taken signal was sent, each once, and only to the child. */
  lemma SendsAreTaken(s: State)
    requires Inv(s) && Quiescent(s)
    ensures multiset(s.taken) == SentIndices(s.sent) && |s.sent| == |s.taken|
    ensures forall k :: 0 <= k < |s.sent| ==> s.sent[k].index in s.taken
    ensures forall i :: 0 <= i < |s.published| ==> (Reached(s, i) <==> i in s.taken)
  {
    AllTakenSent(s);
    SentCount(s.sent);
    assert |multiset(s.taken)| == |s.taken|;
    forall k | 0 <= k < |s.sent|
      ensures s.sent[k].index in s.taken
    {
      SentIndexCounts(s.sent, k);
      assert s.sent[k].index in multiset(s.taken);
    }
    forall i | 0 <= i < |s.published|
      ensures Reached(s, i) <==> i in s.taken
    {
      if i in s.taken {
        TakenWasSent(s, i);
      }
    }
  }

  lemma AllTakenSent(s: State)
    requires SendsAccounted(s) && Quiescent(s)
    ensures multiset(s.taken) == SentIndices(s.sent)
  {
    NothingInFlight(s.handlers);
  }

  lemma TakenWasSent(s: State, i: nat)
    requires TargetsAreChild(s) && ValuesCarried(s) && multiset(s.taken) == SentIndices(s.sent)
    requires i < |s.published| && i in s.taken
    ensures Reached(s, i)
  {
    assert i in multiset(s.taken);
    IndexWasSent(s.sent, i);
    var k :| 0 <= k < |s.sent| && s.sent[k].index == i;
    assert Carries(s.published, s.sent[k].signal, i);
    assert s.sent[k] == Sent(s.child, s.published[i], i);
  }

  lemma NothingPending(s: State)
    requires Inv(s) && Quiescent(s)
    ensures s.pending == 0 && multiset(s.published) == multiset(s.raised) && |s.published| == |s.raised|
  {
    NothingInFlight(s.handlers);
    assert multiset(s.published) == multiset(s.raised);
    assert |multiset(s.published)| == |s.published| && |multiset(s.raised)| == |s.raised|;
  }

  /** No interruption is lost. In every interleaving, once `set_child` and all
      handlers are finished: nothing is pending; the published signals are the
      raised ones; the value of the last of them was passed to `kill` for the
      child; every other value passed to `kill` is that of a different
      publication, so there are at most as many sends as raises. */
  lemma NoInterruptionIsLost(states: seq<State>, actions: seq<Action>)
    requires Run(states, actions) && Quiescent(states[|actions|])
    ensures var s := states[|actions|];
            s.pending == 0
            && multiset(s.published) == multiset(s.raised)
            && (s.published != [] ==> Reached(s, |s.published| - 1))
            && (forall k :: 0 <= k < |s.sent| ==>
                  s.sent[k].target == s.child && Carries(s.published, s.sent[k].signal, s.sent[k].index))
            && (forall k, l :: 0 <= k < l < |s.sent| ==> s.sent[k].index != s.sent[l].index)
            && |s.sent| <= |s.raised|
  {
    var s := states[|actions|];
    RunHolds(states, actions);
    SendsAreTaken(s);
    NothingPending(s);
    IncreasingBelow(s.taken, |s.published|);
    forall k, l | 0 <= k < l < |s.sent|
      ensures s.sent[k].index != s.sent[l].index
    {
      SentOnce(s.taken, s.sent, k, l);
    }
  }

  lemma SentOnce(taken: seq<nat>, sent: seq<Sent>, k: nat, l: nat)
    requires Increasing(taken) && multiset(taken) == SentIndices(sent) && k < l < |sent|
    ensures sent[k].index != sent[l].index
  {
    var index := sent[k].index;
    if sent[l].index == index {
      SentTwice(sent, k, l);
      TakenOnce(taken, index);
    }
  }

  lemma {:induction false} SentTwice(sent: seq<Sent>, k: nat, l: nat)
    requires k < l < |sent| && sent[k].index == sent[l].index
    ensures SentIndices(sent)[sent[k].index] >= 2
  {
    var n := |sent| - 1;
    if l == n {
      SentIndexCounts(sent[..n], k);
    } else {
      SentTwice(sent[..n], k, l);
    }
  }

  lemma {:induction false} TakenOnce(taken: seq<nat>, index: nat)
    requires Increasing(taken)
    ensures multiset(taken)[index] <= 1
  {
    if taken != [] {
      var n := |taken| - 1;
      TakenOnce(taken[..n], index);
      assert taken == taken[..n] + [taken[n]];
      assert index == taken[n] ==> index !in taken[..n];
    }
  }

  predicate IsSwap(a: Action) {
    a.Swap? || a.SetterSwap?
  }

  /** A swap takes the last publication, unless it has already been taken. */
  lemma SwapTakesLast(s: State, a: Action)
    requires PendingIsLast(s) && SignalsOnly(s) && Enabled(s, a) && IsSwap(a) && s.published != []
    ensures |s.published| - 1 in Next(s, a).taken
  {
    var last := |s.published| - 1;
    if s.pending != 0 {
      assert s.pending in SIGNALS;
      assert (s.taken + [last])[|s.taken|] == last;
    } else {
      assert Next(s, a).taken == s.taken;
    }
  }

  lemma TakenStep(s: State, a: Action, i: nat)
    requires PendingIsLast(s) && SignalsOnly(s) && Enabled(s, a) && i < |Next(s, a).published|
    ensures i in Next(s, a).taken <==> i in s.taken || (IsSwap(a) && |s.published| == i + 1)
  {
    if IsSwap(a) {
      SwapTakesLast(s, a);
    } else {
      assert Next(s, a).taken == s.taken;
    }
  }

  /** One of the first `n` steps is a swap between publication `i` and the next one. */
  predicate SwapAfter(states: seq<State>, actions: seq<Action>, i: nat, n: nat)
    requires |states| == |actions| + 1 && n <= |actions|
  {
    n > 0 && (SwapAfter(states, actions, i, n - 1) || (IsSwap(actions[n - 1]) && |states[n - 1].published| == i + 1))
  }

  lemma {:induction false} SwapAfterIs(states: seq<State>, actions: seq<Action>, i: nat, n: nat)
    requires |states| == |actions| + 1 && n <= |actions|
    ensures SwapAfter(states, actions, i, n)
            <==> exists j :: 0 <= j < n && IsSwap(actions[j]) && |states[j].published| == i + 1
  {
    if n > 0 {
      SwapAfterIs(states, actions, i, n - 1);
    }
  }

  lemma {:induction false} NotYetSwapped(states: seq<State>, actions: seq<Action>, i: nat, n: nat)
    requires Run(states, actions) && n <= |actions| && |states[n].published| <= i
    ensures !SwapAfter(states, actions, i, n)
  {
    if n > 0 {
      PublishedGrows(states, actions, n - 1, n);
      NotYetSwapped(states, actions, i, n - 1);
    }
  }

  lemma InvAt(states: seq<State>, actions: seq<Action>, n: nat)
    requires Run(states, actions) && n <= |actions|
    ensures Inv(states[n])
  {
    RunHolds(states[..n + 1], actions[..n]);
  }

  lemma RunAt(states: seq<State>, actions: seq<Action>, n: nat)
    requires Run(states, actions) && n < |actions|
    ensures Enabled(states[n], actions[n]) && states[n + 1] == Next(states[n], actions[n])
    ensures Inv(states[n])
  {
    InvAt(states, actions, n);
  }

  /** Signals are coalesced: publication `i` is taken if and only if a swap falls
      between it and the next one. */
  lemma {:induction false} TakenIfSwapped(states: seq<State>, actions: seq<Action>, i: nat, n: nat)
    requires Run(states, actions) && n <= |actions|
    ensures i in states[n].taken <==> SwapAfter(states, actions, i, n)
  {
    if n > 0 {
      TakenIfSwapped(states, actions, i, n - 1);
      TakenAt(states, actions, i, n - 1);
    } else {
      NothingTaken(states, actions);
    }
  }

  lemma NothingTaken(states: seq<State>, actions: seq<Action>)
    requires Run(states, actions)
    ensures states[0].taken == []
  {
  }

  lemma TakenAt(states: seq<State>, actions: seq<Action>, i: nat, n: nat)
    requires Run(states, actions) && n < |actions|
    ensures if i < |states[n + 1].published|
            then i in states[n + 1].taken <==> i in states[n].taken || (IsSwap(actions[n]) && |states[n].published| == i + 1)
            else i !in states[n + 1].taken && !SwapAfter(states, actions, i, n + 1)
  {
    RunAt(states, actions, n);
    InvAt(states, actions, n + 1);
    if i < |states[n + 1].published| {
      TakenStep(states[n], actions[n], i);
    } else {
      NotTakenYet(states[n + 1], i);
      NotYetSwapped(states, actions, i, n + 1);
    }
  }

  lemma NotTakenYet(s: State, i: nat)
    requires PendingIsLast(s) && i >= |s.published|
    ensures i !in s.taken
  {
  }

  lemma {:induction false} PublishedGrows(states: seq<State>, actions: seq<Action>, j: nat, k: nat)
    requires Run(states, actions) && j <= k <= |actions|
    ensures |states[j].published| <= |states[k].published|
    decreases k
  {
    if j < k {
      PublishedGrows(states, actions, j, k - 1);
      assert states[k - 1 + 1] == Next(states[k - 1], actions[k - 1]);
    }
  }

  /** Once all are finished, a publication has reached the child if and only if a
      swap fell between it and the next one. */
  lemma SignalsAreCoalesced(states: seq<State>, actions: seq<Action>, i: nat)
    requires Run(states, actions) && Quiescent(states[|actions|]) && i < |states[|actions|].published|
    ensures Reached(states[|actions|], i)
            <==> exists j :: 0 <= j < |actions| && IsSwap(actions[j]) && |states[j].published| == i + 1
  {
    RunHolds(states, actions);
    SendsAreTaken(states[|actions|]);
    TakenIfSwapped(states, actions, i, |actions|);
    SwapAfterIs(states, actions, i, |actions|);
  }

  lemma {:induction false} IncreasingBelow(taken: seq<nat>, bound: nat)
    requires Increasing(taken) && forall i :: 0 <= i < |taken| ==> taken[i] < bound
    ensures |taken| <= bound
  {
    if taken != [] {
      var n := |taken| - 1;
      IncreasingBelow(taken[..n], taken[n]);
    }
  }

  /** Steps that a handler or `set_child` may still take. */
  function StepsLeft(h: Handler): nat {
    match h
    case Entered(_) => 4
    case Published => 3
    case Loaded(_) => 2
    case Sending(_, _, _) => 1
    case Returned => 0
  }

  function HandlerSteps(handlers: seq<Handler>): nat {
    if handlers == [] then 0
    else HandlerSteps(handlers[..|handlers| - 1]) + StepsLeft(handlers[|handlers| - 1])
  }

  function Remaining(s: State): nat {
    HandlerSteps(s.handlers)
    + match s.setter
      case Waiting => 3
      case TargetStored => 2
      case SetterSending(_, _) => 1
      case SetterDone => 0
  }

  lemma {:induction false} StepsMove(handlers: seq<Handler>, h: nat, next: Handler)
    requires h < |handlers|
    ensures HandlerSteps(handlers[h := next]) + StepsLeft(handlers[h]) == HandlerSteps(handlers) + StepsLeft(next)
  {
    var n := |handlers| - 1;
    var moved := handlers[h := next];
    assert HandlerSteps(moved) == HandlerSteps(moved[..n]) + StepsLeft(moved[n]);
    if h == n {
      assert moved[..n] == handlers[..n];
    } else {
      StepsMove(handlers[..n], h, next);
      assert moved[..n] == handlers[..n][h := next];
    }
  }

  /** The relay never blocks: an unfinished state has a step, and every step but a
      new signal brings the end nearer. */
  lemma RelayFinishes(s: State)
    ensures !Quiescent(s) ==> exists a :: Enabled(s, a) && !a.Raise?
    ensures forall a :: Enabled(s, a) && !a.Raise? ==> Remaining(Next(s, a)) < Remaining(s)
  {
    if !Quiescent(s) {
      if !s.setter.SetterDone? {
        var a := if s.setter.Waiting? then StoreTarget else if s.setter.TargetStored? then SetterSwap else SetterKill;
        assert Enabled(s, a);
      } else {
        var h :| 0 <= h < |s.handlers| && !s.handlers[h].Returned?;
        var a := if s.handlers[h].Entered? then Publish(h) else if s.handlers[h].Published? then Load(h)
                 else if s.handlers[h].Loaded? then Swap(h) else Kill(h);
        assert Enabled(s, a);
      }
    }
    forall a | Enabled(s, a) && !a.Raise?
      ensures Remaining(Next(s, a)) < Remaining(s)
    {
      if a.Publish? || a.Load? || a.Swap? || a.Kill? {
        StepsMove(s.handlers, a.h, Next(s, a).handlers[a.h]);
      }
    }
  }
}

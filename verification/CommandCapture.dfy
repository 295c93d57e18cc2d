/** Separated capture: `run_separated` in `src/command_capture.rs` with the
    incremental archive `DurableTee` of `src/capture_interrupt.rs`. Two drain
    workers read a stream each and send chunks over one channel; the consumer
    archives, logs and routes each chunk. Every step below is one read, send,
    receive, write or append; results of foreign calls are part of the action. */
module CommandCapture {
  import opened Bytes
  import opened Text

  const CHUNK: nat := 8192

  // ----- the archive

  /** What a tee has on disk; `complete` is lost with the first failed write. */
  datatype Archive = Archive(disk: seq<Byte>, path: bool, open: bool, complete: bool)

  /** `append`: `written` bytes reach the disk when the write or flush fails. */
  function Appended(tee: Archive, bytes: seq<Byte>, ok: bool, written: nat): Archive
    requires written <= |bytes|
  {
    if !tee.open then tee
    else if ok then tee.(disk := tee.disk + bytes)
    else tee.(disk := tee.disk + bytes[..written], open := false, complete := false)
  }

  /** A new tee whose file could be created, or a disabled one. */
  function Created(ok: bool): Archive {
    Archive([], ok, ok, ok)
  }

  /** The hint of `finish`: no archive, one under its temporary name, or the file
      under the digest of the log. */
  datatype Hint = NoHint | Partial | Digest

  /** What `finish` meets: the file that already has the name of the digest, and
      the outcome of removing or renaming its own. An error of `sync_all` is only
      reported: these are the contents while the system stays up. */
  datatype Ending = Ending(existing: Option<seq<Byte>>, removed: bool, renamed: bool)

  /** The files under both names after `finish`. */
  datatype Files = Files(partial: Option<seq<Byte>>, named: Option<seq<Byte>>)

  function NameOf(tee: Archive, end: Ending): Hint {
    if !tee.path then NoHint
    else if tee.complete && (end.existing.Some? || end.renamed) then Digest
    else Partial
  }

  /** A file of that digest is kept as it is, and the complete copy is removed. */
  function FilesOf(tee: Archive, end: Ending): Files {
    if !tee.path then Files(None, end.existing)
    else if !tee.complete then Files(Some(tee.disk), end.existing)
    else if end.existing.Some? then Files(if end.removed then None else Some(tee.disk), end.existing)
    else if end.renamed then Files(None, Some(tee.disk))
    else Files(Some(tee.disk), None)
  }

  /** The file that a hint names. */
  function Target(hint: Hint, files: Files): Option<seq<Byte>> {
    match hint
    case NoHint => None
    case Partial => files.partial
    case Digest => files.named
  }

  function Closed(tee: Archive): Archive {
    tee.(path := false, open := false)
  }

  class DurableTee {
    var path: bool
    var open: bool
    var complete: bool
    var disk: seq<Byte>

    function State(): Archive
      reads this
    {
      Archive(disk, path, open, complete)
    }

    constructor (ok: bool)
      ensures State() == Created(ok)
    {
      path, open, complete, disk := ok, ok, ok, [];
    }

    method Append(bytes: seq<Byte>, ok: bool, written: nat)
      requires written <= |bytes|
      modifies this`open, this`complete, this`disk
      ensures State() == Appended(old(State()), bytes, ok, written)
    {
      if !open {
        return;
      }
      if ok {
        disk := disk + bytes;
      } else {
        disk := disk + bytes[..written];
        open := false;
        complete := false;
      }
    }

    method Finish(end: Ending) returns (hint: Hint, files: Files)
      modifies this`open, this`path
      ensures hint == NameOf(old(State()), end) && files == FilesOf(old(State()), end)
      ensures State() == Closed(old(State()))
    {
      files := Files(None, end.existing);
      var mine := path;
      path := false;
      open := false;
      if !mine {
        return NoHint, files;
      }
      files := files.(partial := Some(disk));
      if !complete {
        return Partial, files;
      }
      if end.existing.Some? {
        if end.removed {
          files := files.(partial := None);
        }
      } else if end.renamed {
        files := Files(None, Some(disk));
      } else {
        return Partial, files;
      }
      hint := Digest;
    }
  }

  // ----- one pipe: `run_shared`

  /** What one `read` returns, with the outcome of archiving what it returned. */
  datatype SharedRead = Got(bytes: seq<Byte>, ok: bool, written: nat) | Interrupted | Broken

  predicate Writable(pipe: seq<SharedRead>) {
    forall i :: 0 <= i < |pipe| && pipe[i].Got? ==> pipe[i].written <= |pipe[i].bytes|
  }

  /** The bytes received before the pipe ends or breaks. */
  function Received(pipe: seq<SharedRead>): seq<Byte> {
    if pipe == [] || pipe[0].Broken? then []
    else (if pipe[0].Got? then pipe[0].bytes else []) + Received(pipe[1..])
  }

  /** Every chunk received was archived without an error. */
  predicate AllArchived(pipe: seq<SharedRead>) {
    pipe == [] || pipe[0].Broken? || ((pipe[0].Got? ==> pipe[0].ok) && AllArchived(pipe[1..]))
  }

  /** What reaches the archive: the chunks before the first failed write, and the
      part of that chunk that was written. */
  function Written(pipe: seq<SharedRead>): seq<Byte>
    requires Writable(pipe)
  {
    if pipe == [] || pipe[0].Broken? then []
    else if pipe[0].Got? && !pipe[0].ok then pipe[0].bytes[..pipe[0].written]
    else (if pipe[0].Got? then pipe[0].bytes else []) + Written(pipe[1..])
  }

  predicate Breaks(pipe: seq<SharedRead>) {
    pipe != [] && (pipe[0].Broken? || Breaks(pipe[1..]))
  }

  /** What is still received, archived and broken after a read that may have failed. */
  function StillReceived(failed: bool, pipe: seq<SharedRead>): seq<Byte> {
    if failed then [] else Received(pipe)
  }

  predicate StillArchived(complete: bool, failed: bool, pipe: seq<SharedRead>) {
    complete && (failed || AllArchived(pipe))
  }

  function StillWritten(tee: Archive, failed: bool, pipe: seq<SharedRead>): seq<Byte>
    requires Writable(pipe)
  {
    if tee.open && !failed then Written(pipe) else []
  }

  /** One read: its bytes are archived before they join the log. */
  method TakeShared(tee: DurableTee, pipe: seq<SharedRead>, i: nat, raw: seq<Byte>)
    returns (more: seq<Byte>, broken: bool)
    requires i < |pipe| && Writable(pipe) && Follows(tee.State(), raw)
    modifies tee
    ensures Follows(tee.State(), more) && tee.path == old(tee.path)
    ensures more + StillReceived(broken, pipe[i + 1..]) == raw + StillReceived(false, pipe[i..])
    ensures Breaks(pipe[i..]) <==> broken || Breaks(pipe[i + 1..])
    ensures tee.path ==> StillArchived(old(tee.complete), false, pipe[i..])
                         == StillArchived(tee.complete, broken, pipe[i + 1..])
    ensures tee.disk + StillWritten(tee.State(), broken, pipe[i + 1..])
            == old(tee.disk) + StillWritten(old(tee.State()), false, pipe[i..])
  {
    SharedStep(raw, pipe, i);
    WriteStep(tee.State(), pipe, i);
    more, broken := raw, pipe[i].Broken?;
    match pipe[i]
    case Got(bytes, ok, written) =>
      AppendFollows(tee.State(), raw, bytes, ok, written);
      tee.Append(bytes, ok, written);
      more := raw + bytes;
    case _ =>
  }

  /** `run_shared` over any sequence of reads: what it returns is what it received.
      The hint names the digest exactly when every chunk was archived and the
      file got or already had that name, and the file it names then holds what was
      received exactly when no other file had that name before. */
  method RunShared(pipe: seq<SharedRead>, created: bool, end: Ending)
    returns (raw: seq<Byte>, failed: bool, hint: Hint, files: Files)
    requires Writable(pipe)
    ensures raw == Received(pipe) && (failed <==> Breaks(pipe))
    ensures hint.NoHint? <==> !created
    ensures hint.Digest? <==> created && AllArchived(pipe) && (end.existing.Some? || end.renamed)
    ensures hint.Digest? ==> (files.named == Some(raw) <==> end.existing.None? || end.existing == Some(raw))
    ensures hint.Partial? ==> files.partial == Some(Written(pipe))
    ensures hint.Partial? && AllArchived(pipe) ==> files.partial == Some(raw)
    ensures end.existing.Some? || !hint.Digest? ==> files.named == end.existing
  {
    var tee := new DurableTee(created);
    raw, failed := [], false;
    var i := 0;
    ghost var whole, breaks, archived, written := Received(pipe), Breaks(pipe), AllArchived(pipe), Written(pipe);
    assert pipe[0..] == pipe && raw + whole == whole;
    while i < |pipe| && !failed
      invariant i <= |pipe| && tee.path == created && Follows(tee.State(), raw)
      invariant raw + StillReceived(failed, pipe[i..]) == whole
      invariant breaks == (failed || Breaks(pipe[i..]))
      invariant created ==> StillArchived(tee.complete, failed, pipe[i..]) == archived
      invariant created ==> tee.disk + StillWritten(tee.State(), failed, pipe[i..]) == written
    {
      raw, failed := TakeShared(tee, pipe, i, raw);
      i := i + 1;
    }
    assert failed || pipe[i..] == [];
    assert raw + [] == raw && tee.disk + [] == tee.disk;
    AllWritten(pipe);
    hint, files := tee.Finish(end);
  }

  /** An archive that follows `logged`: a prefix of it, and all of it while complete. */
  predicate Follows(tee: Archive, logged: seq<Byte>) {
    tee.disk <= logged && (tee.complete ==> tee.disk == logged && tee.path) && (tee.complete <==> tee.open)
    && (!tee.path ==> tee.disk == [])
  }

  lemma AppendFollows(tee: Archive, logged: seq<Byte>, bytes: seq<Byte>, ok: bool, written: nat)
    requires Follows(tee, logged) && written <= |bytes|
    ensures Follows(Appended(tee, bytes, ok, written), logged + bytes)
  {
    assert logged + bytes[..written] <= logged + bytes;
  }

  lemma WriteStep(tee: Archive, pipe: seq<SharedRead>, i: nat)
    requires i < |pipe| && Writable(pipe)
    ensures pipe[i].Broken? ==> Written(pipe[i..]) == []
    ensures pipe[i].Interrupted? ==> Written(pipe[i..]) == Written(pipe[i + 1..])
    ensures pipe[i].Got? ==>
              var next := Appended(tee, pipe[i].bytes, pipe[i].ok, pipe[i].written);
              next.disk + StillWritten(next, false, pipe[i + 1..]) == tee.disk + StillWritten(tee, false, pipe[i..])
  {
    assert pipe[i..][0] == pipe[i] && pipe[i..][1..] == pipe[i + 1..];
    if pipe[i].Got? && pipe[i].ok {
      ConcatAssoc(tee.disk, pipe[i].bytes, Written(pipe[i + 1..]));
    }
  }

  /** Without a failed write everything is archived; otherwise exactly the chunks
      before the first failed write and the written part of that chunk. */
  lemma {:induction false} AllWritten(pipe: seq<SharedRead>)
    requires Writable(pipe)
    ensures AllArchived(pipe) ==> Written(pipe) == Received(pipe)
    ensures Written(pipe) <= Received(pipe)
  {
    if pipe != [] && !pipe[0].Broken? {
      AllWritten(pipe[1..]);
    }
  }

  lemma {:induction false} WrittenUpTo(pipe: seq<SharedRead>, k: nat)
    requires Writable(pipe) && k < |pipe| && pipe[k].Got? && !pipe[k].ok
    requires !Breaks(pipe[..k]) && AllArchived(pipe[..k])
    ensures Written(pipe) == Received(pipe[..k]) + pipe[k].bytes[..pipe[k].written]
  {
    if k > 0 {
      assert pipe[..k][0] == pipe[0] && pipe[..k][1..] == pipe[1..][..k - 1];
      WrittenUpTo(pipe[1..], k - 1);
      ConcatAssoc(if pipe[0].Got? then pipe[0].bytes else [], Received(pipe[1..][..k - 1]),
                  pipe[k].bytes[..pipe[k].written]);
    } else {
      assert Received(pipe[..0]) == [];
    }
  }

  lemma SharedStep(raw: seq<Byte>, pipe: seq<SharedRead>, i: nat)
    requires i < |pipe|
    ensures pipe[i].Broken? ==> raw + Received(pipe[i..]) == raw
    ensures pipe[i].Got? ==> raw + Received(pipe[i..]) == raw + pipe[i].bytes + Received(pipe[i + 1..])
    ensures pipe[i].Interrupted? ==> raw + Received(pipe[i..]) == raw + Received(pipe[i + 1..])
    ensures AllArchived(pipe[i..])
            <==> pipe[i].Broken? || ((pipe[i].Got? ==> pipe[i].ok) && AllArchived(pipe[i + 1..]))
    ensures Breaks(pipe[i..]) <==> pipe[i].Broken? || Breaks(pipe[i + 1..])
  {
    assert pipe[i..][0] == pipe[i] && pipe[i..][1..] == pipe[i + 1..];
    assert raw + [] == raw;
    if pipe[i].Got? {
      ConcatAssoc(raw, pipe[i].bytes, Received(pipe[i + 1..]));
    }
  }

  // ----- the protocol

  datatype Channel = Stdout | Stderr

  datatype Chunk = Chunk(channel: Channel, bytes: seq<Byte>)

  datatype Worker = Reading | Holding(bytes: seq<Byte>) | Finished | Failed

  datatype Consumer =
    | Receiving
    | Taken(chunk: Chunk)
    | Archived(chunk: Chunk)
    | Logged(chunk: Chunk)
    | Drained
    | Sealed(end: Ending, hint: Hint, files: Files)

  /** One stream: what the producer writes, how much has been read, its worker,
      and what has been routed to its buffer. */
  datatype Pipe = Pipe(stream: seq<Byte>, read: nat, worker: Worker, buffer: seq<Byte>)

  /** `log` is the history of logged chunks. */
  datatype State = State(
    out: Pipe,
    err: Pipe,
    queue: seq<Chunk>,
    consumer: Consumer,
    raw: seq<Byte>,
    log: seq<Chunk>,
    tee: Archive)

  function PipeOf(s: State, c: Channel): Pipe {
    if c == Stdout then s.out else s.err
  }

  function WithPipe(s: State, c: Channel, pipe: Pipe): State {
    if c == Stdout then s.(out := pipe) else s.(err := pipe)
  }

  predicate Init(s: State) {
    s == State(Pipe(s.out.stream, 0, Reading, []), Pipe(s.err.stream, 0, Reading, []), [], Receiving, [], [],
               Created(s.tee.path))
  }

  datatype Action =
    | Read(c: Channel, count: nat)
    | ReadInterrupted(c: Channel)
    | ReadFails(c: Channel)
    | ReadEnds(c: Channel)
    | Send(c: Channel)
    | Receive
    | Persist(ok: bool, written: nat)
    | LogChunk
    | Route
    | Drain
    | Seal(end: Ending)

  predicate Done(worker: Worker) {
    worker.Finished? || worker.Failed?
  }

  predicate Enabled(s: State, a: Action) {
    match a
    case Read(c, count) =>
      PipeOf(s, c).worker.Reading? && 1 <= count <= CHUNK && PipeOf(s, c).read + count <= |PipeOf(s, c).stream|
    case ReadInterrupted(c) => PipeOf(s, c).worker.Reading?
    case ReadFails(c) => PipeOf(s, c).worker.Reading?
    case ReadEnds(c) => PipeOf(s, c).worker.Reading? && PipeOf(s, c).read == |PipeOf(s, c).stream|
    case Send(c) => PipeOf(s, c).worker.Holding?
    case Receive => s.consumer.Receiving? && s.queue != []
    case Persist(ok, written) => s.consumer.Taken? && written <= |s.consumer.chunk.bytes|
    case LogChunk => s.consumer.Archived?
    case Route => s.consumer.Logged?
    case Drain => s.consumer.Receiving? && s.queue == [] && Done(s.out.worker) && Done(s.err.worker)
    case Seal(_) => s.consumer.Drained?
  }

  function Next(s: State, a: Action): State
    requires Enabled(s, a)
  {
    match a
    case Read(c, count) =>
      var pipe := PipeOf(s, c);
      WithPipe(s, c, pipe.(read := pipe.read + count, worker := Holding(pipe.stream[pipe.read..pipe.read + count])))
    case ReadInterrupted(c) => s
    case ReadFails(c) => WithPipe(s, c, PipeOf(s, c).(worker := Failed))
    case ReadEnds(c) => WithPipe(s, c, PipeOf(s, c).(worker := Finished))
    case Send(c) =>
      var pipe := PipeOf(s, c);
      WithPipe(s, c, pipe.(worker := Reading)).(queue := s.queue + [Chunk(c, pipe.worker.bytes)])
    case Receive => s.(queue := s.queue[1..], consumer := Taken(s.queue[0]))
    case Persist(ok, written) =>
      var chunk := s.consumer.chunk;
      s.(tee := Appended(s.tee, chunk.bytes, ok, written), consumer := Archived(chunk))
    case LogChunk =>
      var chunk := s.consumer.chunk;
      s.(raw := s.raw + chunk.bytes, log := s.log + [chunk], consumer := Logged(chunk))
    case Route =>
      var chunk := s.consumer.chunk;
      var pipe := PipeOf(s, chunk.channel);
      WithPipe(s, chunk.channel, pipe.(buffer := pipe.buffer + chunk.bytes)).(consumer := Receiving)
    case Drain => s.(consumer := Drained)
    case Seal(end) => s.(tee := Closed(s.tee), consumer := Sealed(end, NameOf(s.tee, end), FilesOf(s.tee, end)))
  }

  // ----- the invariant

  function All(chunks: seq<Chunk>): seq<Byte> {
    if chunks == [] then [] else All(chunks[..|chunks| - 1]) + chunks[|chunks| - 1].bytes
  }

  /** The bytes of one channel in a sequence of chunks. */
  function Only(chunks: seq<Chunk>, c: Channel): seq<Byte> {
    if chunks == [] then []
    else
      Only(chunks[..|chunks| - 1], c)
      + if chunks[|chunks| - 1].channel == c then chunks[|chunks| - 1].bytes else []
  }

  /** Chunks that the consumer has taken but not routed. */
  function InHand(consumer: Consumer): seq<Chunk> {
    match consumer
    case Taken(chunk) => [chunk]
    case Archived(chunk) => [chunk]
    case Logged(chunk) => [chunk]
    case _ => []
  }

  function Held(worker: Worker): seq<Byte> {
    if worker.Holding? then worker.bytes else []
  }

  /** Whatever has been read of a stream is in its buffer, in the consumer's hand,
      in the queue or with the worker, in that order. */
  predicate Conserved(s: State, c: Channel) {
    var pipe := PipeOf(s, c);
    pipe.read <= |pipe.stream|
    && pipe.buffer + Only(InHand(s.consumer), c) + Only(s.queue, c) + Held(pipe.worker) == pipe.stream[..pipe.read]
    && (pipe.worker.Finished? ==> pipe.read == |pipe.stream|)
  }

  predicate LogIsExact(s: State) {
    s.raw == All(s.log)
    && forall c :: Only(s.log, c) == PipeOf(s, c).buffer + if s.consumer.Logged? then Only([s.consumer.chunk], c) else []
  }

  /** The archive may be one chunk ahead of the log, never behind while complete. */
  predicate TeeFollows(s: State) {
    match s.consumer
    case Archived(chunk) => Follows(s.tee, s.raw + chunk.bytes)
    case Sealed(end, hint, files) => IsArchived(end, hint, files, s.tee, s.raw)
    case _ => Follows(s.tee, s.raw)
  }

  /** What a hint says about the files: the one it names holds the log exactly
      when no other file had that name; a partial one is what was written, and all
      of the log if no write failed; a file that had the name before is never
      touched. */
  predicate IsArchived(end: Ending, hint: Hint, files: Files, tee: Archive, raw: seq<Byte>) {
    tee.disk <= raw && (tee.complete ==> tee.disk == raw)
    && (hint.Digest? ==> (files.named == Some(raw) <==> end.existing.None? || end.existing == Some(raw)))
    && (hint.Partial? ==> files.partial == Some(tee.disk))
    && (end.existing.Some? || !hint.Digest? ==> files.named == end.existing)
  }

  predicate IsDrained(s: State) {
    s.consumer.Drained? || s.consumer.Sealed? ==> s.queue == [] && Done(s.out.worker) && Done(s.err.worker)
  }

  predicate Inv(s: State) {
    Conserved(s, Stdout) && Conserved(s, Stderr) && LogIsExact(s) && TeeFollows(s) && IsDrained(s)
  }

  lemma InitHolds(s: State)
    requires Init(s)
    ensures Inv(s)
  {
  }

  lemma OnlySnoc(chunks: seq<Chunk>, chunk: Chunk, c: Channel)
    ensures Only(chunks + [chunk], c) == Only(chunks, c) + if chunk.channel == c then chunk.bytes else []
    ensures All(chunks + [chunk]) == All(chunks) + chunk.bytes
  {
    assert (chunks + [chunk])[..|chunks|] == chunks;
  }

  lemma {:induction false} OnlyAppend(a: seq<Chunk>, b: seq<Chunk>, c: Channel)
    ensures Only(a + b, c) == Only(a, c) + Only(b, c)
  {
    if b == [] {
      assert a + b == a;
    } else {
      var front, last := b[..|b| - 1], b[|b| - 1];
      OnlyAppend(a, front, c);
      SnocOf(a, b);
      OnlySnoc(a + front, last, c);
      OnlySnoc(front, last, c);
      ConcatAssoc(Only(a, c), Only(front, c), if last.channel == c then last.bytes else []);
    }
  }

  lemma SnocOf(a: seq<Chunk>, b: seq<Chunk>)
    requires b != []
    ensures a + b == (a + b[..|b| - 1]) + [b[|b| - 1]] && b == b[..|b| - 1] + [b[|b| - 1]]
  {
  }

  lemma OnlyCons(chunks: seq<Chunk>, c: Channel)
    requires chunks != []
    ensures Only(chunks, c) == Only([chunks[0]], c) + Only(chunks[1..], c)
  {
    assert [chunks[0]] + chunks[1..] == chunks;
    OnlyAppend([chunks[0]], chunks[1..], c);
  }

  lemma OnlyOne(chunk: Chunk, c: Channel)
    ensures Only([chunk], c) == if chunk.channel == c then chunk.bytes else []
  {
    assert [] + [chunk] == [chunk];
    OnlySnoc([], chunk, c);
  }

  lemma ReadConserves(s: State, d: Channel, count: nat, c: Channel)
    requires Conserved(s, c) && Enabled(s, Read(d, count))
    ensures Conserved(Next(s, Read(d, count)), c)
  {
    var pipe := PipeOf(s, c);
    if c == d {
      var bytes := pipe.stream[pipe.read..pipe.read + count];
      assert pipe.stream[..pipe.read + count] == pipe.stream[..pipe.read] + bytes;
      assert pipe.stream[..pipe.read] + [] == pipe.stream[..pipe.read];
    }
  }

  lemma SendConserves(s: State, d: Channel, c: Channel)
    requires Conserved(s, c) && Enabled(s, Send(d))
    ensures Conserved(Next(s, Send(d)), c)
  {
    var bytes := PipeOf(s, d).worker.bytes;
    OnlySnoc(s.queue, Chunk(d, bytes), c);
    if c == d {
      var pipe := PipeOf(s, c);
      var front := pipe.buffer + Only(InHand(s.consumer), c);
      assert front + (Only(s.queue, c) + bytes) + [] == front + Only(s.queue, c) + bytes;
    } else {
      assert Only(s.queue, c) + [] == Only(s.queue, c);
    }
  }

  lemma ReceiveConserves(s: State, c: Channel)
    requires Conserved(s, c) && Enabled(s, Receive)
    ensures Conserved(Next(s, Receive), c)
  {
    OnlyCons(s.queue, c);
    var pipe := PipeOf(s, c);
    assert pipe.buffer + [] == pipe.buffer;
    ConcatAssoc(pipe.buffer, Only([s.queue[0]], c), Only(s.queue[1..], c));
  }

  lemma RouteConserves(s: State, c: Channel)
    requires Conserved(s, c) && Enabled(s, Route)
    ensures Conserved(Next(s, Route), c)
  {
    OnlyOne(s.consumer.chunk, c);
    var pipe := PipeOf(s, c);
    assert pipe.buffer + Only([s.consumer.chunk], c) + [] == pipe.buffer + Only([s.consumer.chunk], c);
    assert pipe.buffer + [] == pipe.buffer;
  }

  lemma ConservedNext(s: State, a: Action, c: Channel)
    requires Conserved(s, c) && Enabled(s, a)
    ensures Conserved(Next(s, a), c)
  {
    match a
    case Read(d, count) => ReadConserves(s, d, count, c);
    case Send(d) => SendConserves(s, d, c);
    case Receive => ReceiveConserves(s, c);
    case Route => RouteConserves(s, c);
    case _ => OtherConserves(s, a, c);
  }

  /** The other steps move no byte. */
  lemma OtherConserves(s: State, a: Action, c: Channel)
    requires Conserved(s, c) && Enabled(s, a) && !a.Read? && !a.Send? && !a.Receive? && !a.Route?
    ensures Conserved(Next(s, a), c)
  {
    var before, after := PipeOf(s, c), PipeOf(Next(s, a), c);
    assert after.stream == before.stream && after.read == before.read && after.buffer == before.buffer;
    assert Next(s, a).queue == s.queue && InHand(Next(s, a).consumer) == InHand(s.consumer);
    assert Held(after.worker) == Held(before.worker);
  }

  lemma LogNext(s: State, a: Action)
    requires LogIsExact(s) && Enabled(s, a)
    ensures LogIsExact(Next(s, a))
  {
    match a
    case LogChunk => ChunkIsLogged(s);
    case Route => ChunkIsRouted(s);
    case _ =>
      forall c: Channel
        ensures PipeOf(Next(s, a), c).buffer == PipeOf(s, c).buffer
      {
      }
  }

  lemma ChunkIsLogged(s: State)
    requires LogIsExact(s) && Enabled(s, LogChunk)
    ensures LogIsExact(Next(s, LogChunk))
  {
    forall c: Channel
      ensures Only(Next(s, LogChunk).log, c) == PipeOf(s, c).buffer + Only([s.consumer.chunk], c)
    {
      OnlySnoc(s.log, s.consumer.chunk, c);
      OnlyOne(s.consumer.chunk, c);
    }
    OnlySnoc(s.log, s.consumer.chunk, Stdout);
  }

  lemma ChunkIsRouted(s: State)
    requires LogIsExact(s) && Enabled(s, Route)
    ensures LogIsExact(Next(s, Route))
  {
    OnlyOne(s.consumer.chunk, Stdout);
    OnlyOne(s.consumer.chunk, Stderr);
  }

  lemma TeeNext(s: State, a: Action)
    requires TeeFollows(s) && Enabled(s, a)
    ensures TeeFollows(Next(s, a))
  {
    if a.Persist? {
      AppendFollows(s.tee, s.raw, s.consumer.chunk.bytes, a.ok, a.written);
    }
  }

  lemma DrainedNext(s: State, a: Action)
    requires Enabled(s, a) && IsDrained(s)
    ensures IsDrained(Next(s, a))
    ensures Next(s, a).out.stream == s.out.stream && Next(s, a).err.stream == s.err.stream
  {
  }

  /** Every step of the workers and the consumer keeps the invariant. */
  lemma StepHolds(s: State, a: Action)
    requires Inv(s) && Enabled(s, a)
    ensures Inv(Next(s, a))
  {
    ConservedNext(s, a, Stdout);
    ConservedNext(s, a, Stderr);
    LogNext(s, a);
    TeeNext(s, a);
    DrainedNext(s, a);
  }

  // ----- runs

  predicate Run(states: seq<State>, actions: seq<Action>) {
    |states| == |actions| + 1 && Init(states[0])
    && forall i :: 0 <= i < |actions| ==>
         Enabled(states[i], actions[i]) && states[i + 1] == Next(states[i], actions[i])
  }

  lemma {:induction false} RunHolds(states: seq<State>, actions: seq<Action>)
    requires Run(states, actions)
    ensures Inv(states[|actions|])
    ensures states[|actions|].out.stream == states[0].out.stream && states[|actions|].err.stream == states[0].err.stream
  {
    var n := |actions|;
    if n == 0 {
      InitHolds(states[0]);
    } else {
      RunHolds(states[..n], actions[..n - 1]);
      StepHolds(states[n - 1], actions[n - 1]);
      DrainedNext(states[n - 1], actions[n - 1]);
    }
  }

  /** In every schedule, a capture that ends without a read error returns both
      streams exactly, and its log is their chunks in the order received. */
  lemma CaptureIsExact(states: seq<State>, actions: seq<Action>)
    requires Run(states, actions) && (states[|actions|].consumer.Drained? || states[|actions|].consumer.Sealed?)
    requires states[|actions|].out.worker.Finished? && states[|actions|].err.worker.Finished?
    ensures var s := states[|actions|];
            s.out.buffer == states[0].out.stream && s.err.buffer == states[0].err.stream
            && s.raw == All(s.log) && Only(s.log, Stdout) == states[0].out.stream
            && Only(s.log, Stderr) == states[0].err.stream && |s.raw| == |s.out.stream| + |s.err.stream|
  {
    var s := states[|actions|];
    RunHolds(states, actions);
    assert s.out.stream[..|s.out.stream|] == s.out.stream;
    assert s.err.stream[..|s.err.stream|] == s.err.stream;
    SizesAdd(s.log);
  }

  lemma {:induction false} SizesAdd(log: seq<Chunk>)
    ensures |All(log)| == |Only(log, Stdout)| + |Only(log, Stderr)|
  {
    if log != [] {
      SizesAdd(log[..|log| - 1]);
    }
  }

  /** At every moment of every schedule, read errors included, the archive is a
      prefix of the log and of at most the chunk in hand. */
  lemma TeeIsAPrefix(states: seq<State>, actions: seq<Action>)
    requires Run(states, actions)
    ensures var s := states[|actions|];
            s.tee.disk <= s.raw + if s.consumer.Archived? then s.consumer.chunk.bytes else []
  {
    RunHolds(states, actions);
    var s := states[|actions|];
    assert s.raw + [] == s.raw;
  }

  /** In every schedule, read and write errors included, the archive that `finish`
      names after the digest of the log holds the log exactly when no other file
      had that name before; any other archive holds a prefix of the log. */
  lemma NamedArchiveIsExact(states: seq<State>, actions: seq<Action>)
    requires Run(states, actions) && states[|actions|].consumer.Sealed?
    ensures var s := states[|actions|];
            var c := s.consumer;
            (c.hint.Digest? ==> (Target(c.hint, c.files) == Some(s.raw)
                                 <==> c.end.existing.None? || c.end.existing == Some(s.raw)))
            && (c.hint.Partial? ==> Target(c.hint, c.files).Some? && Target(c.hint, c.files).value <= s.raw)
            && (c.hint.NoHint? <==> !states[0].tee.path)
            && (c.end.existing.Some? || !c.hint.Digest? ==> c.files.named == c.end.existing)
  {
    RunHolds(states, actions);
    PathIsKept(states, actions);
  }

  // ----- what is on disk

  function NowPersisted(s: State, a: Action): seq<SharedRead> {
    match a
    case Persist(ok, written) => if s.consumer.Taken? then [Got(s.consumer.chunk.bytes, ok, written)] else []
    case _ => []
  }

  /** The archived chunks so far, each with the outcome of its write. */
  function Persisted(states: seq<State>, actions: seq<Action>, n: nat): seq<SharedRead>
    requires |states| == |actions| + 1 && n <= |actions|
  {
    if n == 0 then []
    else
      Persisted(states, actions, n - 1) + NowPersisted(states[n - 1], actions[n - 1])
  }

  /** The archive never loses a byte. */
  lemma DiskGrows(s: State, a: Action)
    requires Enabled(s, a)
    ensures s.tee.disk <= Next(s, a).tee.disk
  {
  }

  lemma {:induction false} WrittenSnoc(pipe: seq<SharedRead>, last: SharedRead)
    requires Writable(pipe) && !Breaks(pipe) && last.Got? && last.written <= |last.bytes|
    ensures Writable(pipe + [last]) && !Breaks(pipe + [last])
    ensures Written(pipe + [last])
            == if !AllArchived(pipe) then Written(pipe)
               else Written(pipe) + if last.ok then last.bytes else last.bytes[..last.written]
    ensures AllArchived(pipe + [last]) <==> AllArchived(pipe) && last.ok
  {
    assert forall i :: 0 <= i < |pipe| ==> (pipe + [last])[i] == pipe[i];
    if pipe == [] {
      assert pipe + [last] == [last] && [last][1..] == [];
      assert last.bytes + Written([]) == last.bytes;
    } else {
      assert (pipe + [last])[1..] == pipe[1..] + [last] && (pipe + [last])[0] == pipe[0];
      WrittenSnoc(pipe[1..], last);
      if pipe[0].Got? {
        ConcatAssoc(pipe[0].bytes, Written(pipe[1..]), if last.ok then last.bytes else last.bytes[..last.written]);
      }
    }
  }

  /** The archive holds exactly the chunks before the first failed write, and the
      written part of that chunk. */
  predicate HoldsWritten(tee: Archive, created: bool, pipe: seq<SharedRead>) {
    Writable(pipe) && !Breaks(pipe) && tee.disk == (if created then Written(pipe) else [])
    && (tee.complete <==> created && AllArchived(pipe))
  }

  lemma PersistHolds(tee: Archive, created: bool, pipe: seq<SharedRead>, last: SharedRead)
    requires HoldsWritten(tee, created, pipe) && (tee.open <==> tee.complete)
    requires last.Got? && last.written <= |last.bytes|
    ensures HoldsWritten(Appended(tee, last.bytes, last.ok, last.written), created, pipe + [last])
  {
    WrittenSnoc(pipe, last);
  }

  /** At every moment of every schedule. */
  lemma {:induction false} DiskIs(states: seq<State>, actions: seq<Action>, n: nat)
    requires Run(states, actions) && n <= |actions|
    ensures HoldsWritten(states[n].tee, states[0].tee.open, Persisted(states, actions, n))
  {
    if n > 0 {
      DiskIs(states, actions, n - 1);
      RunPrefix(states, actions, n - 1);
      assert Enabled(states[n - 1], actions[n - 1]) && states[n - 1 + 1] == Next(states[n - 1], actions[n - 1]);
      DiskStep(states[n - 1], actions[n - 1], states[0].tee.open, Persisted(states, actions, n - 1));
    }
  }

  lemma DiskStep(s: State, a: Action, created: bool, pipe: seq<SharedRead>)
    requires Inv(s) && Enabled(s, a) && HoldsWritten(s.tee, created, pipe)
    ensures HoldsWritten(Next(s, a).tee, created, pipe + NowPersisted(s, a))
  {
    assert pipe + [] == pipe;
    if a.Persist? {
      PersistHolds(s.tee, created, pipe, Got(s.consumer.chunk.bytes, a.ok, a.written));
    }
  }

  lemma RunPrefix(states: seq<State>, actions: seq<Action>, n: nat)
    requires Run(states, actions) && n <= |actions|
    ensures Inv(states[n])
  {
    RunHolds(states[..n + 1], actions[..n]);
  }

  /** In every schedule, a partial archive holds exactly those bytes, and all of the
      log if no write failed and only the renaming did. */
  lemma PartialArchiveIsExact(states: seq<State>, actions: seq<Action>)
    requires Run(states, actions) && states[|actions|].consumer.Sealed? && states[|actions|].consumer.hint.Partial?
    ensures var s := states[|actions|];
            var pipe := Persisted(states, actions, |actions|);
            Writable(pipe) && Target(s.consumer.hint, s.consumer.files) == Some(Written(pipe))
            && (AllArchived(pipe) ==> Target(s.consumer.hint, s.consumer.files) == Some(s.raw))
  {
    RunHolds(states, actions);
    DiskIs(states, actions, |actions|);
    PathIsKept(states, actions);
  }

  /** Whether the file of the archive could be created. */
  predicate HadPath(s: State, created: bool) {
    match s.consumer
    case Sealed(_, hint, _) => hint.NoHint? <==> !created
    case _ => s.tee.path == created
  }

  lemma PathStep(s: State, a: Action, created: bool)
    requires Enabled(s, a) && HadPath(s, created)
    ensures HadPath(Next(s, a), created)
  {
  }

  lemma {:induction false} PathIsKept(states: seq<State>, actions: seq<Action>)
    requires Run(states, actions)
    ensures HadPath(states[|actions|], states[0].tee.path)
  {
    var n := |actions|;
    if n > 0 {
      PathIsKept(states[..n], actions[..n - 1]);
      PathStep(states[n - 1], actions[n - 1], states[0].tee.path);
      assert states[n - 1 + 1] == Next(states[n - 1], actions[n - 1]);
    }
  }

  /** A complete capture over any other file of that name: the hint names that
      file, and the only exact copy is removed. */
  lemma StaleArchiveIsNamed(states: seq<State>, actions: seq<Action>, other: seq<Byte>) returns (end: State)
    requires Run(states, actions)
    requires var s := states[|actions|]; s.consumer.Drained? && s.tee.complete && other != s.raw
    ensures var seal := Seal(Ending(Some(other), true, true));
            Run(states + [end], actions + [seal])
    ensures end.consumer.Sealed? && end.consumer.hint.Digest? && end.raw == states[|actions|].raw
    ensures Target(end.consumer.hint, end.consumer.files) == Some(other) && end.consumer.files.partial.None?
  {
    var s, seal := states[|actions|], Seal(Ending(Some(other), true, true));
    RunHolds(states, actions);
    end := Next(s, seal);
    RunSnoc(states, actions, seal);
  }

  lemma RunSnoc(states: seq<State>, actions: seq<Action>, a: Action)
    requires Run(states, actions) && Enabled(states[|actions|], a)
    ensures Run(states + [Next(states[|actions|], a)], actions + [a])
  {
    var more, all := states + [Next(states[|actions|], a)], actions + [a];
    forall i | 0 <= i < |all|
      ensures Enabled(more[i], all[i]) && more[i + 1] == Next(more[i], all[i])
    {
      if i < |actions| {
        assert Enabled(states[i], actions[i]) && states[i + 1] == Next(states[i], actions[i]);
      }
    }
  }

  /** How the operating system answers `write_private_archive`: it refuses the
      file, or writes all of the bytes, or fails after `written` of them. */
  datatype Writing = Writing(refused: bool, ok: bool, written: nat)

  /** `write_private_archive`, which a report uses after the capture (Unix). It
      reads a file of the same length that already has the name and writes it again
      if it differs. With nothing to write, a longer file passes for equal. */
  method WritePrivateArchive(existing: Option<seq<Byte>>, bytes: seq<Byte>, w: Writing)
    returns (done: bool, file: Option<seq<Byte>>)
    requires w.written <= |bytes|
    ensures done <==> !w.refused && (existing == Some(bytes) || (bytes == [] && existing.Some?) || w.ok)
    ensures done ==> (file == Some(bytes) <==> bytes != [] || existing.None? || existing == Some([]))
    ensures !done && w.refused ==> file == existing
    ensures !done && !w.refused ==> file == Some(bytes[..w.written])
  {
    if w.refused {
      return false, existing;
    }
    if existing.Some? {
      var content := if |existing.value| == |bytes| then existing.value else [];
      if content == bytes {
        return true, existing;
      }
    }
    done, file := w.ok, Some(if w.ok then bytes else bytes[..w.written]);
  }

  /** A report that archives what was captured names an exact file, whatever the
      capture found under that name and left there, if anything was captured. */
  method CaptureAndArchive(pipe: seq<SharedRead>, created: bool, end: Ending, w: Writing)
    returns (raw: seq<Byte>, archived: bool, file: Option<seq<Byte>>)
    requires Writable(pipe) && w.written <= |Received(pipe)|
    ensures raw == Received(pipe)
    ensures !w.refused && w.ok ==> archived
    ensures archived && raw != [] ==> file == Some(raw)
    ensures archived && raw == [] ==> (file == Some(raw) <==> end.existing.None? || end.existing == Some([]))
  {
    var failed, hint, files;
    raw, failed, hint, files := RunShared(pipe, created, end);
    archived, file := WritePrivateArchive(files.named, raw, w);
  }

  /** The capture of one byte. */
  function OneByte(byte: Byte): seq<Action> {
    [Read(Stdout, 1), Send(Stdout), Receive, Persist(true, 0), LogChunk, Route, ReadEnds(Stdout), ReadEnds(Stderr), Drain]
  }

  /** Such a run exists: an interrupted write has left an empty file under the
      digest of one byte. */
  lemma StaleArchiveHappens(byte: Byte) returns (states: seq<State>, actions: seq<Action>)
    ensures Run(states, actions)
    ensures var s := states[|actions|];
            s.raw == [byte] && s.consumer.Sealed? && s.consumer.hint.Digest?
            && Target(s.consumer.hint, s.consumer.files) == Some([]) && s.consumer.files.partial.None?
  {
    states := OneByteRun(byte);
    var end := StaleArchiveIsNamed(states, OneByte(byte), []);
    states, actions := states + [end], OneByte(byte) + [Seal(Ending(Some([]), true, true))];
  }

  /** The run up to its `n`-th step. */
  function OneByteState(byte: Byte, n: nat): State
    requires n <= 9
  {
    var chunk, open := Chunk(Stdout, [byte]), Pipe([], 0, Reading, []);
    var read, tee := Pipe([byte], 1, Reading, []), Archive([byte], true, true, true);
    var done := Pipe([byte], 1, Reading, [byte]);
    match n
    case 0 => State(Pipe([byte], 0, Reading, []), open, [], Receiving, [], [], Created(true))
    case 1 => State(read.(worker := Holding([byte])), open, [], Receiving, [], [], Created(true))
    case 2 => State(read, open, [chunk], Receiving, [], [], Created(true))
    case 3 => State(read, open, [], Taken(chunk), [], [], Created(true))
    case 4 => State(read, open, [], Archived(chunk), [], [], tee)
    case 5 => State(read, open, [], Logged(chunk), [byte], [chunk], tee)
    case 6 => State(done, open, [], Receiving, [byte], [chunk], tee)
    case 7 => State(done.(worker := Finished), open, [], Receiving, [byte], [chunk], tee)
    case 8 => State(done.(worker := Finished), open.(worker := Finished), [], Receiving, [byte], [chunk], tee)
    case 9 => State(done.(worker := Finished), open.(worker := Finished), [], Drained, [byte], [chunk], tee)
  }

  lemma OneByteStep(byte: Byte, n: nat)
    requires n < 9
    ensures Enabled(OneByteState(byte, n), OneByte(byte)[n])
    ensures OneByteState(byte, n + 1) == Next(OneByteState(byte, n), OneByte(byte)[n])
  {
    assert [byte][0..1] == [byte] && [] + [byte] == [byte];
    assert [Chunk(Stdout, [byte])][1..] == [] && [] + [Chunk(Stdout, [byte])] == [Chunk(Stdout, [byte])];
  }

  lemma OneByteRun(byte: Byte) returns (states: seq<State>)
    ensures Run(states, OneByte(byte))
    ensures var s := states[|OneByte(byte)|]; s.raw == [byte] && s.consumer.Drained? && s.tee.complete
  {
    states := seq(10, n requires 0 <= n < 10 => OneByteState(byte, n));
    forall n | 0 <= n < 9
      ensures Enabled(states[n], OneByte(byte)[n]) && states[n + 1] == Next(states[n], OneByte(byte)[n])
    {
      OneByteStep(byte, n);
    }
  }

  // ----- progress

  /** Steps that a worker, a chunk or the consumer may still take at most. */
  function PipeSteps(pipe: Pipe): int {
    6 * (|pipe.stream| - pipe.read)
    + match pipe.worker
      case Reading => 1
      case Holding(_) => 6
      case _ => 0
  }

  function ConsumerSteps(consumer: Consumer): nat {
    match consumer
    case Receiving => 2
    case Taken(_) => 5
    case Archived(_) => 4
    case Logged(_) => 3
    case Drained => 1
    case Sealed(_, _, _) => 0
  }

  function Remaining(s: State): int {
    PipeSteps(s.out) + PipeSteps(s.err) + 4 * |s.queue| + ConsumerSteps(s.consumer)
  }

  predicate InBounds(s: State) {
    s.out.read <= |s.out.stream| && s.err.read <= |s.err.stream|
  }

  /** A step of one worker, for the step of its pipe and the queue. */
  lemma PipeStep(s: State, c: Channel, pipe: Pipe, queue: seq<Chunk>)
    requires PipeSteps(pipe) + 4 * |queue| < PipeSteps(PipeOf(s, c)) + 4 * |s.queue|
    ensures Remaining(WithPipe(s, c, pipe).(queue := queue)) < Remaining(s)
  {
  }

  lemma WorkerStep(s: State, a: Action, c: Channel)
    requires Enabled(s, a)
    requires a == ReadFails(c) || a == ReadEnds(c) || a == Send(c) || (a.Read? && a.c == c)
    ensures Remaining(Next(s, a)) < Remaining(s)
  {
    PipeStep(s, c, PipeOf(Next(s, a), c), Next(s, a).queue);
  }

  lemma StepsDecrease(s: State, a: Action)
    requires Enabled(s, a) && !a.ReadInterrupted?
    ensures Remaining(Next(s, a)) < Remaining(s)
  {
    match a
    case Read(c, _) => WorkerStep(s, a, c);
    case ReadFails(c) => WorkerStep(s, a, c);
    case ReadEnds(c) => WorkerStep(s, a, c);
    case Send(c) => WorkerStep(s, a, c);
    case Route =>
      var pipe := PipeOf(s, s.consumer.chunk.channel);
      assert PipeSteps(pipe.(buffer := pipe.buffer + s.consumer.chunk.bytes)) == PipeSteps(pipe);
    case _ =>
  }

  lemma SomeStep(s: State) returns (a: Action)
    requires InBounds(s) && !s.consumer.Sealed?
    ensures Enabled(s, a) && !a.ReadInterrupted? && !a.ReadFails?
  {
    if {
      case s.consumer.Taken? => a := Persist(true, 0);
      case s.consumer.Archived? => a := LogChunk;
      case s.consumer.Logged? => a := Route;
      case s.consumer.Drained? => a := Seal(Ending(None, true, true));
      case s.consumer.Receiving? && s.queue != [] => a := Receive;
      case s.consumer.Receiving? && s.queue == [] && Done(s.out.worker) && Done(s.err.worker) => a := Drain;
      case s.consumer.Receiving? && !(Done(s.out.worker) && Done(s.err.worker)) =>
        var c := if Done(s.out.worker) then Stderr else Stdout;
        var pipe := PipeOf(s, c);
        a := if pipe.worker.Holding? then Send(c) else if pipe.read == |pipe.stream| then ReadEnds(c) else Read(c, 1);
    }
  }

  /** No schedule blocks before the archive is named, and every step but an
      interrupted read brings that nearer. */
  lemma CaptureFinishes(s: State)
    requires Inv(s)
    ensures Remaining(s) >= 0
    ensures !s.consumer.Sealed? ==> exists a :: Enabled(s, a) && !a.ReadInterrupted? && !a.ReadFails?
    ensures forall a :: Enabled(s, a) && !a.ReadInterrupted? ==> Remaining(Next(s, a)) < Remaining(s)
  {
    if !s.consumer.Sealed? {
      var a := SomeStep(s);
    }
    forall a | Enabled(s, a) && !a.ReadInterrupted?
      ensures Remaining(Next(s, a)) < Remaining(s)
    {
      StepsDecrease(s, a);
    }
  }
}

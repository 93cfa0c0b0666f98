module ResumeProtocol {
  // Downloads over attempts, pauses, crashes and restarts.
  //
  // One task, its record in the saved state, and its file. An attempt reconciles the file with the record, opens
  // it, saves the record, and drives a writer with the bytes an honest server sends; the record is saved again
  // at checkpoints and at the end. Saving may fail at every point, the connection may break at every point, and
  // a crash may come between any two steps. A crash keeps the durable bytes of the file and anything of the
  // rest; truncation is atomic.

  import opened Common
  import opened Decimal
  import opened RangeResponses
  import P = WriterProtocol

  /** The bytes the server holds for each revision. */
  type Remote = map<nat, seq<byte>>

  datatype Task = Task(revision: nat, committed: nat, completed: bool)

  /** `shown` is what a reader sees, `sure` how much of it survives a crash. */
  datatype Disk = Disk(shown: seq<byte>, sure: nat)

  datatype Gate = Waiting | Refused | Open(body: seq<byte>)

  datatype Cause = Running | CurlOk | Broken

  datatype Phase =
    | Rest
    | Prepared(task: Task)                     // after `applyRemote` or `sameRemote`
    | Reconciled(task: Task)
    | Opened(task: Task)
    | Saved(task: Task, clean: bool)           // `clean`: no save of this attempt has failed
    | Receiving(task: Task, clean: bool, gate: Gate, sent: nat, cause: Cause, writer: P.State, flushFailed: bool)
                                               // `flushFailed`: `finish` was called and its own flush failed
    | Verifying(task: Task)

  datatype System = System(
    memory: Task,                              // the record in the running program
    saved: Task,                               // the record in the state file
    file: Option<Disk>,                        // while an attempt receives, the writer holds the file
    phase: Phase
  )

  ghost predicate Known(remote: Remote, task: Task) {
    task.revision in remote && |remote[task.revision]| <= U64_MAX
  }

  function Bytes(remote: Remote, task: Task): seq<byte> {
    if task.revision in remote then remote[task.revision] else []
  }

  // ----- reconciling a record with a file

  function ReconciledFile(committed: nat, file: Option<Disk>): Option<Disk> {
    match file
    case Some(disk) =>
      if |disk.shown| > committed then Some(Disk(disk.shown[..committed], committed)) else file
    case None => None
  }

  function ReconciledCount(committed: nat, file: Option<Disk>): nat {
    match file
    case Some(disk) => Min(committed, |disk.shown|)
    case None => 0
  }

  // ----- steps

  /** A final response: status line, Content-Range header, and the bytes that follow. */
  datatype Response = Response(status: int, range: string, body: seq<byte>)

  /** An honest server sends the whole file with 200, and exactly the announced slice with 206. */
  ghost predicate Honest(content: seq<byte>, r: Response) {
    && (r.status == 200 ==> r.body == content)
    && (r.status == 206 ==> exists first: nat, last: nat ::
          first <= last < |content| && r.range == ContentRange(first, last, |content|)
              && r.body == content[first..last + 1])
  }

  datatype Step =
    | Recover(opens: bool, saves: bool)        // at start-up
    | Resume(revision: nat)                    // a new attempt at the same revision
    | Restart(revision: nat)                   // throws the partial file away
    | Reconcile
    | GiveUp(saves: bool)                      // opening, space check or connecting failed
    | OpenFile
    | SaveTask(saves: bool)
    | Connect(threaded: bool, capacity: nat, chunk: nat)
    | Respond(response: Response, saves: bool)
    | Chunk(count: nat, ok: bool, after: seq<byte>, moved: nat)
    | Inside(action: P.Action)                 // the writer runs
    | AskCheckpoint(flushed: bool)
    | SaveCheckpoint(saves: bool)
    | EndTransfer(cause: Cause)
    | CallFinish(flushed: bool)
    | Conclude(saves: bool)
    | Verify(matches: bool, saves: bool)
    | Crash(left: Option<seq<byte>>)

  /** What a crash may leave of a file. */
  ghost predicate Survives(disk: Option<Disk>, after: Option<seq<byte>>) {
    match (disk, after)
    case (None, _) => after == None
    case (Some(d), None) => d.sure == 0
    case (Some(d), Some(c)) => d.sure <= |c| <= |d.shown| && d.sure <= |d.shown| && c[..d.sure] == d.shown[..d.sure]
  }

  /** The file as the rest of the system sees it. */
  function CurrentFile(s: System): Option<Disk> {
    if s.phase.Receiving? then Some(Disk(s.phase.writer.store.file, s.phase.writer.store.durable)) else s.file
  }

  /** Actions of the writer that neither begin nor depend on a call of the attempt. */
  predicate RunsItself(a: P.Action) {
    P.Internal(a) || a.Timeout? || a.WakeWorker? || a.WakeProducer?
  }

  /** The last call into the writer has returned and has not told the attempt to stop. */
  predicate Flowing(w: P.State) {
    w.producer.Idle? && (w.producer.last.Nothing? || w.producer.last.Accepted? || w.producer.last.Checkpointed?)
  }

  ghost predicate Enabled(remote: Remote, s: System, step: Step) {
    match step
    case Recover(_, _) => s.phase.Rest? && !s.memory.completed
    case Resume(rev) => s.phase.Rest? && !s.memory.completed && s.memory.revision == rev
    case Restart(rev) => s.phase.Rest? && !s.memory.completed && rev in remote && |remote[rev]| <= U64_MAX
    case Reconcile =>
      s.phase.Prepared? && (s.file.Some? ==> |s.file.value.shown| <= |Bytes(remote, s.phase.task)|)
    case GiveUp(_) => s.phase.Prepared? || s.phase.Reconciled? || s.phase.Opened? || s.phase.Saved?
    case OpenFile => s.phase.Reconciled?
    case SaveTask(_) => s.phase.Opened?
    case Connect(threaded, capacity, chunk) => s.phase.Saved? && s.file.Some? && 1 <= capacity && 1 <= chunk
    case Respond(r, _) =>
      s.phase.Receiving? && s.phase.gate.Waiting? && s.phase.cause.Running?
      && s.phase.writer.store.base < |Bytes(remote, s.phase.task)| && Honest(Bytes(remote, s.phase.task), r)
    case Chunk(n, ok, after, moved) =>
      s.phase.Receiving? && s.phase.gate.Open? && s.phase.cause.Running? && Flowing(s.phase.writer)
      && 1 <= n <= |s.phase.gate.body| - s.phase.sent
      && P.Enabled(s.phase.writer, Give(s, n, ok, after, moved))
    case Inside(a) => s.phase.Receiving? && RunsItself(a) && P.Enabled(s.phase.writer, a)
    case AskCheckpoint(flushed) =>
      s.phase.Receiving? && s.phase.gate.Open? && s.phase.cause.Running? && Flowing(s.phase.writer)
      && P.Enabled(s.phase.writer, Ask(s, flushed))
    case SaveCheckpoint(_) =>
      s.phase.Receiving? && s.phase.gate.Open? && s.phase.cause.Running?
      && s.phase.writer.producer.Idle? && s.phase.writer.producer.last.Checkpointed?
    case EndTransfer(cause) => s.phase.Receiving? && s.phase.cause.Running? && s.phase.writer.producer.Idle?
        && !cause.Running?
    case CallFinish(flushed) =>
      s.phase.Receiving? && !s.phase.cause.Running? && s.phase.writer.producer.Idle? && !Over(s.phase.writer)
      && P.Enabled(s.phase.writer, End(s, flushed))
    case Conclude(_) => s.phase.Receiving? && s.phase.writer.producer.Idle? && Over(s.phase.writer)
    case Verify(_, _) => s.phase.Verifying?
    case Crash(left) => Survives(CurrentFile(s), left)
  }

  /** `finish` has returned. */
  predicate Over(w: P.State) {
    w.producer.Idle? && (w.producer.last.Finished? || w.producer.last.FinishFailed?)
  }

  function Give(s: System, n: nat, ok: bool, after: seq<byte>, moved: nat): P.Action
    requires s.phase.Receiving? && s.phase.gate.Open? && s.phase.sent + n <= |s.phase.gate.body|
  {
    var data := s.phase.gate.body[s.phase.sent..s.phase.sent + n];
    if s.phase.writer.asynchronous then P.CallWrite(data) else P.SyncWrite(data, ok, after, moved)
  }

  function Ask(s: System, flushed: bool): P.Action
    requires s.phase.Receiving?
  {
    if s.phase.writer.asynchronous then P.CallCheckpoint else P.SyncCheckpoint(flushed)
  }

  function End(s: System, flushed: bool): P.Action
    requires s.phase.Receiving?
  {
    if s.phase.writer.asynchronous then P.CallFinish else P.SyncFinish(flushed)
  }

  /** `upsertTask`: the record in memory always changes, the saved one if saving works. */
  function Upsert(s: System, task: Task, saves: bool): System {
    s.(memory := task, saved := if saves then task else s.saved)
  }

  function NewWriter(base: nat, file: seq<byte>, threaded: bool, capacity: nat, chunk: nat): P.State {
    P.State(capacity, chunk, threaded, P.Store(base, file, [], [], [], base, base, base, file, file),
            0, 0, false, false, false, false, 0, false, if threaded then P.Top else P.Absent, P.Idle(P.Nothing))
  }

  /** The transfer is reported complete. */
  predicate Downloaded(expected: nat, phase: Phase)
    requires phase.Receiving?
  {
    var d := phase.writer.store;
    && phase.writer.producer.Idle? && phase.writer.producer.last.Finished?
    && (if phase.writer.store.base == expected then true
        else phase.cause.CurlOk? && phase.gate.Open? && d.base + phase.sent == expected
             && d.written == expected && phase.writer.producer.last.durable == expected)
  }

  function Apply(remote: Remote, s: System, step: Step): System
    requires Enabled(remote, s, step)
  {
    match step
    case Recover(opens, saves) =>
      // a file that cannot be opened, or is longer than it should be, is left alone
      if s.file.Some? && (!opens || |s.file.value.shown| > |Bytes(remote, s.memory)|) then Upsert(s, s.memory, saves)
      else
      var task := s.memory.(committed := ReconciledCount(s.memory.committed, s.file));
      Upsert(s, task, saves).(file := ReconciledFile(s.memory.committed, s.file))
    case Resume(_) => s.(phase := Prepared(s.memory))
    case Restart(rev) => s.(file := None, phase := Prepared(Task(rev, 0, false)))
    case Reconcile =>
      var task := s.phase.task;
      s.(file := ReconciledFile(task.committed, s.file),
         phase := Reconciled(task.(committed := ReconciledCount(task.committed, s.file))))
    case GiveUp(saves) =>
      var task := if s.phase.Saved? then s.phase.task.(committed := 0) else s.phase.task;
      Upsert(s, task, saves).(phase := Rest)
    case OpenFile => s.(file := if s.file.None? then Some(Disk([], 0)) else s.file, phase := Opened(s.phase.task))
    case SaveTask(saves) => Upsert(s, s.phase.task, saves).(phase := Saved(s.phase.task, saves))
    case Connect(threaded, capacity, chunk) =>
      s.(phase := Receiving(s.phase.task, s.phase.clean, Waiting, 0, Running,
                            NewWriter(s.phase.task.committed, s.file.value.shown, threaded, capacity, chunk), false))
    case Respond(r, saves) =>
      if ValidateRangeResponse(r.status, r.range, s.phase.writer.store.base,
          |Bytes(remote, s.phase.task)|) != AcceptBody
      then s.(phase := s.phase.(gate := Refused))
      else
        var t := Upsert(s, s.phase.task, saves);
        t.(phase := s.phase.(clean := s.phase.clean && saves,
                             gate := if s.phase.clean && saves then Open(r.body) else Refused))
    case Chunk(n, ok, after, moved) =>
      s.(phase := s.phase.(sent := s.phase.sent + n, writer := P.Apply(s.phase.writer, Give(s, n, ok, after, moved))))
    case Inside(a) => s.(phase := s.phase.(writer := P.Apply(s.phase.writer, a)))
    case AskCheckpoint(flushed) => s.(phase := s.phase.(writer := P.Apply(s.phase.writer, Ask(s, flushed))))
    case SaveCheckpoint(saves) =>
      var task := s.phase.task.(committed := s.phase.writer.producer.last.durable);
      Upsert(s, task, saves).(phase := s.phase.(task := task))
    case EndTransfer(cause) => s.(phase := s.phase.(cause := cause))
    case CallFinish(flushed) =>
      var w := s.phase.writer;
      s.(phase := s.phase.(writer := P.Apply(w, End(s, flushed)),
                           flushFailed := !w.asynchronous && !w.finished && !w.failed && !flushed))
    case Conclude(saves) =>
      var d := s.phase.writer.store;
      // a `finish` whose own flush fails leaves the reported count at 0
      var durable := if s.phase.flushFailed then 0 else d.durable;
      var task := s.phase.task.(committed := durable);
      Upsert(s, task, saves).(
        file := Some(Disk(d.file, d.durable)),
        phase := if Downloaded(|Bytes(remote, s.phase.task)|, s.phase) then Verifying(task) else Rest)
    case Verify(matches, saves) =>
      var task := if matches then s.phase.task.(completed := true, committed := |Bytes(remote, s.phase.task)|)
          else s.phase.task;
      Upsert(s, task, saves).(phase := Rest)
    case Crash(left) =>
      System(s.saved, s.saved, match left case Some(c) => Some(Disk(c, |c|)) case None => None, Rest)
  }

  // ----- what holds between any two steps

  /**
    A record is good for a file: what it counts as committed is a prefix of the remote bytes and
    durable, unless the file is gone or empty.
   */
  ghost predicate Good(remote: Remote, task: Task, file: Option<Disk>) {
    && Known(remote, task)
    && (file.Some? ==>
          var d, k := file.value, Min(task.committed, |file.value.shown|);
          && d.sure <= |d.shown|
          && k <= |Bytes(remote, task)| && d.shown[..k] == Bytes(remote, task)[..k]
          && (task.committed <= d.sure || d.shown == []))
  }

  /** Cutting the file to what `task` counts cannot hurt the saved record. */
  predicate Ahead(saved: Task, task: Task, file: Option<Disk>) {
    saved.committed <= task.committed || task.committed == 0 || file.None? || file.value.shown == []
  }

  /** The file is exactly the committed prefix, and durable. */
  ghost predicate Exact(remote: Remote, task: Task, file: Option<Disk>) {
    && Known(remote, task) && !task.completed && task.committed <= |Bytes(remote, task)|
    && (file.None? ==> task.committed == 0)
    && (file.Some? ==> file.value == Disk(Bytes(remote, task)[..task.committed], task.committed))
  }

  function Body(gate: Gate): seq<byte> {
    if gate.Open? then gate.body else []
  }

  /** The writer of an attempt has been fed consecutive bytes of the remote file and nothing else. */
  ghost predicate Fed(content: seq<byte>, gate: Gate, sent: nat, cause: Cause, w: P.State) {
    && P.Reachable(w) && !w.late && !w.astray && (!w.asynchronous && Flowing(w) ==> !w.failed)
    && w.store.base <= |content| && w.store.origin == content[..w.store.base]
    && Body(gate) <= content[w.store.base..] && sent <= |Body(gate)|
    && w.store.stream <= Body(gate)[..sent]
    && (!gate.Open? ==> w.store.file == w.store.origin)
    && (w.producer.Idle? && w.producer.last.Checkpointed? ==> w.producer.last.durable <= w.store.durable)
    && (cause.Running? ==> InTransfer(Body(gate)[..sent], w))
    && (!cause.Running? ==> w.producer.Idle? || w.producer.Ending? || w.producer.AwaitEnd? || w.producer.Joining?)
    && (Over(w) ==> (w.worker.Gone? || w.worker.Absent?)
                    && (w.producer.last.Finished? ==>
                        w.finished && !w.failed && w.producer.last.durable == w.store.durable))
  }

  ghost predicate InTransfer(given: seq<byte>, w: P.State) {
    && !Over(w) && !w.producer.Ending? && !w.producer.AwaitEnd? && !w.producer.Joining?
    && (!w.failed ==> !w.closing && !w.finished)
    && (w.producer.Sending? || w.producer.Full? ==> w.store.stream + w.producer.rest == given)
    && (Flowing(w) || w.producer.Checking? || w.producer.AwaitFlush? ==> w.store.stream == given)
  }

  ghost predicate PhaseOk(remote: Remote, s: System) {
    match s.phase
    case Rest =>
      && Good(remote, s.memory, s.file)
      && Ahead(s.saved, s.memory, s.file)
      && (s.memory.completed ==> Complete(remote, s.memory, s.file))
    case Prepared(task) => Good(remote, task, s.file) && !task.completed && Ahead(s.saved, task, s.file)
    case Reconciled(task) => Exact(remote, task, s.file)
    case Opened(task) => Exact(remote, task, s.file) && s.file.Some?
    case Saved(task, clean) => Exact(remote, task, s.file) && s.file.Some? && (clean ==> s.saved == task)
    case Receiving(task, clean, gate, sent, cause, w, flushFailed) =>
      && (flushFailed ==> w.failed)
      && Known(remote, task) && !task.completed && task.committed <= w.store.durable
      && Fed(Bytes(remote, task), gate, sent, cause, w)
      && (clean ==> s.saved.revision == task.revision && s.saved.committed <= w.store.durable)
      && (gate.Open? ==> clean && w.store.base < |Bytes(remote, task)|)
    case Verifying(task) => !task.completed && Complete(remote, task, s.file)
  }

  /** The whole remote file is on disk, durably. (Of an empty file a crash may take the directory entry.) */
  ghost predicate Complete(remote: Remote, task: Task, file: Option<Disk>) {
    && Known(remote, task) && task.committed == |Bytes(remote, task)|
    && (file == Some(Disk(Bytes(remote, task), |Bytes(remote, task)|)) || (file.None? && Bytes(remote, task) == []))
  }

  ghost predicate Inv(remote: Remote, s: System) {
    && Good(remote, s.saved, CurrentFile(s))
    && Known(remote, s.memory)
    && (s.saved.completed ==> s.memory == s.saved)
    && (s.memory.completed ==> s.phase.Rest?)
    && PhaseOk(remote, s)
  }

  // ----- the writer inside an attempt

  function RestOf(p: P.Producer): seq<byte> {
    if p.Sending? || p.Full? then p.rest else []
  }

  predicate WorkerStep(a: P.Action) {
    a.Look? || a.WriteAt? || a.ReportWrite? || a.Flush? || a.ReportFlush? || a.Leave? || a.WakeWorker?
  }

  lemma WorkerFacts(w: P.State)
    requires P.Reachable(w)
    ensures w.store.durable <= w.store.written
    ensures w.store.stream == [] ==> !w.worker.Writing?
    ensures w.worker.Leaving? || (w.worker.Flushed? && w.worker.close) ==> w.closing
    ensures w.asynchronous <==> !w.worker.Absent?
  {
    P.ReachableInv(w);
    P.Accounting(w);
  }

  /** What the worker does never touches the stream, nor what the producer still has to send. */
  lemma WorkerStoreEffect(w: P.State, a: P.Action)
    requires WorkerStep(a) && P.Enabled(w, a) && P.Reachable(w)
    ensures var d, e := w.store, P.Apply(w, a).store;
            && e.base == d.base && e.origin == d.origin && e.stream == d.stream && e.durable >= d.durable
            && (d.stream == [] ==> e.file == d.file)
  {
    WorkerFacts(w);
  }

  lemma WorkerControlEffect(w: P.State, a: P.Action)
    requires WorkerStep(a) && P.Enabled(w, a) && P.Reachable(w)
    ensures var t := P.Apply(w, a);
            && t.late == w.late && t.astray == w.astray && t.asynchronous == w.asynchronous && w.asynchronous
            && (w.failed ==> t.failed) && (!t.failed ==>
                t.closing == w.closing && (t.finished ==> w.finished || w.closing))
  {
    WorkerFacts(w);
  }

  lemma WorkerProducerEffect(w: P.State, a: P.Action)
    requires WorkerStep(a) && P.Enabled(w, a)
    ensures var p, q := w.producer, P.Apply(w, a).producer;
            && RestOf(q) == RestOf(p)
            && (q == p || q == P.OnFailure(p) || q == P.OnStateChanged(p) || q == P.OnWritable(p))
  {
    var q := P.Apply(w, a).producer;
    match a
    case Look(n) => assert q == w.producer || q == P.OnWritable(w.producer);
    case ReportWrite => assert q == P.OnFailure(w.producer) || q == P.OnStateChanged(w.producer);
    case ReportFlush => assert q == P.OnFailure(w.producer) || q == P.OnStateChanged(w.producer);
    case _ =>
  }

  /** What the producer does on its own: it sends the next bytes, waits, or returns. */
  lemma SendEffect(w: P.State, n: nat)
    requires P.CanSend(w, n)
    ensures var t := P.ProducerSends(w, n);
            && t == w.(store := t.store, late := t.late, worker := t.worker, producer := t.producer)
            && t.store == w.store.(stream := t.store.stream, pending := t.store.pending, accepted := t.store.accepted)
            && (t.late ==> w.late || (w.finished && !w.failed))
            && w.store.stream <= t.store.stream <= w.store.stream + w.producer.rest
            && (t.producer == P.Idle(P.WriteFailed) || (t.store.stream + RestOf(t.producer)
                == w.store.stream + w.producer.rest
                 && (t.producer == P.Idle(P.Accepted) || t.producer.Sending? || t.producer.Full?)))
  {
    var rest := w.producer.rest;
    if !w.failed && |w.store.pending| < w.capacity {
      assert rest == rest[..n] + rest[n..];
      assert w.store.stream + rest[..n] + rest[n..] == w.store.stream + rest;
    }
  }

  lemma FedWorker(content: seq<byte>, gate: Gate, sent: nat, cause: Cause, w: P.State, a: P.Action)
    requires Fed(content, gate, sent, cause, w) && WorkerStep(a) && P.Enabled(w, a)
    ensures Fed(content, gate, sent, cause, P.Apply(w, a)) && P.Apply(w, a).store.durable >= w.store.durable
    ensures P.Apply(w, a).store.base == w.store.base
  {
    P.ReachableStep(w, a);
    WorkerStoreEffect(w, a);
    WorkerControlEffect(w, a);
    WorkerProducerEffect(w, a);
    if !gate.Open? { assert w.store.stream == []; }
  }

  lemma FinishReturns(w: P.State, a: P.Action)
    requires P.Reachable(w) && P.Enabled(w, a) && (a.Join? || a.SyncFinish?)
    ensures var t := P.Apply(w, a);
            && t.producer.Idle? && (t.worker.Gone? || t.worker.Absent?)
            && (t.producer.last.Finished? || t.producer.last.FinishFailed?)
            && (t.producer.last.Finished? ==> t.finished && !t.failed && t.producer.last.durable == t.store.durable)
  {
    P.ReachableInv(w);
    P.FinishIsDurable(w, a);
    P.StepKeeps(w, a);
  }

  lemma DurableGrows(w: P.State, a: P.Action)
    requires P.Reachable(w) && P.Enabled(w, a) && (a.SyncCheckpoint? || a.SyncFinish?)
    ensures P.Apply(w, a).store.durable >= w.store.durable
  {
    P.ReachableInv(w);
  }

  lemma FedSend(content: seq<byte>, gate: Gate, sent: nat, cause: Cause, w: P.State, n: nat)
    requires Fed(content, gate, sent, cause, w) && P.Enabled(w, P.Send(n))
    ensures Fed(content, gate, sent, cause, P.Apply(w, P.Send(n)))
  {
    var t := P.Apply(w, P.Send(n));
    P.ReachableStep(w, P.Send(n));
    SendEffect(w, n);
    var given := Body(gate)[..sent];
    assert cause.Running? && w.store.stream + w.producer.rest == given;
    assert t.store.stream <= given;
    assert Flowing(t) ==> t.store.stream == given by {
      if Flowing(t) { assert t.store.stream + [] == given; }
    }
  }

  lemma FedWait(content: seq<byte>, gate: Gate, sent: nat, cause: Cause, w: P.State, a: P.Action)
    requires Fed(content, gate, sent, cause, w) && P.Enabled(w, a)
    requires a.Timeout? || a.Check? || a.WakeProducer?
    ensures Fed(content, gate, sent, cause, P.Apply(w, a)) && P.Apply(w, a).store == w.store
  {
    var t := P.Apply(w, a);
    P.ReachableStep(w, a);
    assert t.store == w.store && t.worker == w.worker && t.late == w.late;
  }

  lemma FedEnd(content: seq<byte>, gate: Gate, sent: nat, cause: Cause, w: P.State, a: P.Action)
    requires Fed(content, gate, sent, cause, w) && P.Enabled(w, a) && (a.End? || a.Join?)
    ensures Fed(content, gate, sent, cause, P.Apply(w, a)) && P.Apply(w, a).store == w.store
  {
    var t := P.Apply(w, a);
    P.ReachableStep(w, a);
    assert t.store == w.store && t.worker == w.worker && t.late == w.late;
    if a.Join? { FinishReturns(w, a); }
  }

  lemma FedInside(content: seq<byte>, gate: Gate, sent: nat, cause: Cause, w: P.State, a: P.Action)
    requires Fed(content, gate, sent, cause, w) && RunsItself(a) && P.Enabled(w, a)
    ensures var t := P.Apply(w, a);
            && Fed(content, gate, sent, cause, t)
            && t.store.durable >= w.store.durable && t.store.base == w.store.base
  {
    if WorkerStep(a) {
      FedWorker(content, gate, sent, cause, w, a);
    } else {
      if a.Send? {
        SendEffect(w, a.amount);
        FedSend(content, gate, sent, cause, w, a.amount);
      } else if a.End? || a.Join? {
        FedEnd(content, gate, sent, cause, w, a);
      } else {
        FedWait(content, gate, sent, cause, w, a);
      }
    }
  }

  lemma NoDrift(w: P.State)
    requires P.Reachable(w) && !w.failed
    ensures w.drift == 0
  {
    P.ReachableInv(w);
  }

  /** Handing the next piece of the body to the writer. */
  lemma FedChunk(content: seq<byte>, gate: Gate, sent: nat, w: P.State, a: P.Action, data: seq<byte>)
    requires Fed(content, gate, sent, Running, w) && gate.Open? && Flowing(w) && P.Enabled(w, a)
    requires sent + |data| <= |gate.body| && data == gate.body[sent..sent + |data|] && data != []
    requires a == P.CallWrite(data) || (a.SyncWrite? && a.data == data)
    ensures var t := P.Apply(w, a);
            && Fed(content, gate, sent + |data|, Running, t)
            && t.store.durable == w.store.durable && t.store.base == w.store.base
  {
    var t := P.Apply(w, a);
    P.ReachableStep(w, a);
    if a.SyncWrite? { NoDrift(w); }
    assert gate.body[..sent] + data == gate.body[..sent + |data|];
    assert gate.body[..sent] <= gate.body[..sent + |data|];
  }

  lemma FedAsk(content: seq<byte>, gate: Gate, sent: nat, cause: Cause, w: P.State, a: P.Action)
    requires Fed(content, gate, sent, cause, w) && P.Enabled(w, a)
    requires (cause.Running? && Flowing(w) && (a.CallCheckpoint? || a.SyncCheckpoint?))
          || (!cause.Running? && !Over(w) && (a.CallFinish? || a.SyncFinish?))
    ensures var t := P.Apply(w, a);
            && Fed(content, gate, sent, cause, t)
            && t.store.durable >= w.store.durable && t.store.base == w.store.base
  {
    var t := P.Apply(w, a);
    P.ReachableStep(w, a);
    if a.SyncFinish? { FinishReturns(w, a); }
    if a.SyncCheckpoint? || a.SyncFinish? { DurableGrows(w, a); }
  }

  lemma FedStopped(content: seq<byte>, gate: Gate, sent: nat, cause: Cause, w: P.State)
    requires Fed(content, gate, sent, Running, w) && w.producer.Idle?
    ensures Fed(content, gate, sent, cause, w)
  {
  }

  lemma FedNew(content: seq<byte>, w: P.State)
    requires P.Initial(w) && w.store.base == |w.store.origin| <= |content| && w.store.origin == content[..w.store.base]
    ensures Fed(content, Waiting, 0, Running, w)
  {
    P.ReachableInitial(w);
  }

  /** The file of a fed writer: up to `written` it is the remote file. */
  lemma FedFile(content: seq<byte>, gate: Gate, sent: nat, cause: Cause, w: P.State)
    requires Fed(content, gate, sent, cause, w)
    ensures var d := w.store;
            && d.base <= d.durable <= d.written <= |d.file| && d.written <= |content|
            && d.file[..d.written] == content[..d.written]
  {
    StoreFacts(w);
    var d := w.store;
    PrefixOfRemote(content, d.base, d.origin, Body(gate), sent, d.stream, d.written - d.base);
  }

  lemma StoreFacts(w: P.State)
    requires P.Reachable(w) && !w.astray
    ensures var d := w.store;
            && d.base <= d.durable <= d.written <= |d.file| && d.written - d.base <= |d.stream| && d.base <= |d.origin|
            && d.file[..d.written] == d.origin[..d.base] + d.stream[..d.written - d.base]
  {
    P.ReachableInv(w);
  }

  lemma UnspoiledFile(w: P.State)
    requires P.Reachable(w) && !w.astray && !w.failed && (w.worker.Gone? || w.worker.Absent?)
    requires w.store.base == |w.store.origin|
    ensures w.store.base <= w.store.written && w.store.written - w.store.base <= |w.store.stream|
    ensures w.store.file == w.store.origin + w.store.stream[..w.store.written - w.store.base]
  {
    P.ReachableInv(w);
    var d := w.store;
    SpliceAtEnd(d.origin, P.Landed(d, w.worker));
    assert d.stream[..d.written - d.base] + [] == d.stream[..d.written - d.base];
  }

  lemma PrefixOfRemote(content: seq<byte>, base: nat, origin: seq<byte>, body: seq<byte>, sent: nat, stream: seq<byte>,
          n: nat)
    requires base <= |content| && origin == content[..base] && body <= content[base..]
    requires sent <= |body| && stream <= body[..sent] && n <= |stream|
    ensures base + n <= |content| && origin[..base] + stream[..n] == content[..base + n]
  {
    assert stream[..n] == body[..n] == content[base..][..n];
    assert content[base..][..n] == content[base..base + n];
    TakeNext(content, base, base + n);
  }

  /** A finished, unspoiled writer whose bytes add up to the expected size holds exactly the remote file. */
  lemma FedComplete(content: seq<byte>, gate: Gate, sent: nat, cause: Cause, w: P.State)
    requires Fed(content, gate, sent, cause, w) && Over(w) && w.producer.last.Finished?
    requires w.store.base == |w.store.origin| && w.store.durable == |content|
    ensures w.store.file == content
  {
    var d := w.store;
    FedFile(content, gate, sent, cause, w);
    StoreFacts(w);
    UnspoiledFile(w);
    assert |d.file| == d.written;
    assert d.file[..d.written] == d.file;
  }

  // ----- every step keeps the invariant

  /** Reconciling leaves exactly the committed prefix, and never spoils the saved record. */
  lemma ReconcileIsExact(remote: Remote, saved: Task, task: Task, file: Option<Disk>)
    requires Good(remote, saved, file) && Good(remote, task, file) && !task.completed && Ahead(saved, task, file)
    ensures var file', task' := ReconciledFile(task.committed, file),
            task.(committed := ReconciledCount(task.committed, file));
            && Exact(remote, task', file') && task'.committed <= task.committed
            && Good(remote, saved, file') && Good(remote, task', file') && Ahead(saved, task', file')
  {
    if file.Some? {
      var d := file.value;
      var k := Min(saved.committed, |d.shown|);
      if |d.shown| > task.committed {
        var j := Min(saved.committed, task.committed);
        assert d.shown[..task.committed][..j] == d.shown[..k][..j];
        assert Bytes(remote, saved)[..k][..j] == Bytes(remote, saved)[..j];
      } else {
        assert d.shown[..|d.shown|] == d.shown;
      }
    }
  }

  /**
    Reconciling makes nothing durable that was not. So a cut whose flush fails is `Reconcile` and then `GiveUp`.
   */
  lemma CutNeedsNoFlush(remote: Remote, task: Task, file: Option<Disk>)
    requires Good(remote, task, file) && file.Some?
    ensures ReconciledFile(task.committed, file).value.sure <= file.value.sure
    ensures |file.value.shown| > task.committed ==> ReconciledCount(task.committed, file) == task.committed
  {
  }

  lemma ExactIsGood(remote: Remote, task: Task, file: Option<Disk>)
    requires Exact(remote, task, file)
    ensures Good(remote, task, file) && Good(remote, task.(committed := 0), file)
    ensures forall saved: Task :: Good(remote, saved, file) ==>
            Ahead(saved, task, file) && Ahead(saved, task.(committed := 0), file)
  {
  }

  lemma {:induction false} IdleStepKeeps(remote: Remote, s: System, step: Step)
    requires Inv(remote, s) && Enabled(remote, s, step)
    requires step.Recover? || step.Resume? || step.Restart? || step.Reconcile? || step.OpenFile?
    ensures Inv(remote, Apply(remote, s, step))
  {
    if step.Recover? {
      ReconcileIsExact(remote, s.saved, s.memory, s.file);
    } else if step.Reconcile? {
      ReconcileIsExact(remote, s.saved, s.phase.task, s.file);
    }
  }

  lemma {:induction false} SaveStepKeeps(remote: Remote, s: System, step: Step)
    requires Inv(remote, s) && Enabled(remote, s, step) && (step.GiveUp? || step.SaveTask?)
    ensures Inv(remote, Apply(remote, s, step))
  {
    if !s.phase.Prepared? { ExactIsGood(remote, s.phase.task, s.file); }
  }

  lemma {:induction false} ConnectKeeps(remote: Remote, s: System, threaded: bool, capacity: nat, chunk: nat)
    requires Inv(remote, s) && Enabled(remote, s, Connect(threaded, capacity, chunk))
    ensures Inv(remote, Apply(remote, s, Connect(threaded, capacity, chunk)))
  {
    var w := NewWriter(s.phase.task.committed, s.file.value.shown, threaded, capacity, chunk);
    FedNew(Bytes(remote, s.phase.task), w);
  }

  lemma SliceIsPrefix(s: seq<byte>, i: nat, j: nat)
    requires i <= j <= |s|
    ensures s[i..j] <= s[i..]
  {
    assert s[i..j] == s[i..][..j - i];
  }

  lemma {:induction false} HonestBodyContinues(content: seq<byte>, r: Response, base: nat)
    requires Honest(content, r) && |content| <= U64_MAX && base < |content|
    requires ValidateRangeResponse(r.status, r.range, base, |content|) == AcceptBody
    ensures r.body <= content[base..]
  {
    if base == 0 {
      assert content[0..] == content;
    } else {
      var first: nat, last: nat :|
        first <= last < |content| && r.range == ContentRange(first, last, |content|)
            && r.body == content[first..last + 1];
      assert first == base by { HonestPartial(first, last, |content|, base, |content|); }
      SliceIsPrefix(content, base, last + 1);
    }
  }

  lemma {:induction false} RespondKeeps(remote: Remote, s: System, r: Response, saves: bool)
    requires Inv(remote, s) && Enabled(remote, s, Respond(r, saves))
    ensures Inv(remote, Apply(remote, s, Respond(r, saves)))
  {
    var content, w := Bytes(remote, s.phase.task), s.phase.writer;
    var t := Apply(remote, s, Respond(r, saves));
    var opens := ValidateRangeResponse(r.status, r.range, w.store.base, |content|) == AcceptBody;
    if opens {
      HonestBodyContinues(content, r, w.store.base);
    }
    FedGate(content, t.phase.gate, w);
    FedFile(content, s.phase.gate, s.phase.sent, s.phase.cause, w);
    GoodWhileReceiving(remote, s.phase.task, w);
    assert t.phase == s.phase.(gate := t.phase.gate, clean := t.phase.clean);
  }

  lemma {:induction false} FedGate(content: seq<byte>, gate: Gate, w: P.State)
    requires Fed(content, Waiting, 0, Running, w) && Body(gate) <= content[w.store.base..]
    ensures Fed(content, gate, 0, Running, w)
  {
    assert Body(gate)[..0] == Body(Waiting)[..0] == [];
  }

  lemma {:induction false} GoodWhileReceiving(remote: Remote, task: Task, w: P.State)
    requires Known(remote, task) && task.committed <= w.store.durable <= w.store.written <= |w.store.file|
    requires w.store.written <= |Bytes(remote, task)|
    requires w.store.file[..w.store.written] == Bytes(remote, task)[..w.store.written]
    ensures Good(remote, task, Some(Disk(w.store.file, w.store.durable)))
  {
    var c, d := task.committed, w.store;
    assert d.file[..d.written][..c] == d.file[..c];
    assert Bytes(remote, task)[..d.written][..c] == Bytes(remote, task)[..c];
  }

  lemma {:induction false} WriterStepKeeps(remote: Remote, s: System, t: System)
    requires Inv(remote, s) && s.phase.Receiving? && t.phase.Receiving?
    requires t == s.(phase := t.phase) && t.phase.task == s.phase.task && t.phase.clean == s.phase.clean
            && t.phase.gate == s.phase.gate
    requires Fed(Bytes(remote, t.phase.task), t.phase.gate, t.phase.sent, t.phase.cause, t.phase.writer)
    requires t.phase.writer.store.base == s.phase.writer.store.base
    requires t.phase.writer.store.durable >= s.phase.writer.store.durable
    requires t.phase.flushFailed ==> t.phase.writer.failed
    ensures Inv(remote, t)
  {
    var w, v := s.phase.writer, t.phase.writer;
    var content := Bytes(remote, t.phase.task);
    FedFile(content, t.phase.gate, t.phase.sent, t.phase.cause, v);
    if s.phase.gate.Open? {
      GoodWhileReceiving(remote, s.saved, v);
    } else {
      // nothing has been written: the file is as it was when the attempt began
      FedFile(content, s.phase.gate, s.phase.sent, s.phase.cause, w);
      assert w.store.file == w.store.origin == v.store.file;
      assert v.store.durable == v.store.base == |v.store.file| == w.store.durable;
    }
  }

  lemma {:induction false} ChunkKeeps(remote: Remote, s: System, n: nat, ok: bool, after: seq<byte>, moved: nat)
    requires Inv(remote, s) && Enabled(remote, s, Chunk(n, ok, after, moved))
    ensures Inv(remote, Apply(remote, s, Chunk(n, ok, after, moved)))
  {
    var ph, t := s.phase, Apply(remote, s, Chunk(n, ok, after, moved));
    var a := Give(s, n, ok, after, moved);
    FedChunk(Bytes(remote, ph.task), ph.gate, ph.sent, ph.writer, a, ph.gate.body[ph.sent..ph.sent + n]);
    WriterStepKeeps(remote, s, t);
  }

  lemma {:induction false} InsideKeeps(remote: Remote, s: System, a: P.Action)
    requires Inv(remote, s) && Enabled(remote, s, Inside(a))
    ensures Inv(remote, Apply(remote, s, Inside(a)))
  {
    var ph, t := s.phase, Apply(remote, s, Inside(a));
    FedInside(Bytes(remote, ph.task), ph.gate, ph.sent, ph.cause, ph.writer, a);
    WriterStepKeeps(remote, s, t);
  }

  lemma {:induction false} CallKeeps(remote: Remote, s: System, step: Step)
    requires Inv(remote, s) && Enabled(remote, s, step) && (step.AskCheckpoint? || step.CallFinish?)
    ensures Inv(remote, Apply(remote, s, step))
  {
    var ph, t := s.phase, Apply(remote, s, step);
    var a := if step.AskCheckpoint? then Ask(s, step.flushed) else End(s, step.flushed);
    FedAsk(Bytes(remote, ph.task), ph.gate, ph.sent, ph.cause, ph.writer, a);
    WriterStepKeeps(remote, s, t);
  }

  lemma {:induction false} EndTransferKeeps(remote: Remote, s: System, cause: Cause)
    requires Inv(remote, s) && Enabled(remote, s, EndTransfer(cause))
    ensures Inv(remote, Apply(remote, s, EndTransfer(cause)))
  {
    var ph, t := s.phase, Apply(remote, s, EndTransfer(cause));
    FedStopped(Bytes(remote, ph.task), ph.gate, ph.sent, cause, ph.writer);
    WriterStepKeeps(remote, s, t);
  }

  lemma {:induction false} SaveCheckpointKeeps(remote: Remote, s: System, saves: bool)
    requires Inv(remote, s) && Enabled(remote, s, SaveCheckpoint(saves))
    ensures Inv(remote, Apply(remote, s, SaveCheckpoint(saves)))
  {
    var ph := s.phase;
    FedFile(Bytes(remote, ph.task), ph.gate, ph.sent, ph.cause, ph.writer);
    GoodWhileReceiving(remote, ph.task.(committed := ph.writer.producer.last.durable), ph.writer);
  }

  lemma {:induction false} ConcludeKeeps(remote: Remote, s: System, saves: bool)
    requires Inv(remote, s) && Enabled(remote, s, Conclude(saves))
    ensures Inv(remote, Apply(remote, s, Conclude(saves)))
  {
    var ph, t := s.phase, Apply(remote, s, Conclude(saves));
    var content, d := Bytes(remote, ph.task), ph.writer.store;
    FedFile(content, ph.gate, ph.sent, ph.cause, ph.writer);
    GoodWhileReceiving(remote, t.memory, ph.writer);
    assert Good(remote, s.saved, t.file);
    if Downloaded(|content|, ph) {
      ReportedIsComplete(remote, s);
    }
  }

  /** A transfer that is reported complete has put exactly the remote file on the disk. */
  lemma {:induction false} ReportedIsComplete(remote: Remote, s: System)
    requires Inv(remote, s) && s.phase.Receiving? && Over(s.phase.writer)
    requires Downloaded(|Bytes(remote, s.phase.task)|, s.phase)
    ensures var content, d := Bytes(remote, s.phase.task), s.phase.writer.store;
            d.file == content && d.durable == |content|
  {
    var ph := s.phase;
    var content, d := Bytes(remote, ph.task), ph.writer.store;
    FedFile(content, ph.gate, ph.sent, ph.cause, ph.writer);
    assert d.durable == |content|;
    FedComplete(content, ph.gate, ph.sent, ph.cause, ph.writer);
  }

  lemma {:induction false} VerifyKeeps(remote: Remote, s: System, matches: bool, saves: bool)
    requires Inv(remote, s) && Enabled(remote, s, Verify(matches, saves))
    ensures Inv(remote, Apply(remote, s, Verify(matches, saves)))
  {
    var content := Bytes(remote, s.phase.task);
    assert content[..|content|] == content;
  }

  lemma {:induction false} CrashKeeps(remote: Remote, s: System, left: Option<seq<byte>>)
    requires Inv(remote, s) && Enabled(remote, s, Crash(left))
    ensures Inv(remote, Apply(remote, s, Crash(left)))
  {
    var file := CurrentFile(s);
    if left.Some? {
      var d, c, k := file.value, left.value, Min(s.saved.committed, |file.value.shown|);
      assert c[..d.sure][..Min(s.saved.committed, |c|)] == c[..Min(s.saved.committed, |c|)];
      assert d.shown[..d.sure][..k] == d.shown[..k];
      if d.sure == |d.shown| { assert c == c[..d.sure] == d.shown; }
    }
  }

  lemma {:induction false} StepKeeps(remote: Remote, s: System, step: Step)
    requires Inv(remote, s) && Enabled(remote, s, step)
    ensures Inv(remote, Apply(remote, s, step))
  {
    match step
    case GiveUp(_) => SaveStepKeeps(remote, s, step);
    case SaveTask(_) => SaveStepKeeps(remote, s, step);
    case Connect(threaded, capacity, chunk) => ConnectKeeps(remote, s, threaded, capacity, chunk);
    case Respond(r, saves) => RespondKeeps(remote, s, r, saves);
    case Chunk(n, ok, after, moved) => ChunkKeeps(remote, s, n, ok, after, moved);
    case Inside(a) => InsideKeeps(remote, s, a);
    case AskCheckpoint(_) => CallKeeps(remote, s, step);
    case SaveCheckpoint(saves) => SaveCheckpointKeeps(remote, s, saves);
    case EndTransfer(cause) => EndTransferKeeps(remote, s, cause);
    case CallFinish(_) => CallKeeps(remote, s, step);
    case Conclude(saves) => ConcludeKeeps(remote, s, saves);
    case Verify(matches, saves) => VerifyKeeps(remote, s, matches, saves);
    case Crash(left) => CrashKeeps(remote, s, left);
    case _ => IdleStepKeeps(remote, s, step);
  }

  // ----- runs

  ghost predicate Initial(remote: Remote, s: System) {
    && Known(remote, s.memory) && s.memory.committed == 0 && !s.memory.completed
    && s.saved == s.memory && s.file.None? && s.phase.Rest?
  }

  ghost predicate Run(remote: Remote, s: System, steps: seq<Step>, t: System)
    decreases |steps|
  {
    if steps == [] then s == t
    else Enabled(remote, s, steps[0]) && Run(remote, Apply(remote, s, steps[0]), steps[1..], t)
  }

  lemma {:induction false} RunKeeps(remote: Remote, s: System, steps: seq<Step>, t: System)
    requires Inv(remote, s) && Run(remote, s, steps, t)
    ensures Inv(remote, t)
    decreases |steps|
  {
    if steps != [] {
      StepKeeps(remote, s, steps[0]);
      RunKeeps(remote, Apply(remote, s, steps[0]), steps[1..], t);
    }
  }

  lemma {:induction false} ReachableInv(remote: Remote, s: System, steps: seq<Step>, t: System)
    requires Initial(remote, s) && Run(remote, s, steps, t)
    ensures Inv(remote, t)
  {
    RunKeeps(remote, s, steps, t);
  }

  /**
    After any run, whenever the machine stops and whatever the crash leaves, the program that comes up
    next cuts the file to exactly the bytes it counts as committed, and those are the remote file's.
   */
  lemma {:induction false} NothingWrongSurvives(remote: Remote, s: System, steps: seq<Step>, t: System,
          left: Option<seq<byte>>)
    requires Initial(remote, s) && Run(remote, s, steps, t) && Survives(CurrentFile(t), left) && !t.saved.completed
    ensures var u := Apply(remote, t, Crash(left));
            var count, file := ReconciledCount(u.saved.committed, u.file), ReconciledFile(u.saved.committed, u.file);
            && count <= u.saved.committed && count <= |Bytes(remote, u.saved)|
            && (file.Some? ==> file.value.shown == Bytes(remote, u.saved)[..count] && file.value.sure == count)
            && (file.None? ==> count == 0)
  {
    ReachableInv(remote, s, steps, t);
    var u := Apply(remote, t, Crash(left));
    CrashKeeps(remote, t, left);
    ReconcileIsExact(remote, u.saved, u.memory, u.file);
  }

  /** A record saved as completed stands for exactly the remote file. */
  lemma {:induction false} CompletedIsExact(remote: Remote, s: System, steps: seq<Step>, t: System)
    requires Initial(remote, s) && Run(remote, s, steps, t) && (t.saved.completed || t.memory.completed)
    ensures var content := Bytes(remote, t.memory);
            t.file == Some(Disk(content, |content|)) || (t.file.None? && content == [])
  {
    ReachableInv(remote, s, steps, t);
  }

  /** The saved count is durable exactly when the file has not been thrown away or emptied behind it. */
  lemma {:induction false} SavedCountIsDurable(remote: Remote, s: System, steps: seq<Step>, t: System)
    requires Initial(remote, s) && Run(remote, s, steps, t)
    ensures var sure := if CurrentFile(t).Some? then CurrentFile(t).value.sure else 0;
            t.saved.committed <= sure
            <==> t.saved.committed == 0 || (CurrentFile(t).Some? && CurrentFile(t).value.shown != [])
  {
    ReachableInv(remote, s, steps, t);
  }

  /** Restarting removes the file before it saves the record: in between the saved count promises too much. */
  lemma RestartPromisesTooMuch(remote: Remote, s: System)
    requires Inv(remote, s) && s.phase.Rest? && !s.memory.completed && s.saved.committed > 0
    ensures var t := Apply(remote, s, Restart(s.memory.revision)); t.saved.committed > 0 && t.file.None?
  {
  }

  lemma {:induction false} RunOn(remote: Remote, s: System, steps: seq<Step>, t: System, step: Step)
    requires Run(remote, s, steps, t) && Enabled(remote, t, step)
    ensures Run(remote, s, steps + [step], Apply(remote, t, step))
    decreases |steps|
  {
    if steps == [] {
      assert Run(remote, Apply(remote, t, step), [], Apply(remote, t, step));
    } else {
      assert (steps + [step])[1..] == steps[1..] + [step];
      RunOn(remote, Apply(remote, s, steps[0]), steps[1..], t, step);
    }
  }

  /** A first attempt at a file, up to the answer of the server. */
  lemma FirstAttempt(remote: Remote, s: System, content: seq<byte>) returns (steps: seq<Step>, t: System)
    requires Initial(remote, s) && content == Bytes(remote, s.memory) && content != []
    ensures Run(remote, s, steps, t)
    ensures t == s.(file := Some(Disk([], 0)),
                    phase := Receiving(s.memory, true, Open(content), 0, Running, NewWriter(0, [], false, 1, 1), false))
  {
    var task := s.memory;
    var s1 := s.(phase := Prepared(task));
    var s2 := s.(phase := Reconciled(task));
    var s3 := s.(file := Some(Disk([], 0)), phase := Opened(task));
    var s4 := s3.(phase := Saved(task, true));
    var s5 := s4.(phase := Receiving(task, true, Waiting, 0, Running, NewWriter(0, [], false, 1, 1), false));
    var answer := Respond(Response(200, "", content), true);
    t := s5.(phase := s5.phase.(gate := Open(content)));
    steps := [];
    assert Run(remote, s, steps, s);
    RunOn(remote, s, steps, s, Resume(task.revision));
    steps := steps + [Resume(task.revision)];
    RunOn(remote, s, steps, s1, Reconcile);
    steps := steps + [Reconcile];
    RunOn(remote, s, steps, s2, OpenFile);
    steps := steps + [OpenFile];
    RunOn(remote, s, steps, s3, SaveTask(true));
    steps := steps + [SaveTask(true)];
    RunOn(remote, s, steps, s4, Connect(false, 1, 1));
    steps := steps + [Connect(false, 1, 1)];
    RunOn(remote, s, steps, s5, answer);
    steps := steps + [answer];
  }

  /** An attempt that has sent one byte of two and has made it durable. */
  function OneByteIn(s: System, task: Task, a: byte, b: byte): System {
    var store := P.Store(0, [], [a], [], [], 1, 1, 1, [a], [a]);
    var w := NewWriter(0, [], false, 1, 1).(store := store, producer := P.Idle(P.Checkpointed(1)));
    s.(file := Some(Disk([], 0)), phase := Receiving(task, true, Open([a, b]), 1, Running, w, false))
  }

  lemma SendOneByte(remote: Remote, s: System, begun: seq<Step>, s0: System, a: byte, b: byte)
    returns (steps: seq<Step>)
    requires Run(remote, s, begun, s0)
    requires s0 == s.(file := Some(Disk([], 0)),
                      phase := Receiving(s.memory, true, Open([a, b]), 0, Running,
                                         NewWriter(0, [], false, 1, 1), false))
    ensures Run(remote, s, steps, OneByteIn(s, s.memory, a, b))
  {
    var w := s0.phase.writer;
    assert [a, b][0..1] == [a] && [] + [a] == [a];
    SpliceAtEnd([], [a]);
    var w1 := w.(store := w.store.(file := [a], stream := [a], accepted := 1, written := 1),
                 producer := P.Idle(P.Accepted));
    var s1 := s0.(phase := s0.phase.(sent := 1, writer := w1));
    assert Give(s0, 1, true, [], 0) == P.SyncWrite([a], true, [], 0);
    assert P.Apply(w, P.SyncWrite([a], true, [], 0)) == w1;
    RunOn(remote, s, begun, s0, Chunk(1, true, [], 0));
    assert Apply(remote, s1, AskCheckpoint(true)) == OneByteIn(s, s.memory, a, b);
    RunOn(remote, s, begun + [Chunk(1, true, [], 0)], s1, AskCheckpoint(true));
    steps := begun + [Chunk(1, true, [], 0)] + [AskCheckpoint(true)];
  }

  /** One byte of two arrives and is made durable, its count is saved, and the connection breaks. */
  lemma BrokenAttempt(remote: Remote, s: System, a: byte, b: byte) returns (steps: seq<Step>, t: System)
    requires Initial(remote, s) && Bytes(remote, s.memory) == [a, b]
    ensures Run(remote, s, steps, t)
    ensures t == s.(memory := s.memory.(committed := 1), saved := s.memory.(committed := 1), file := Some(Disk([a], 1)))
  {
    var task := s.memory.(committed := 1);
    var begun, s0 := FirstAttempt(remote, s, [a, b]);
    begun := SendOneByte(remote, s, begun, s0, a, b);
    var s2 := OneByteIn(s, s.memory, a, b);
    var s3 := OneByteIn(s, task, a, b).(memory := task, saved := task);
    assert Apply(remote, s2, SaveCheckpoint(true)) == s3;
    RunOn(remote, s, begun, s2, SaveCheckpoint(true));
    steps, t := BrokenEnd(remote, s, begun + [SaveCheckpoint(true)], s3, a);
  }

  lemma BrokenEnd(remote: Remote, s: System, begun: seq<Step>, s3: System, a: byte)
    returns (steps: seq<Step>, t: System)
    requires Run(remote, s, begun, s3) && s3.phase.Receiving? && s3.phase.cause.Running? && s3.phase.task.committed == 1
    requires var w := s3.phase.writer;
             && !w.asynchronous && !w.finished && !w.failed && w.producer == P.Idle(P.Checkpointed(1))
             && w.store.base != |Bytes(remote, s3.phase.task)| && w.store.written == 1 && w.store.file == [a]
    ensures Run(remote, s, steps, t)
    ensures t == s3.(memory := s3.phase.task, saved := s3.phase.task, file := Some(Disk([a], 1)), phase := Rest)
  {
    var w := s3.phase.writer;
    steps := begun;
    var s4 := s3.(phase := s3.phase.(cause := Broken));
    RunOn(remote, s, steps, s3, EndTransfer(Broken));
    steps := steps + [EndTransfer(Broken)];
    var w5 := w.(store := P.Recorded(P.Synced(w.store)), finished := true, producer := P.Idle(P.Finished(1)));
    var s5 := s4.(phase := s4.phase.(writer := w5, flushFailed := false));
    RunOn(remote, s, steps, s4, CallFinish(true));
    steps := steps + [CallFinish(true)];
    t := s3.(memory := s3.phase.task, saved := s3.phase.task, file := Some(Disk([a], 1)), phase := Rest);
    RunOn(remote, s, steps, s5, Conclude(true));
    steps := steps + [Conclude(true)];
  }

  /** It happens: one byte of two is saved as committed, and restarting takes the file away under it. */
  lemma RestartHappens(remote: Remote, s: System, a: byte, b: byte) returns (steps: seq<Step>, t: System)
    requires Initial(remote, s) && Bytes(remote, s.memory) == [a, b]
    ensures Run(remote, s, steps, t) && t.saved.committed == 1 && t.file.None?
  {
    var s1;
    steps, s1 := BrokenAttempt(remote, s, a, b);
    RunOn(remote, s, steps, s1, Restart(s.memory.revision));
    t := Apply(remote, s1, Restart(s.memory.revision));
    steps := steps + [Restart(s.memory.revision)];
  }
}

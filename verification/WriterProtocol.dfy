module WriterProtocol {
  // The protocol between the thread that receives a download and the worker thread that writes it.
  //
  // Every region that the source runs under the mutex is one action, `writeAt` and `flush` run outside the mutex
  // and are actions of their own, and a run is any interleaving of actions. Sleeping on a condition variable is
  // a state of its own that only a signal (or a spurious wake-up) leaves, so a lost wake-up would show up as a
  // run that gets stuck.

  import opened Common

  datatype Worker =
    | Absent                                                // synchronous mode
    | Top                                                   // about to take the mutex
    | Asleep                                                // waiting on `readable`
    | Writing(chunk: seq<byte>)                             // dequeued, `writeAt` not called yet
    | Wrote(chunk: seq<byte>, ok: bool)                     // `writeAt` has returned
    | Flushing(generation: nat, close: bool)                // `flush` not called yet
    | Flushed(generation: nat, close: bool, ok: bool)       // `flush` has returned
    | Leaving                                               // out of the loop
    | Gone                                                  // the last region has run

  datatype Outcome =
    | Nothing
    | Accepted
    | Cancelled
    | WriteFailed
    | CheckpointFailed
    | Checkpointed(durable: nat)
    | FinishFailed
    | Finished(durable: nat)

  datatype Producer =
    | Idle(last: Outcome)                                   // outside the writer; what the last call returned
    | Sending(rest: seq<byte>)                              // in `write`
    | Full(rest: seq<byte>)                                 // in `write`, waiting on `writable`
    | Checking(generation: nat)                             // in `checkpoint`
    | AwaitFlush(generation: nat)                           // in `checkpoint`, waiting on `stateChanged`
    | Ending                                                // in `finish`
    | AwaitEnd                                              // in `finish`, waiting on `stateChanged`
    | Joining(outcome: Outcome)                             // in `finish`, joining the worker

  /** The bytes and the offsets. */
  datatype Store = Store(
    base: nat, origin: seq<byte>,              // offset and file content at construction
    stream: seq<byte>,                         // every byte accepted so far
    pending: seq<byte>,                        // what the ring holds
    lost: seq<byte>,                           // the piece whose `writeAt` failed
    accepted: nat, written: nat, durable: nat,
    file: seq<byte>,                           // what the open file handle shows
    stable: seq<byte>                          // what the last successful flush made durable
  )

  datatype State = State(
    capacity: nat, writeChunk: nat, asynchronous: bool,
    store: Store,
    flushRequested: nat, flushCompleted: nat,
    closing: bool, finished: bool, failed: bool,
    late: bool,                                // bytes accepted after the writer finished, not flushed since
    drift: nat,                                // how far a synchronous write lands behind where it is sent
    astray: bool,                              // bytes were accepted that landed there
    worker: Worker, producer: Producer
  )

  datatype Action =
    | Look(amount: nat)                        // the worker's first region; `amount` is what it dequeues
    | WriteAt(ok: bool, after: seq<byte>)      // on failure the file is `after`
    | ReportWrite
    | Flush(ok: bool)
    | ReportFlush
    | Leave
    | WakeWorker                               // spurious
    | CallWrite(data: seq<byte>)
    | Send(amount: nat)
    | Timeout(goOn: bool)                      // `writable` timed out; `goOn` is what the activity says
    | CallCheckpoint
    | Check
    | CallFinish
    | End
    | Join
    | WakeProducer                             // spurious
    | SyncWrite(data: seq<byte>, ok: bool, after: seq<byte>, moved: nat)
                                               // a failed one leaves the file `after` and moves the stream
    | SyncCheckpoint(ok: bool)
    | SyncFinish(ok: bool)

  ghost predicate Initial(s: State) {
    var d := s.store;
    && 1 <= s.writeChunk && 1 <= s.capacity
    && d.stream == d.pending == d.lost == []
    && d.accepted == d.written == d.durable == d.base <= |d.origin|
    && d.file == d.stable == d.origin
    && s.flushRequested == s.flushCompleted == 0
    && !s.closing && !s.finished && !s.failed && !s.late && s.drift == 0 && !s.astray
    && s.worker == (if s.asynchronous then Top else Absent)
    && s.producer == Idle(Nothing)
  }

  // ----- signals

  function OnReadable(w: Worker): Worker {
    if w.Asleep? then Top else w
  }

  function OnWritable(p: Producer): Producer {
    if p.Full? then Sending(p.rest) else p
  }

  function OnStateChanged(p: Producer): Producer {
    match p
    case AwaitFlush(g) => Checking(g)
    case AwaitEnd => Ending
    case _ => p
  }

  /** `failLocked`: both of the producer's conditions are signalled. */
  function OnFailure(p: Producer): Producer {
    OnStateChanged(OnWritable(p))
  }

  // ----- the actions

  /** A failed `writeAt` may leave any content from the offset on, but nothing before it changes. */
  predicate SpoiledFrom(before: seq<byte>, offset: nat, after: seq<byte>) {
    offset <= |before| && offset <= |after| && after[..offset] == before[..offset]
  }

  predicate MayTake(s: State, amount: nat) {
    1 <= amount <= |s.store.pending| && amount <= s.writeChunk
  }

  predicate MaySend(s: State, amount: nat) {
    s.producer.Sending? && 1 <= amount <= Min(|s.producer.rest|, s.capacity - |s.store.pending|)
  }

  predicate CanLook(s: State, amount: nat) {
    s.worker.Top? && (s.store.pending != [] && !s.failed ==> MayTake(s, amount))
  }

  predicate CanSend(s: State, amount: nat) {
    s.producer.Sending? && (!s.failed && |s.store.pending| < s.capacity ==> MaySend(s, amount))
  }

  /** A synchronous write is tried whatever has happened before; it lands where the stream stands. */
  predicate CanSyncWrite(s: State, ok: bool, after: seq<byte>, moved: nat) {
    && !s.asynchronous && s.producer.Idle? && s.store.accepted + s.drift <= |s.store.file|
    && (!ok ==>
        SpoiledFrom(s.store.file, s.store.accepted + s.drift, after) && s.store.accepted + s.drift + moved <= |after|)
  }

  predicate Enabled(s: State, a: Action) {
    match a
    case Look(n) => CanLook(s, n)
    case WriteAt(ok, after) =>
      && s.worker.Writing? && s.store.written <= |s.store.file|
      && (!ok ==> SpoiledFrom(s.store.file, s.store.written, after))
    case ReportWrite => s.worker.Wrote?
    case Flush(_) => s.worker.Flushing?
    case ReportFlush => s.worker.Flushed?
    case Leave => s.worker.Leaving?
    case WakeWorker => s.worker.Asleep?
    case CallWrite(_) => s.asynchronous && s.producer.Idle?
    case Send(n) => CanSend(s, n)
    case Timeout(_) => s.producer.Full?
    case CallCheckpoint => s.asynchronous && s.producer.Idle?
    case Check => s.producer.Checking?
    case CallFinish => s.asynchronous && s.producer.Idle?
    case End => s.producer.Ending?
    case Join => s.producer.Joining? && s.worker.Gone?
    case WakeProducer => s.producer.Full? || s.producer.AwaitFlush? || s.producer.AwaitEnd?
    case SyncWrite(_, ok, after, moved) => CanSyncWrite(s, ok, after, moved)
    case SyncCheckpoint(_) => !s.asynchronous && s.producer.Idle?
    case SyncFinish(_) => !s.asynchronous && s.producer.Idle?
  }

  function Apply(s: State, a: Action): State
    requires Enabled(s, a)
  {
    match a
    case Look(n) => WorkerLooks(s, n)
    case WriteAt(ok, after) =>
      s.(worker := Wrote(s.worker.chunk, ok),
         store := s.store.(file := if ok then Splice(s.store.file, s.store.written, s.worker.chunk) else after))
    case ReportWrite => WorkerReportsWrite(s)
    case Flush(ok) =>
      s.(worker := Flushed(s.worker.generation, s.worker.close, ok), store := if ok then Synced(s.store) else s.store)
    case ReportFlush => WorkerReportsFlush(s)
    case Leave => s.(finished := true, worker := Gone, producer := OnFailure(s.producer))
    case WakeWorker => s.(worker := Top)
    case CallWrite(data) => s.(producer := if data == [] then Idle(Accepted) else Sending(data))
    case Send(n) => ProducerSends(s, n)
    case Timeout(goOn) =>
      if |s.store.pending| == s.capacity && !s.failed
      then if goOn then s else s.(producer := Idle(Cancelled))
      else s.(producer := Sending(s.producer.rest))
    case CallCheckpoint =>
      if s.failed then s.(producer := Idle(CheckpointFailed))
      else if s.finished then s.(producer := Idle(Checkpointed(s.store.durable)))
      else
        s.(flushRequested := s.flushRequested + 1, worker := OnReadable(s.worker),
           producer := AwaitFlush(s.flushRequested + 1))
    case Check =>
      if s.flushCompleted < s.producer.generation && !s.failed then s.(producer := AwaitFlush(s.producer.generation))
      else if s.failed then s.(producer := Idle(CheckpointFailed))
      else s.(producer := Idle(Checkpointed(s.store.durable)))
    case CallFinish =>
      s.(closing := true, worker := OnReadable(s.worker),
         producer := if s.finished then Joining(EndOutcome(s)) else AwaitEnd)
    case End => if s.finished then s.(producer := Joining(EndOutcome(s))) else s.(producer := AwaitEnd)
    case Join => s.(producer := Idle(s.producer.outcome))
    case WakeProducer =>
      (match s.producer
       case Full(rest) => s.(producer := Sending(rest))
       case AwaitFlush(g) => s.(producer := Checking(g))
       case _ => s.(producer := Ending))
    case SyncWrite(data, ok, after, moved) => SyncWrites(s, data, ok, after, moved)
    case SyncCheckpoint(ok) =>
      if s.failed || !ok then s.(producer := Idle(CheckpointFailed))
      else s.(store := Recorded(Synced(s.store)), late := false, producer := Idle(Checkpointed(s.store.written)))
    case SyncFinish(ok) =>
      if s.finished then s.(producer := Idle(EndOutcome(s)))
      else if s.failed then s.(producer := Idle(FinishFailed))
      else if !ok then s.(failed := true, producer := Idle(FinishFailed))
      else s.(store := Recorded(Synced(s.store)), finished := true, producer := Idle(Finished(s.store.written)))
  }

  function EndOutcome(s: State): Outcome {
    if s.failed then FinishFailed else Finished(s.store.durable)
  }

  function Synced(d: Store): Store {
    d.(stable := d.file)
  }

  function Recorded(d: Store): Store {
    d.(durable := d.written)
  }

  function Pushed(d: Store, piece: seq<byte>): Store {
    d.(pending := d.pending + piece, stream := d.stream + piece, accepted := d.accepted + |piece|)
  }

  function WorkerLooks(s: State, n: nat): State
    requires CanLook(s, n)
  {
    if s.store.pending == [] && !s.closing && s.flushRequested == s.flushCompleted then s.(worker := Asleep)
    else if s.failed then s.(worker := Leaving)
    else if s.store.pending != [] then
      s.(store := s.store.(pending := s.store.pending[n..]), worker := Writing(s.store.pending[..n]),
         producer := OnWritable(s.producer))
    else s.(worker := Flushing(s.flushRequested, s.closing))
  }

  function WorkerReportsWrite(s: State): State
    requires s.worker.Wrote?
  {
    if s.worker.ok
    then
      s.(store := s.store.(written := s.store.written + |s.worker.chunk|), worker := Top,
         producer := OnStateChanged(s.producer))
    else
      s.(store := s.store.(lost := s.worker.chunk), failed := true, closing := true, worker := Leaving,
         producer := OnFailure(s.producer))
  }

  function WorkerReportsFlush(s: State): State
    requires s.worker.Flushed?
  {
    if !s.worker.ok
    then s.(failed := true, closing := true, worker := Leaving, producer := OnFailure(s.producer))
    else
      s.(store := Recorded(s.store), flushCompleted := s.worker.generation,
         finished := s.finished || s.worker.close, worker := if s.worker.close then Leaving else Top,
         producer := OnStateChanged(s.producer))
  }

  function ProducerSends(s: State, n: nat): State
    requires CanSend(s, n)
  {
    if |s.store.pending| == s.capacity && !s.failed then s.(producer := Full(s.producer.rest))
    else if s.failed || |s.store.pending| > s.capacity then s.(producer := Idle(WriteFailed))
    else
      var rest := s.producer.rest[n..];
      s.(store := Pushed(s.store, s.producer.rest[..n]), late := s.late || s.finished, worker := OnReadable(s.worker),
         producer := if rest == [] then Idle(Accepted) else Sending(rest))
  }

  function SyncWrites(s: State, data: seq<byte>, ok: bool, after: seq<byte>, moved: nat): State
    requires CanSyncWrite(s, ok, after, moved)
  {
    if ok
    then
      s.(store := s.store.(file := Splice(s.store.file, s.store.accepted + s.drift, data), stream :=
          s.store.stream + data,
                           accepted := s.store.accepted + |data|, written := s.store.accepted + |data|),
         late := s.late || (s.finished && data != []), astray := s.astray || (s.drift > 0 && data != []),
         producer := Idle(Accepted))
    else s.(store := s.store.(file := after), failed := true, drift := s.drift + moved, producer := Idle(WriteFailed))
  }

  // ----- what every reachable state satisfies: the bytes

  /** The bytes the worker holds: dequeued, not yet counted as written, or lost in the failed write. */
  function InFlight(d: Store, w: Worker): seq<byte> {
    match w
    case Writing(chunk) => chunk
    case Wrote(chunk, _) => chunk
    case _ => d.lost
  }

  ghost predicate Conserved(d: Store, w: Worker) {
    && d.base <= d.durable <= d.written <= d.accepted == d.base + |d.stream|
    && d.stream == d.stream[..d.written - d.base] + InFlight(d, w) + d.pending
  }

  /** The part of the stream the file already holds. */
  function Landed(d: Store, w: Worker): seq<byte>
    requires d.base <= d.written <= d.base + |d.stream|
  {
    d.stream[..d.written - d.base] + (match w case Wrote(chunk, true) => chunk case _ => [])
  }

  predicate Spoiled(w: Worker, failed: bool) {
    failed || (w.Wrote? && !w.ok)
  }

  ghost predicate OnDisk(d: Store, w: Worker, failed: bool)
    requires Conserved(d, w)
  {
    && d.base <= |d.origin|
    && d.written <= |d.file|
    && d.file[..d.written] == d.origin[..d.base] + d.stream[..d.written - d.base]
    && (!Spoiled(w, failed) ==> d.file == Splice(d.origin, d.base, Landed(d, w)))
    && d.durable <= |d.stable|
    && d.stable[..d.durable] == d.file[..d.durable]
    && (w.Flushed? && w.ok ==> d.stable == d.file)
  }

  ghost predicate DataOf(d: Store, w: Worker, failed: bool) {
    Conserved(d, w) && OnDisk(d, w, failed) && (d.lost != [] ==> failed)
  }

  /** What is left of it once bytes went astray: the counts, and everything durable. */
  ghost predicate AstrayData(d: Store) {
    && d.base <= d.durable <= d.written == d.accepted == d.base + |d.stream| && d.pending == d.lost == []
    && d.base <= |d.origin| && d.durable <= |d.stable| && d.written <= |d.file|
    && d.stable[..d.durable] == d.file[..d.durable] == d.origin[..d.base] + d.stream[..d.durable - d.base]
  }

  ghost predicate Data(s: State) {
    if s.astray then AstrayData(s.store) else DataOf(s.store, s.worker, s.failed)
  }

  /** The stream drifts only behind a failed synchronous write. */
  ghost predicate Drifts(s: State) {
    && (s.drift > 0 || s.astray ==> s.failed && !s.asynchronous)
    && (!s.asynchronous ==> s.store.accepted + s.drift <= |s.store.file|)
  }

  // ----- and the two threads

  ghost predicate Bounds(s: State) {
    && |s.store.pending| <= s.capacity
    && 1 <= s.capacity && 1 <= s.writeChunk
    && (s.worker.Writing? ==> 1 <= |s.worker.chunk| <= s.writeChunk)
    && (s.producer.Sending? ==> s.producer.rest != [])
    && (s.producer.Full? ==> s.producer.rest != [])
  }

  ghost predicate Generations(s: State) {
    && s.flushCompleted <= s.flushRequested
    && (s.worker.Flushing? ==>
          s.flushCompleted <= s.worker.generation <= s.flushRequested
              && (s.worker.close || s.flushCompleted < s.worker.generation))
    && (s.worker.Flushed? ==>
          s.flushCompleted <= s.worker.generation <= s.flushRequested
              && (s.worker.close || s.flushCompleted < s.worker.generation))
    && (s.producer.Checking? ==> Awaits(s, s.producer.generation))
    && (s.producer.AwaitFlush? ==>
        Awaits(s, s.producer.generation) && s.flushCompleted < s.producer.generation && !s.failed)
  }

  /** What the state promises to a producer that waits for generation `g`. */
  ghost predicate Awaits(s: State, g: nat) {
    && g == s.flushRequested
    && (s.worker.Flushing? && s.worker.generation == g ==> s.store.pending == [])
    && (s.worker.Flushed? && s.worker.generation == g ==> s.store.pending == [])
    && (g <= s.flushCompleted && !s.failed ==> s.store.pending == [] && s.store.durable == s.store.accepted)
    && (s.closing ==> s.failed)
  }

  ghost predicate Ends(s: State) {
    && (s.asynchronous <==> !s.worker.Absent?)
    && (!s.asynchronous ==>
        s.producer.Idle? && s.store.pending == s.store.lost == [] && s.store.written == s.store.accepted)
    && (s.asynchronous && s.failed ==> s.closing && (s.worker.Leaving? || s.worker.Gone?))
    && (s.asynchronous && s.finished ==> s.closing && (s.worker.Leaving? || s.worker.Gone?))
    && (s.worker.Leaving? ==> s.closing && (s.finished || s.failed))
    && (s.worker.Gone? ==> s.closing && s.finished)
    && (s.worker.Flushing? ==> s.closing || !s.worker.close)
    && (s.worker.Flushed? ==> s.closing || !s.worker.close)
    && (s.worker.Flushing? && s.worker.close ==> s.store.pending == [])
    && (s.worker.Flushed? && s.worker.close ==> s.store.pending == [])
    && (s.late ==> s.finished)
    && (s.finished && !s.failed ==> (s.store.durable == s.store.accepted <==> !s.late))
    && (s.producer.Ending? || s.producer.AwaitEnd? ==> s.closing)
    && (s.closing && !s.finished && !s.failed && s.asynchronous ==> s.producer.Ending? || s.producer.AwaitEnd?)
    && (s.producer.AwaitEnd? ==> !s.finished)
    && (s.producer.Joining? ==> s.finished && s.producer.outcome == EndOutcome(s))
  }

  /** Nobody sleeps on a condition that already holds: no wake-up is ever lost. */
  ghost predicate NoLostWakeup(s: State) {
    && (s.worker.Asleep? ==> s.store.pending == [] && !s.closing && s.flushRequested == s.flushCompleted)
    && (s.producer.Full? ==> |s.store.pending| == s.capacity && !s.failed)
  }

  ghost predicate Control(s: State) {
    Bounds(s) && Generations(s) && Ends(s) && NoLostWakeup(s) && Drifts(s)
  }

  ghost predicate Inv(s: State) {
    Data(s) && Control(s)
  }

  lemma InitialInv(s: State)
    requires Initial(s)
    ensures Inv(s)
  {
    var d := s.store;
    assert d.origin[..d.base] + [] == d.origin[..d.base];
    assert Splice(d.origin, d.base, []) == d.origin;
    assert Landed(d, s.worker) == [];
  }

  // ----- each action keeps the data half of the invariant

  lemma Relabel(d: Store, w: Worker, w': Worker, failed: bool, failed': bool)
    requires DataOf(d, w, failed) && (failed ==> failed')
    requires InFlight(d, w) == InFlight(d, w')
    requires w.Wrote? ==> w == w' || !w.ok
    requires w'.Wrote? ==> w' == w || (w.Writing? && !w'.ok)
    requires w'.Flushed? && w'.ok ==> d.stable == d.file
    requires Spoiled(w, failed) ==> Spoiled(w', failed')
    ensures DataOf(d, w', failed')
  {
    assert Landed(d, w) == Landed(d, w');
  }

  lemma TakenIsData(d: Store, n: nat)
    requires DataOf(d, Top, false) && n <= |d.pending|
    ensures DataOf(d.(pending := d.pending[n..]), Writing(d.pending[..n]), false)
  {
    var d' := d.(pending := d.pending[n..]);
    var w' := Writing(d.pending[..n]);
    assert d.stream == d.stream[..d.written - d.base] + d.pending[..n] + d.pending[n..];
    assert Landed(d', w') == Landed(d, Top);
  }

  lemma LandedIsData(d: Store, chunk: seq<byte>, failed: bool)
    requires DataOf(d, Writing(chunk), failed)
    ensures DataOf(d.(file := Splice(d.file, d.written, chunk)), Wrote(chunk, true), failed)
  {
    var d' := d.(file := Splice(d.file, d.written, chunk));
    var done := d.stream[..d.written - d.base];
    assert Landed(d, Writing(chunk)) == done && Landed(d', Wrote(chunk, true)) == done + chunk;
    SpliceAdjacent(d.origin, d.base, done, chunk);
    SplicePrefix(d.file, d.written, chunk);
    PrefixOfPrefix(d'.file, d.durable, d.written);
    PrefixOfPrefix(d.file, d.durable, d.written);
  }

  lemma SpoiledIsData(d: Store, chunk: seq<byte>, failed: bool, after: seq<byte>)
    requires DataOf(d, Writing(chunk), failed) && SpoiledFrom(d.file, d.written, after)
    ensures DataOf(d.(file := after), Wrote(chunk, false), failed)
  {
    PrefixOfPrefix(after, d.durable, d.written);
    PrefixOfPrefix(d.file, d.durable, d.written);
  }

  lemma CountedIsData(d: Store, chunk: seq<byte>)
    requires DataOf(d, Wrote(chunk, true), false)
    ensures d.written + |chunk| <= d.accepted
    ensures DataOf(d.(written := d.written + |chunk|), Top, false)
  {
    var d' := d.(written := d.written + |chunk|);
    TakeMore(d.stream, d.written - d.base, chunk, d.pending);
    SplicePrefix(d.origin, d.base, Landed(d, Wrote(chunk, true)));
    assert Landed(d', Top) == Landed(d, Wrote(chunk, true));
  }

  lemma LostIsData(d: Store, chunk: seq<byte>, failed: bool)
    requires DataOf(d, Wrote(chunk, false), failed)
    ensures DataOf(d.(lost := chunk), Leaving, true)
  {
    assert Conserved(d.(lost := chunk), Leaving);
  }

  lemma SyncedIsData(d: Store, w: Worker, w': Worker, failed: bool)
    requires DataOf(d, w, failed) && !w.Writing? && !w.Wrote? && !w'.Writing? && !w'.Wrote?
    ensures DataOf(Synced(d), w', failed)
  {
    assert Landed(Synced(d), w') == Landed(d, w);
  }

  lemma RecordedIsData(d: Store, w: Worker, failed: bool)
    requires DataOf(d, w, failed) && d.stable == d.file
    ensures DataOf(Recorded(d), w, failed)
  {
    assert Landed(Recorded(d), w) == Landed(d, w);
  }

  lemma PushedIsData(d: Store, w: Worker, failed: bool, piece: seq<byte>)
    requires DataOf(d, w, failed)
    ensures DataOf(Pushed(d, piece), w, failed)
  {
    SplitAppend(d.stream, d.written - d.base, InFlight(d, w), d.pending, piece);
    assert Conserved(Pushed(d, piece), w);
    assert Landed(Pushed(d, piece), w) == Landed(d, w);
  }

  lemma SyncWritingIsData(d: Store, failed: bool, data: seq<byte>)
    requires DataOf(d, Absent, failed) && d.pending == d.lost == [] && d.written == d.accepted
    ensures DataOf(d.(stream := d.stream + data, accepted := d.accepted + |data|), Writing(data), failed)
  {
    var d' := d.(stream := d.stream + data, accepted := d.accepted + |data|);
    assert d'.stream[..d.written - d.base] == d.stream == d.stream[..d.written - d.base];
    assert d'.stream == d'.stream[..d.written - d.base] + data + [];
    assert Landed(d', Writing(data)) == Landed(d, Absent);
  }

  lemma SyncWrittenIsData(d: Store, failed: bool, data: seq<byte>)
    requires DataOf(d, Absent, failed) && d.pending == d.lost == [] && d.written == d.accepted
    ensures DataOf(d.(file := Splice(d.file, d.accepted, data), stream := d.stream + data,
                      accepted := d.accepted + |data|, written := d.accepted + |data|), Absent, failed)
  {
    var writing := d.(stream := d.stream + data, accepted := d.accepted + |data|);
    assert DataOf(writing, Writing(data), failed) by { SyncWritingIsData(d, failed, data); }
    var landed := writing.(file := Splice(d.file, d.written, data));
    assert DataOf(landed, Wrote(data, true), failed) by { LandedIsData(writing, data, failed); }
    SplicePrefix(d.file, d.written, data);
    assert landed.file[..d.written] + data <= landed.file;
    SyncCounted(landed, data, failed);
  }

  lemma SyncCounted(d: Store, data: seq<byte>, failed: bool)
    requires DataOf(d, Wrote(data, true), failed) && d.pending == d.lost == []
    requires d.file[..d.written] + data <= d.file
    ensures d.written + |data| == d.accepted
    ensures DataOf(d.(written := d.accepted), Absent, failed)
  {
    var d' := d.(written := d.accepted);
    TakeMore(d.stream, d.written - d.base, data, []);
    assert d.stream[..d'.written - d.base] == d.stream;
    assert Landed(d', Absent) == Landed(d, Wrote(data, true)) == d.stream;
    CountedPrefix(d, data);
  }

  /** What the file holds, up to the new count. */
  lemma CountedPrefix(d: Store, data: seq<byte>)
    requires d.base <= d.written <= |d.file| && d.file[..d.written] + data <= d.file && d.base <= |d.origin|
    requires d.written - d.base <= |d.stream| && d.stream == d.stream[..d.written - d.base] + data
    requires d.file[..d.written] == d.origin[..d.base] + d.stream[..d.written - d.base]
    ensures d.file[..d.written + |data|] == d.origin[..d.base] + d.stream
  {
    assert d.file[..d.written + |data|] == d.file[..d.written] + data;
    Regroup(d.origin[..d.base], d.stream[..d.written - d.base], data);
  }

  lemma SyncSpoiledIsData(d: Store, failed: bool, after: seq<byte>)
    requires DataOf(d, Absent, failed) && SpoiledFrom(d.file, d.written, after)
    ensures DataOf(d.(file := after), Absent, true)
  {
    PrefixOfPrefix(after, d.durable, d.written);
    PrefixOfPrefix(d.file, d.durable, d.written);
  }

  lemma LookKeepsData(s: State, n: nat)
    requires Inv(s) && CanLook(s, n)
    ensures Data(WorkerLooks(s, n))
  {
    if s.store.pending != [] && !s.failed {
      TakenIsData(s.store, n);
    } else {
      Relabel(s.store, s.worker, WorkerLooks(s, n).worker, s.failed, s.failed);
    }
  }

  lemma ReportWriteKeepsData(s: State)
    requires Inv(s) && s.worker.Wrote?
    ensures Data(WorkerReportsWrite(s))
  {
    var d, chunk, t := s.store, s.worker.chunk, WorkerReportsWrite(s);
    if s.worker.ok {
      assert DataOf(d.(written := d.written + |chunk|), Top, false) by { CountedIsData(d, chunk); }
      assert t.store == d.(written := d.written + |chunk|) && t.worker == Top && !t.failed;
    } else {
      assert DataOf(d.(lost := chunk), Leaving, true) by { LostIsData(d, chunk, s.failed); }
      assert t.store == d.(lost := chunk) && t.worker == Leaving && t.failed;
    }
  }

  lemma ReportFlushKeepsData(s: State)
    requires Inv(s) && s.worker.Flushed?
    ensures Data(WorkerReportsFlush(s))
  {
    var t := WorkerReportsFlush(s);
    if s.worker.ok {
      Relabel(s.store, s.worker, t.worker, s.failed, s.failed);
      RecordedIsData(s.store, t.worker, s.failed);
    } else {
      Relabel(s.store, s.worker, t.worker, s.failed, true);
    }
  }

  lemma WorkerKeepsData(s: State, a: Action)
    requires Inv(s) && (a.WriteAt? || a.Flush? || a.Leave? || a.WakeWorker?) && Enabled(s, a)
    ensures Data(Apply(s, a))
  {
    var d, t := s.store, Apply(s, a);
    match a
    case WriteAt(ok, after) =>
      if ok { LandedIsData(d, s.worker.chunk, s.failed); } else { SpoiledIsData(d, s.worker.chunk, s.failed, after); }
    case Flush(ok) =>
      if ok { SyncedIsData(d, s.worker, t.worker, s.failed); }
          else { Relabel(d, s.worker, t.worker, s.failed, s.failed); }
    case _ => Relabel(d, s.worker, t.worker, s.failed, s.failed);
  }

  lemma SendKeepsData(s: State, n: nat)
    requires Inv(s) && CanSend(s, n)
    ensures Data(ProducerSends(s, n))
  {
    var t := ProducerSends(s, n);
    if !s.failed && |s.store.pending| < s.capacity {
      PushedIsData(s.store, s.worker, s.failed, s.producer.rest[..n]);
      Relabel(t.store, s.worker, t.worker, s.failed, s.failed);
    }
  }

  lemma ProducerKeepsData(s: State, a: Action)
    requires Inv(s) && Enabled(s, a)
    requires a.CallWrite? || a.Timeout? || a.CallCheckpoint? || a.Check? || a.CallFinish? || a.End? || a.Join?
            || a.WakeProducer?
    ensures Data(Apply(s, a))
  {
    Relabel(s.store, s.worker, Apply(s, a).worker, s.failed, s.failed);
  }

  lemma SyncWriteKeepsData(s: State, data: seq<byte>, ok: bool, after: seq<byte>, moved: nat)
    requires Inv(s) && CanSyncWrite(s, ok, after, moved)
    ensures Data(SyncWrites(s, data, ok, after, moved))
  {
    var d, t := s.store, SyncWrites(s, data, ok, after, moved);
    if s.astray || t.astray {
      SyncWriteAstray(s, data, ok, after, moved);
    } else if !ok {
      SpoiledEarlier(d.file, d.accepted, d.accepted + s.drift, after);
      SyncSpoiledIsData(d, s.failed, after);
    } else {
      assert data == [] ==> Splice(d.file, d.accepted + s.drift, data) == Splice(d.file, d.accepted, data);
      SyncWrittenIsData(d, s.failed, data);
    }
  }

  lemma SpoiledEarlier(before: seq<byte>, from: nat, offset: nat, after: seq<byte>)
    requires from <= offset && SpoiledFrom(before, offset, after)
    ensures SpoiledFrom(before, from, after)
  {
    PrefixOfPrefix(before, from, offset);
    PrefixOfPrefix(after, from, offset);
  }

  /** Bytes that go astray leave everything durable alone. */
  lemma SyncWriteAstray(s: State, data: seq<byte>, ok: bool, after: seq<byte>, moved: nat)
    requires Inv(s) && CanSyncWrite(s, ok, after, moved)
    requires s.astray || SyncWrites(s, data, ok, after, moved).astray
    ensures AstrayData(SyncWrites(s, data, ok, after, moved).store)
  {
    var d, t := s.store, SyncWrites(s, data, ok, after, moved);
    if !s.astray { DurableOf(d, s.failed); }
    assert AstrayData(d);
    assert t.store.stream[..d.durable - d.base] == d.stream[..d.durable - d.base];
    if ok {
      SplicePrefix(d.file, d.accepted + s.drift, data);
      PrefixOfPrefix(t.store.file, d.durable, d.accepted + s.drift);
    } else {
      PrefixOfPrefix(after, d.durable, d.accepted + s.drift);
    }
    PrefixOfPrefix(d.file, d.durable, d.accepted + s.drift);
  }

  lemma DurableOf(d: Store, failed: bool)
    requires DataOf(d, Absent, failed) && d.pending == d.lost == [] && d.written == d.accepted
    ensures AstrayData(d)
  {
    PrefixOfPrefix(d.file, d.durable, d.written);
  }

  lemma SyncFlushKeepsData(s: State, a: Action)
    requires Inv(s) && (a.SyncCheckpoint? || a.SyncFinish?) && Enabled(s, a)
    ensures Data(Apply(s, a))
  {
    var t := Apply(s, a);
    if s.astray {
      assert t.store == s.store;
    } else if t.store == s.store {
      Relabel(s.store, Absent, Absent, s.failed, t.failed);
    } else {
      SyncedIsData(s.store, Absent, Absent, s.failed);
      RecordedIsData(Synced(s.store), Absent, s.failed);
      assert t.store == Recorded(Synced(s.store));
    }
  }

  // ----- and the control half

  /** accepted = written + in flight + queued. */
  lemma Accounting(s: State)
    requires Data(s) && (s.astray ==> s.worker.Absent?)
    ensures s.store.accepted == s.store.written + |InFlight(s.store, s.worker)| + |s.store.pending|
  {
    var d := s.store;
    assert s.astray ==> |InFlight(d, s.worker)| == 0;
    assert |d.stream| == d.written - d.base + |InFlight(d, s.worker)| + |d.pending|;
  }

  lemma LookKeepsControl(s: State, n: nat)
    requires Inv(s) && CanLook(s, n)
    ensures Control(WorkerLooks(s, n))
  {
    Accounting(s);
  }

  lemma WorkerKeepsControl(s: State, a: Action)
    requires Inv(s) && Enabled(s, a)
    requires a.WriteAt? || a.Flush? || a.Leave? || a.WakeWorker?
    ensures Control(Apply(s, a))
  {
  }

  lemma ReportWriteKeepsControl(s: State)
    requires Inv(s) && s.worker.Wrote?
    ensures Control(WorkerReportsWrite(s))
  {
  }

  lemma ReportFlushKeepsControl(s: State)
    requires Inv(s) && s.worker.Flushed?
    ensures Control(WorkerReportsFlush(s))
  {
    Accounting(s);
  }

  lemma SendKeepsControl(s: State, n: nat)
    requires Inv(s) && CanSend(s, n)
    ensures Control(ProducerSends(s, n))
  {
  }

  lemma CallKeepsControl(s: State, a: Action)
    requires Inv(s) && (a.CallWrite? || a.CallCheckpoint? || a.CallFinish?) && Enabled(s, a)
    ensures Control(Apply(s, a))
  {
    Accounting(s);
  }

  lemma ProducerKeepsControl(s: State, a: Action)
    requires Inv(s) && (a.Timeout? || a.Check? || a.End? || a.Join? || a.WakeProducer?) && Enabled(s, a)
    ensures Control(Apply(s, a))
  {
  }

  lemma SyncWriteKeepsControl(s: State, data: seq<byte>, ok: bool, after: seq<byte>, moved: nat)
    requires Inv(s) && CanSyncWrite(s, ok, after, moved)
    ensures Control(SyncWrites(s, data, ok, after, moved))
  {
  }

  lemma SyncFlushKeepsControl(s: State, a: Action)
    requires Inv(s) && (a.SyncCheckpoint? || a.SyncFinish?) && Enabled(s, a)
    ensures Control(Apply(s, a))
  {
  }

  lemma StepKeeps(s: State, a: Action)
    requires Inv(s) && Enabled(s, a)
    ensures Inv(Apply(s, a))
  {
    match a
    case Look(n) => LookKeepsData(s, n); LookKeepsControl(s, n);
    case ReportWrite => ReportWriteKeepsData(s); ReportWriteKeepsControl(s);
    case ReportFlush => ReportFlushKeepsData(s); ReportFlushKeepsControl(s);
    case Send(n) => SendKeepsData(s, n); SendKeepsControl(s, n);
    case WriteAt(_, _) => WorkerKeepsData(s, a); WorkerKeepsControl(s, a);
    case Flush(_) => WorkerKeepsData(s, a); WorkerKeepsControl(s, a);
    case Leave => WorkerKeepsData(s, a); WorkerKeepsControl(s, a);
    case WakeWorker => WorkerKeepsData(s, a); WorkerKeepsControl(s, a);
    case SyncWrite(data, ok, after, moved) =>
      SyncWriteKeepsData(s, data, ok, after, moved); SyncWriteKeepsControl(s, data, ok, after, moved);
    case SyncCheckpoint(_) => SyncFlushKeepsData(s, a); SyncFlushKeepsControl(s, a);
    case SyncFinish(_) => SyncFlushKeepsData(s, a); SyncFlushKeepsControl(s, a);
    case CallWrite(_) => ProducerKeepsData(s, a); CallKeepsControl(s, a);
    case CallCheckpoint => ProducerKeepsData(s, a); CallKeepsControl(s, a);
    case CallFinish => ProducerKeepsData(s, a); CallKeepsControl(s, a);
    case _ => ProducerKeepsData(s, a); ProducerKeepsControl(s, a);
  }

  // ----- runs

  /** `run` leads from `s` to `t`. */
  ghost predicate Run(s: State, run: seq<Action>, t: State)
    decreases |run|
  {
    if run == [] then s == t else Enabled(s, run[0]) && Run(Apply(s, run[0]), run[1..], t)
  }

  lemma {:induction false} RunKeeps(s: State, run: seq<Action>, t: State)
    requires Inv(s) && Run(s, run, t)
    ensures Inv(t)
    decreases |run|
  {
    if run != [] {
      StepKeeps(s, run[0]);
      RunKeeps(Apply(s, run[0]), run[1..], t);
    }
  }

  lemma {:induction false} RunOn(s: State, first: seq<Action>, t: State, second: seq<Action>, u: State)
    requires Run(s, first, t) && Run(t, second, u)
    ensures Run(s, first + second, u)
    decreases |first|
  {
    if first == [] {
      assert first + second == second;
    } else {
      RunOn(Apply(s, first[0]), first[1..], t, second, u);
      assert (first + second)[1..] == first[1..] + second;
    }
  }

  /** Holds at the start and is kept by every action. */
  ghost predicate Inductive(p: State -> bool) {
    && (forall s :: Initial(s) ==> p(s))
    && (forall s, a :: p(s) && Enabled(s, a) ==> p(Apply(s, a)))
  }

  /** Has everything that holds at the start and is kept by every action: some run leads here. */
  ghost predicate Reachable(t: State) {
    forall p: State -> bool {:trigger p(t)} :: Inductive(p) ==> p(t)
  }

  lemma ReachableInitial(s: State)
    requires Initial(s)
    ensures Reachable(s)
  {
  }

  lemma ReachableStep(t: State, a: Action)
    requires Reachable(t) && Enabled(t, a)
    ensures Reachable(Apply(t, a))
  {
    forall p: State -> bool | Inductive(p)
      ensures p(Apply(t, a))
    {
      assert p(t);
    }
  }

  lemma {:induction false} RunReachable(s: State, run: seq<Action>, t: State)
    requires Reachable(s) && Run(s, run, t)
    ensures Reachable(t)
    decreases |run|
  {
    if run != [] {
      ReachableStep(s, run[0]);
      RunReachable(Apply(s, run[0]), run[1..], t);
    }
  }

  ghost predicate AtEndOfRun(t: State) {
    exists s, run :: Initial(s) && Run(s, run, t)
  }

  /** Reachable is what some run leads to. */
  lemma ReachableIffRun(t: State)
    ensures Reachable(t) <==> AtEndOfRun(t)
  {
    if Reachable(t) {
      var ends := (u: State) => AtEndOfRun(u);
      EndsAreInductive(ends);
      assert ends(t);
    } else if s, run :| Initial(s) && Run(s, run, t) {
      ReachableInitial(s);
      RunReachable(s, run, t);
    }
  }

  lemma EndsAreInductive(ends: State -> bool)
    requires forall u :: ends(u) <==> AtEndOfRun(u)
    ensures Inductive(ends)
  {
    forall s | Initial(s)
      ensures ends(s)
    {
      assert Run(s, [], s);
    }
    forall u, a | ends(u) && Enabled(u, a)
      ensures ends(Apply(u, a))
    {
      var s, run :| Initial(s) && Run(s, run, u);
      RunOn(s, run, u, [a], Apply(u, a));
    }
  }

  // the regions whose actions have names of their own

  lemma ReachableLook(t: State, n: nat)
    requires Reachable(t) && CanLook(t, n)
    ensures Reachable(WorkerLooks(t, n))
  {
    ReachableStep(t, Look(n));
  }

  lemma ReachableSend(t: State, n: nat)
    requires Reachable(t) && CanSend(t, n)
    ensures Reachable(ProducerSends(t, n))
  {
    ReachableStep(t, Send(n));
  }

  lemma ReachableReportWrite(t: State)
    requires Reachable(t) && t.worker.Wrote?
    ensures Reachable(WorkerReportsWrite(t))
  {
    ReachableStep(t, ReportWrite);
  }

  lemma ReachableReportFlush(t: State)
    requires Reachable(t) && t.worker.Flushed?
    ensures Reachable(WorkerReportsFlush(t))
  {
    ReachableStep(t, ReportFlush);
  }

  lemma ReachableSyncWrite(t: State, data: seq<byte>, ok: bool, after: seq<byte>, moved: nat)
    requires Reachable(t) && CanSyncWrite(t, ok, after, moved)
    ensures Reachable(SyncWrites(t, data, ok, after, moved))
  {
    ReachableStep(t, SyncWrite(data, ok, after, moved));
  }

  lemma ReachableInv(t: State)
    requires Reachable(t)
    ensures Inv(t)
  {
    var kept := (s: State) => Inv(s);
    InvIsInductive(kept);
    assert kept(t);
  }

  lemma InvIsInductive(kept: State -> bool)
    requires forall s :: kept(s) <==> Inv(s)
    ensures Inductive(kept)
  {
    forall s | Initial(s)
      ensures kept(s)
    {
      InitialInv(s);
    }
    forall s, a | kept(s) && Enabled(s, a)
      ensures kept(Apply(s, a))
    {
      StepKeeps(s, a);
    }
  }

  /**
    Whatever the interleaving and whichever writes and flushes fail, the counts are right and what is
    durable is right. As long as no synchronous write has gone astray, no accepted byte is lost, doubled
    or moved.
   */
  lemma EveryInterleaving(t: State)
    requires Reachable(t)
    ensures var d := t.store;
            && d.base <= d.durable <= d.written <= d.accepted == d.base + |d.stream|
            && d.accepted == d.written + |InFlight(d, t.worker)| + |d.pending|
            && d.stream == d.stream[..d.written - d.base] + InFlight(d, t.worker) + d.pending
            && d.written <= |d.file| && d.base <= |d.origin|
            && (!t.astray ==> d.file[..d.written] == d.origin[..d.base] + d.stream[..d.written - d.base])
            && d.durable <= |d.stable|
            && d.stable[..d.durable] == d.origin[..d.base] + d.stream[..d.durable - d.base]
  {
    ReachableInv(t);
    Accounting(t);
    DurableBytes(t);
    if t.astray { assert t.store.stream[..t.store.written - t.store.base] + [] + [] == t.store.stream; }
  }

  lemma DurableBytes(s: State)
    requires Inv(s)
    ensures var d := s.store;
            d.base <= d.durable <= |d.stable| && d.base <= |d.origin| && d.durable - d.base <= |d.stream|
    ensures var d := s.store; d.stable[..d.durable] == d.origin[..d.base] + d.stream[..d.durable - d.base]
  {
    var d := s.store;
    if !s.astray { PrefixOfPrefix(d.file, d.durable, d.written); }
  }

  // ----- writing on after a failed synchronous write

  /** The file holds what was accepted. */
  ghost predicate FileRight(s: State) {
    var d := s.store;
    && d.base <= d.written <= |d.file| && d.base <= |d.origin| && d.written - d.base <= |d.stream|
    && d.file[..d.written] == d.origin[..d.base] + d.stream[..d.written - d.base]
  }

  /**
    A synchronous write that succeeds leaves the file right whatever its bytes are, exactly if the stream
    has not drifted: if no write failed before, or those that did put nothing out past a cached position.
   */
  lemma WritesRightIff(s: State)
    requires Inv(s) && !s.astray && !s.asynchronous && s.producer.Idle?
    ensures CanSyncWrite(s, true, [], 0)
    ensures (forall data: seq<byte> :: FileRight(SyncWrites(s, data, true, [], 0))) <==> s.drift == 0
  {
    if s.drift == 0 {
      forall data: seq<byte>
        ensures FileRight(SyncWrites(s, data, true, [], 0))
      {
        SyncWriteKeepsData(s, data, true, [], 0);
      }
    } else {
      var b: byte := if s.store.file[s.store.accepted] == 0 then 1 else 0;
      WrongByte(s, b);
    }
  }

  lemma WrongByte(s: State, b: byte)
    requires Inv(s) && !s.astray && !s.asynchronous && s.producer.Idle? && s.drift > 0
            && b != s.store.file[s.store.accepted]
    ensures CanSyncWrite(s, true, [], 0) && !FileRight(SyncWrites(s, [b], true, [], 0))
  {
    var d, t := s.store, SyncWrites(s, [b], true, [], 0).store;
    assert t.file[d.accepted] == d.file[d.accepted];
    assert t.written == d.accepted + 1 && t.stream == d.stream + [b];
    assert (d.origin[..d.base] + t.stream[..t.written - t.base])[d.accepted] == b;
    if t.written <= |t.file| { assert t.file[..t.written][d.accepted] == t.file[d.accepted]; }
  }

  /** It happens: two bytes of which one gets out, sent again and accepted. */
  lemma RetryGoesAstray(s: State, b: byte, c: byte) returns (run: seq<Action>, t: State)
    requires Initial(s) && !s.asynchronous && |s.store.origin| == s.store.base && b != c
    ensures Run(s, run, t) && t.producer == Idle(Accepted) && t.store.accepted == t.store.written == s.store.base + 2
    ensures t.store.file == s.store.origin + [b] + [b, c] && t.store.stream == [b, c] && !FileRight(t)
  {
    var d := s.store;
    var first := SyncWrite([b, c], false, d.origin + [b], 1);
    var again := SyncWrite([b, c], true, [], 0);
    assert (d.origin + [b])[..d.base] == d.origin == d.file[..d.base];
    var s1 := Apply(s, first);
    SpliceAtEnd(d.origin + [b], [b, c]);
    t := Apply(s1, again);
    run := [first, again];
    RunThrough(s, run, [s1, t]);
    assert t.store.file[d.base + 1] == b;
    assert t.store.file[..d.base + 2][d.base + 1] == b;
    assert (d.origin[..d.base] + [b, c])[d.base + 1] == c;
    assert [b, c][..2] == [b, c];
  }

  // ----- what a successful call returns

  /** Everything accepted has reached the disk, behind what the file held below the first offset. */
  ghost predicate AllStable(d: Store) {
    && d.base <= |d.origin| && d.accepted <= |d.stable|
    && d.stable[..d.accepted] == d.origin[..d.base] + d.stream
  }

  /** A successful checkpoint returns everything accepted so far exactly when no write came after the end. */
  lemma CheckpointIsDurable(s: State, a: Action)
    requires Inv(s) && Enabled(s, a) && (a.CallCheckpoint? || a.Check? || a.SyncCheckpoint?)
    requires Apply(s, a).producer.Idle? && Apply(s, a).producer.last.Checkpointed?
    ensures var t := Apply(s, a);
            && t.producer.last.durable == t.store.durable <= t.store.accepted == s.store.accepted
            && (t.store.durable == t.store.accepted <==> !t.late)
            && (!t.late ==> AllStable(t.store))
  {
    var t := Apply(s, a);
    StepKeeps(s, a);
    DurableBytes(t);
    if t.store.durable == t.store.accepted {
      assert t.store.stream[..t.store.durable - t.store.base] == t.store.stream;
    }
  }

  /** The same for `finish`; in addition the worker has run its last region when `finish` returns. */
  lemma FinishIsDurable(s: State, a: Action)
    requires Inv(s) && Enabled(s, a) && (a.Join? || a.SyncFinish?)
    ensures var t := Apply(s, a);
            && t.producer.Idle?
            && (t.producer.last.Finished? <==> t.finished && !t.failed)
            && (t.asynchronous ==> t.worker.Gone?)
            && (t.producer.last.Finished? ==>
                  && t.producer.last.durable == t.store.durable <= t.store.accepted == s.store.accepted
                  && (t.store.durable == t.store.accepted <==> !t.late)
                  && (!t.late ==> AllStable(t.store)))
  {
    var t := Apply(s, a);
    StepKeeps(s, a);
    DurableBytes(t);
    if t.store.durable == t.store.accepted {
      assert t.store.stream[..t.store.durable - t.store.base] == t.store.stream;
    }
  }

  lemma {:induction false} RunThrough(s: State, run: seq<Action>, states: seq<State>)
    requires |run| == |states| > 0
    requires Enabled(s, run[0]) && states[0] == Apply(s, run[0])
    requires forall i :: 1 <= i < |run| ==> Enabled(states[i - 1], run[i]) && states[i] == Apply(states[i - 1], run[i])
    ensures Run(s, run, states[|states| - 1])
    decreases |run|
  {
    if |run| > 1 {
      RunThrough(states[0], run[1..], states[1..]);
    }
  }

  /** A fresh writer that is told to finish flushes once and ends. */
  lemma FinishFresh(s: State) returns (run: seq<Action>, t: State)
    requires Initial(s) && s.asynchronous
    ensures Run(s, run, t)
    ensures t == s.(closing := true, finished := true, worker := Gone, producer := Idle(Finished(s.store.base)))
  {
    var s1 := s.(closing := true, producer := AwaitEnd);
    var s2 := s1.(worker := Flushing(0, true));
    var s3 := s2.(worker := Flushed(0, true, true));
    var s4 := s1.(finished := true, worker := Leaving, producer := Ending);
    var s5 := s4.(worker := Gone);
    var s6 := s5.(producer := Joining(Finished(s.store.base)));
    t := s5.(producer := Idle(Finished(s.store.base)));
    run := [CallFinish, Look(0), Flush(true), ReportFlush, Leave, End, Join];
    RunThrough(s, run, [s1, s2, s3, s4, s5, s6, t]);
  }

  /** A write after `finish` is accepted and a checkpoint after it succeeds, but the byte is not durable. */
  lemma WriteAfterFinishIsNotDurable(s: State, b: byte) returns (run: seq<Action>, t: State)
    requires Initial(s) && s.asynchronous
    ensures Run(s, run, t)
    ensures t.producer == Idle(Checkpointed(s.store.base)) && t.store.accepted == s.store.base + 1
  {
    var first, ended := FinishFresh(s);
    var s1 := ended.(producer := Sending([b]));
    var s2 := ended.(store := Pushed(s.store, [b]), late := true, producer := Idle(Accepted));
    t := s2.(producer := Idle(Checkpointed(s.store.base)));
    assert [b][..1] == [b];
    RunThrough(ended, [CallWrite([b]), Send(1), CallCheckpoint], [s1, s2, t]);
    run := first + [CallWrite([b]), Send(1), CallCheckpoint];
    RunOn(s, first, ended, [CallWrite([b]), Send(1), CallCheckpoint], t);
  }

  // ----- nobody waits forever

  predicate ProducerBlocked(s: State) {
    s.producer.Full? || s.producer.AwaitFlush? || s.producer.AwaitEnd? || (s.producer.Joining? && !s.worker.Gone?)
  }

  predicate WorkerBlocked(s: State) {
    s.worker.Asleep? || s.worker.Gone? || s.worker.Absent?
  }

  /** While the writer is unfinished, producer and worker are never both blocked. */
  lemma NeverBothBlocked(s: State)
    requires Inv(s) && !s.finished
    ensures !(ProducerBlocked(s) && WorkerBlocked(s))
  {
  }

  /** The actions that finish a call once it has begun: no new calls, no time-outs, no spurious wake-ups. */
  predicate Internal(a: Action) {
    a.Look? || a.WriteAt? || a.ReportWrite? || a.Flush? || a.ReportFlush? || a.Leave?
    || a.Send? || a.Check? || a.End? || a.Join?
  }

  /** A call in progress always has an internal action to take, unless it writes more than fits after `finish`. */
  lemma CallCanContinue(s: State)
    requires Inv(s) && !s.producer.Idle?
    ensures (exists a :: Internal(a) && Enabled(s, a)) <==> !(s.producer.Full? && s.worker.Gone?)
  {
    var n := Min(|s.store.pending|, s.writeChunk);
    if s.producer.Full? && s.worker.Gone? {
      assert forall a :: Internal(a) ==> !Enabled(s, a);
    } else if s.worker.Top? {
      assert Enabled(s, Look(n));
    } else if s.worker.Writing? {
      assert Enabled(s, WriteAt(true, []));
    } else if s.worker.Wrote? {
      assert Enabled(s, ReportWrite);
    } else if s.worker.Flushing? {
      assert Enabled(s, Flush(true));
    } else if s.worker.Flushed? {
      assert Enabled(s, ReportFlush);
    } else if s.worker.Leaving? {
      assert Enabled(s, Leave);
    } else if s.producer.Sending? {
      assert Enabled(s, Send(Min(|s.producer.rest|, s.capacity - |s.store.pending|)));
    } else if s.producer.Checking? {
      assert Enabled(s, Check);
    } else if s.producer.Ending? {
      assert Enabled(s, End);
    } else {
      assert Enabled(s, Join);
    }
  }

  function WorkerRank(w: Worker): nat {
    match w
    case Absent => 0
    case Asleep => 0
    case Top => 10
    case Writing(_) => 20
    case Wrote(_, _) => 18
    case Flushing(_, _) => 8
    case Flushed(_, _, _) => 6
    case Leaving => 3
    case Gone => 0
  }

  function ProducerRank(p: Producer): nat {
    match p
    case Idle(_) => 0
    case Joining(_) => 1
    case Full(rest) => 1 + 23 * |rest|
    case Sending(rest) => 2 + 23 * |rest|
    case AwaitFlush(_) => 2
    case Checking(_) => 3
    case AwaitEnd => 2
    case Ending => 3
  }

  /** How many internal actions a state still allows, at most. */
  function Measure(s: State): nat
  {
    ProducerRank(s.producer) + WorkerRank(s.worker) + 12 * |s.store.pending|
    + 8 * Max(0, s.flushRequested - s.flushCompleted)
  }

  lemma LookDescends(s: State, n: nat)
    requires Inv(s) && CanLook(s, n)
    ensures Measure(WorkerLooks(s, n)) < Measure(s)
  {
  }

  lemma SendDescends(s: State, n: nat)
    requires Inv(s) && CanSend(s, n)
    ensures Measure(ProducerSends(s, n)) < Measure(s)
  {
    var t := ProducerSends(s, n);
    if !s.failed && |s.store.pending| < s.capacity {
      assert |t.store.pending| == |s.store.pending| + n;
      assert |s.producer.rest[n..]| == |s.producer.rest| - n;
    }
  }

  lemma WorkerDescends(s: State, a: Action)
    requires Inv(s) && (a.WriteAt? || a.Flush? || a.Leave?) && Enabled(s, a)
    ensures Measure(Apply(s, a)) < Measure(s)
  {
  }

  lemma ReportDescends(s: State, a: Action)
    requires Inv(s) && (a.ReportWrite? || a.ReportFlush?) && Enabled(s, a)
    ensures Measure(Apply(s, a)) < Measure(s)
  {
  }

  lemma ProducerDescends(s: State, a: Action)
    requires Inv(s) && (a.Check? || a.End? || a.Join?) && Enabled(s, a)
    ensures Measure(Apply(s, a)) < Measure(s)
  {
  }

  lemma InternalDescends(s: State, a: Action)
    requires Inv(s) && Internal(a) && Enabled(s, a)
    ensures Inv(Apply(s, a)) && Measure(Apply(s, a)) < Measure(s)
  {
    assert Inv(Apply(s, a)) by { StepKeeps(s, a); }
    match a
    case Look(n) => LookDescends(s, n);
    case Send(n) => SendDescends(s, n);
    case ReportWrite => ReportDescends(s, a);
    case ReportFlush => ReportDescends(s, a);
    case WriteAt(_, _) => WorkerDescends(s, a);
    case Flush(_) => WorkerDescends(s, a);
    case Leave => WorkerDescends(s, a);
    case _ => ProducerDescends(s, a);
  }

  /** Internal actions alone cannot go on forever, so every call that has begun returns. */
  lemma {:induction false} InternalRunsEnd(s: State, run: seq<Action>, t: State)
    requires Inv(s) && Run(s, run, t) && forall a :: a in run ==> Internal(a)
    ensures |run| <= Measure(s)
    ensures (forall a :: Internal(a) ==> !Enabled(t, a)) ==> t.producer.Idle? || (t.producer.Full? && t.worker.Gone?)
    decreases |run|
  {
    if run != [] {
      InternalDescends(s, run[0]);
      InternalRunsEnd(Apply(s, run[0]), run[1..], t);
    } else if !t.producer.Idle? {
      CallCanContinue(t);
    }
  }
}

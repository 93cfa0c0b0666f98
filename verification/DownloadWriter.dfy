/**
  The writer's own fields: a ring buffer shared by the two threads. Each method is one region that the
  source runs under the mutex (or one call outside it), and is proved to do exactly what the protocol's
  action of that name does.
 */
module DownloadWriters {
  import opened Common
  import opened LocalFiles
  import P = WriterProtocol

  // ----- the ring

  /** Position `i` places after `head` in a ring of `capacity` slots. */
  function Slot(head: nat, i: nat, capacity: nat): nat {
    if head + i < capacity then head + i else head + i - capacity
  }

  /** The `count` bytes from `head` on. */
  function Ring(queue: seq<byte>, head: nat, count: nat): (r: seq<byte>)
    requires head < |queue| && count <= |queue|
    ensures |r| == count
    ensures forall i :: 0 <= i < count ==> r[i] == queue[Slot(head, i, |queue|)]
  {
    if count == 0 then [] else Ring(queue, head, count - 1) + [queue[Slot(head, count - 1, |queue|)]]
  }

  /** How both threads move their index. */
  method Advance(position: nat, amount: nat, capacity: nat) returns (next: nat)
    requires position < capacity && amount <= capacity
    ensures next == Slot(position, amount, capacity) < capacity
  {
    next := (position + amount) % capacity;
    if position + amount >= capacity {
      assert (position + amount - capacity + capacity) / capacity == 1;
    }
  }

  /** Copying a piece in at the tail appends it. */
  lemma {:induction false} RingPush(before: seq<byte>, after: seq<byte>, head: nat, count: nat, tail: nat,
          piece: seq<byte>)
    requires head < |before| == |after| && count + |piece| <= |before|
    requires tail == Slot(head, count, |before|) && tail + |piece| <= |before|
    requires forall k :: 0 <= k < |before| ==>
               after[k] == if tail <= k < tail + |piece| then piece[k - tail] else before[k]
    ensures Ring(after, head, count + |piece|) == Ring(before, head, count) + piece
    ensures Slot(head, count + |piece|, |before|) == Slot(tail, |piece|, |before|)
  {
    var r := Ring(after, head, count + |piece|);
    forall i | 0 <= i < count + |piece|
      ensures r[i] == (Ring(before, head, count) + piece)[i]
    {
      if i >= count {
        assert Slot(head, i, |before|) == tail + (i - count);
      }
    }
  }

  /** Moving the head forward drops what was copied out. */
  lemma {:induction false} RingTake(queue: seq<byte>, head: nat, count: nat, amount: nat)
    requires head < |queue| && amount <= count <= |queue| && head + amount <= |queue|
    ensures queue[head..head + amount] == Ring(queue, head, count)[..amount]
    ensures var h := Slot(head, amount, |queue|);
            && h < |queue|
            && Ring(queue, h, count - amount) == Ring(queue, head, count)[amount..]
            && Slot(h, count - amount, |queue|) == Slot(head, count, |queue|)
  {
    var h := Slot(head, amount, |queue|);
    var r := Ring(queue, h, count - amount);
    forall i | 0 <= i < count - amount
      ensures r[i] == Ring(queue, head, count)[amount..][i]
    {
    }
  }

  // ----- the writer

  /** What the methods need to know about a state of the protocol. */
  lemma Basics(s: P.State)
    requires P.Reachable(s)
    ensures |s.store.pending| <= s.capacity && 1 <= s.writeChunk
    ensures !s.asynchronous ==> s.producer.Idle? && s.worker.Absent?
    ensures s.store.written <= |s.store.file| && (!s.asynchronous ==> s.store.written == s.store.accepted)
    ensures s.worker.Writing? || s.worker.Wrote? ==> !s.failed
    ensures !s.asynchronous ==> s.store.accepted + s.drift <= |s.store.file|
    ensures s.producer.Sending? ==> s.producer.rest != []
  {
    P.ReachableInv(s);
  }

  /** The fields of a writer apart from the ring. */
  datatype Fields = Fields(
    capacity: nat, writeChunk: nat, asynchronous: bool, accepted: nat, written: nat, durable: nat,
    flushRequested: nat, flushCompleted: nat, closing: bool, finished: bool, failed: bool,
    buffer: seq<byte>, generation: nat, shouldClose: bool, awaited: nat)

  /** The fields as the protocol's state has them; what it does not say is as in `f`. */
  function Shown(s: P.State, f: Fields): Fields {
    Fields(s.capacity, s.writeChunk, s.asynchronous, s.store.accepted, s.store.written, s.store.durable,
           s.flushRequested, s.flushCompleted, s.closing, s.finished, s.failed,
           if s.worker.Writing? || s.worker.Wrote? then s.worker.chunk else f.buffer,
           if s.worker.Flushing? || s.worker.Flushed? then s.worker.generation else f.generation,
           if s.worker.Flushing? || s.worker.Flushed? then s.worker.close else f.shouldClose,
           if s.producer.Checking? || s.producer.AwaitFlush? then s.producer.generation else f.awaited)
  }

  /** The fields show the protocol's state. */
  predicate Shows(f: Fields, s: P.State) {
    f == Shown(s, f)
  }

  lemma ShowsSend(f: Fields, s: P.State, source: seq<byte>, amount: nat)
    requires Shows(f, s) && s.producer == P.Sending(source) && !s.failed
    requires 1 <= amount <= Min(|source|, s.capacity - |s.store.pending|)
    ensures P.CanSend(s, amount)
    ensures var t := P.ProducerSends(s, amount);
            && Shows(f.(accepted := f.accepted + amount), t) && t.store.file == s.store.file && t.drift == s.drift
            && t.store.pending == s.store.pending + source[..amount]
            && P.Spoiled(t.worker, t.failed) == P.Spoiled(s.worker, s.failed)
  {
  }

  lemma ShowsSyncWrite(f: Fields, s: P.State, data: seq<byte>, ok: bool, after: seq<byte>, moved: nat)
    requires Shows(f, s) && P.CanSyncWrite(s, ok, after, moved) && s.worker.Absent?
    ensures var t := P.SyncWrites(s, data, ok, after, moved);
            && Shows(if ok then f.(accepted := f.accepted + |data|, written := f.accepted + |data|)
                else f.(failed := true), t)
            && t.store.file == (if ok then Splice(s.store.file, s.store.accepted + s.drift, data) else after)
            && t.drift == (if ok then s.drift else s.drift + moved)
            && t.store.pending == s.store.pending && t.worker == s.worker
  {
  }

  lemma ShowsSyncFlush(f: Fields, s: P.State, a: P.Action)
    requires Shows(f, s) && P.Enabled(s, a) && (a.SyncCheckpoint? || a.SyncFinish?) && s.worker.Absent?
    ensures var t := P.Apply(s, a);
            && t.store.file == s.store.file && t.store.pending == s.store.pending
            && t.drift == s.drift && t.worker == s.worker
            && (if a.SyncCheckpoint?
                then Shows(if !s.failed && a.ok then f.(durable := f.written) else f, t)
                else Shows(if s.finished || s.failed then f
                           else if a.ok then f.(durable := f.written, finished := true) else f.(failed := true), t))
  {
  }

  lemma ShowsReport(f: Fields, s: P.State)
    requires Shows(f, s) && s.worker.Wrote?
    ensures var t := P.WorkerReportsWrite(s);
            && Shows(if s.worker.ok then f.(written := f.written + |f.buffer|)
                else f.(failed := true, closing := true), t)
            && t.store.file == s.store.file && t.store.pending == s.store.pending && t.drift == s.drift
            && P.Spoiled(t.worker, t.failed) == P.Spoiled(s.worker, s.failed)
  {
  }

  lemma ShowsFlush(f: Fields, s: P.State)
    requires Shows(f, s) && s.worker.Flushed?
    ensures var t := P.WorkerReportsFlush(s);
            && Shows(if s.worker.ok
                     then f.(durable := f.written, flushCompleted := f.generation,
                             finished := f.finished || f.shouldClose)
                     else f.(failed := true, closing := true), t)
            && t.store.file == s.store.file && t.store.pending == s.store.pending && t.drift == s.drift
            && P.Spoiled(t.worker, t.failed) == (s.failed || !s.worker.ok)
  {
  }

  /** A flush that has succeeded. */
  lemma ShowsFlushed(f: Fields, s: P.State, t: P.State)
    requires Shows(f, s) && P.Reachable(s) && s.worker.Flushed? && s.worker.ok && t == P.WorkerReportsFlush(s)
    ensures P.Reachable(t)
    ensures Shows(f.(durable := f.written, flushCompleted := f.generation, finished := f.finished || f.shouldClose), t)
    ensures t.store.file == s.store.file && t.store.pending == s.store.pending && t.drift == s.drift
    ensures !P.Spoiled(t.worker, t.failed) ==> !P.Spoiled(s.worker, s.failed)
  {
    P.ReachableReportFlush(s);
  }

  lemma ShowsLook(f: Fields, s: P.State, amount: nat)
    requires Shows(f, s) && P.CanLook(s, amount) && (s.store.pending == [] || s.failed)
    ensures var t := P.WorkerLooks(s, amount);
            && Shows(if s.failed || (!s.closing && s.flushRequested == s.flushCompleted) then f
                     else f.(generation := f.flushRequested, shouldClose := f.closing), t)
            && t.store == s.store && t.drift == s.drift
            && P.Spoiled(t.worker, t.failed) == P.Spoiled(s.worker, s.failed)
  {
  }

  lemma ShowsRequest(f: Fields, s: P.State)
    requires Shows(f, s) && s.asynchronous && s.producer.Idle?
    ensures var t := P.Apply(s, P.CallCheckpoint);
            && Shows(if f.failed || f.finished then f
                     else f.(flushRequested := f.flushRequested + 1, awaited := f.flushRequested + 1), t)
            && t.store == s.store && t.drift == s.drift
            && P.Spoiled(t.worker, t.failed) == P.Spoiled(s.worker, s.failed)
  {
  }

  lemma ShowsWriteAt(f: Fields, s: P.State, a: P.Action)
    requires Shows(f, s) && a.WriteAt? && P.Enabled(s, a)
    ensures var t := P.Apply(s, a);
            && Shows(f, t) && t.store.pending == s.store.pending && t.drift == s.drift && t.failed == s.failed
            && t.store.file == (if a.ok then Splice(s.store.file, s.store.written, f.buffer) else a.after)
            && P.Spoiled(t.worker, t.failed) == (s.failed || !a.ok)
  {
  }

  class DownloadWriter {
    const output: LocalFile
    const capacity: nat
    const writeChunk: nat
    const asynchronous: bool
    const queue: array<byte>
    var head: nat
    var tail: nat
    var queued: nat
    var peakQueued: nat
    var acceptedOffset: nat
    var writtenOffset: nat
    var durableOffset: nat
    var flushRequested: nat
    var flushCompleted: nat
    var closing: bool
    var finished: bool
    var workerFailed: bool

    // the local variables of the worker, and of a producer inside `checkpoint`
    var buffer: seq<byte>
    var generation: nat
    var shouldClose: bool
    var awaited: nat

    ghost var model: P.State

    ghost predicate RingShape()
      reads this`head, this`tail, this`queued, this`peakQueued
    {
      && queue.Length == capacity > 0 && head < capacity && queued <= peakQueued <= capacity
      && tail == Slot(head, queued, capacity)
    }

    /** What the ring holds, read from the head on. */
    ghost function Contents(): seq<byte>
      requires RingShape()
      reads this`head, this`tail, this`queued, this`peakQueued, queue
    {
      Ring(queue[..], head, queued)
    }

    /** The ring holds exactly what the protocol says is pending. */
    ghost predicate RingOk()
      reads this, queue
    {
      RingShape() && Contents() == model.store.pending
    }

    ghost function Values(): Fields
      reads this
    {
      Fields(capacity, writeChunk, asynchronous, acceptedOffset, writtenOffset, durableOffset, flushRequested,
             flushCompleted, closing, finished, workerFailed, buffer, generation, shouldClose, awaited)
    }

    ghost predicate FieldsOk()
      reads this
    {
      Shows(Values(), model)
    }

    /** The file is the protocol's file, and writes land where they are sent until one has failed. */
    ghost predicate FileOk()
      reads this, output
    {
      && output.Valid() && output.flat == model.store.file
      && (!P.Spoiled(model.worker, model.failed) ==> output.CacheRight())
      && (!asynchronous ==> output.Landing(acceptedOffset) == acceptedOffset + model.drift)
    }

    ghost predicate Valid()
      reads this, queue, output
    {
      RingOk() && FieldsOk() && FileOk() && P.Reachable(model)
    }

    /** `threaded`: asynchronous writing was allowed and the thread could be created. */
    constructor (file: LocalFile, offset: nat, bufferCapacity: nat, chunk: nat, threaded: bool)
      requires file.Valid() && file.CacheRight() && offset <= |file.flat|
      ensures Valid() && P.Initial(model) && model.store.base == offset && model.store.origin == file.flat
      ensures output == file && asynchronous == threaded
      ensures capacity == Max(1, bufferCapacity) && writeChunk == Max(1, Min(bufferCapacity, chunk))
      ensures fresh(queue)
    {
      output := file;
      capacity, writeChunk, asynchronous := Max(1, bufferCapacity), Max(1, Min(bufferCapacity, chunk)), threaded;
      queue := new byte[Max(1, bufferCapacity)];
      head, tail, queued, peakQueued := 0, 0, 0, 0;
      acceptedOffset, writtenOffset, durableOffset := offset, offset, offset;
      flushRequested, flushCompleted := 0, 0;
      closing, finished, workerFailed := false, false, false;
      buffer, generation, shouldClose, awaited := [], 0, false, 0;
      model := P.State(Max(1, bufferCapacity), Max(1, Min(bufferCapacity, chunk)), threaded,
                       P.Store(offset, file.flat, [], [], [], offset, offset, offset, file.flat, file.flat),
                       0, 0, false, false, false, false, 0, false,
                       if threaded then P.Top else P.Absent, P.Idle(P.Nothing));
      new;
      P.ReachableInitial(model);
    }

    // ----- the worker

    /** The worker's copy out of the ring: at most one piece, and never across the end of the buffer. */
    method CopyOut() returns (amount: nat)
      requires RingShape() && queued > 0 && writeChunk > 0
      modifies this`buffer, this`head, this`queued
      ensures RingShape() && 1 <= amount <= Min(old(queued), writeChunk)
      ensures buffer == old(Contents())[..amount] && Contents() == old(Contents())[amount..]
    {
      amount := Min(queued, Min(writeChunk, capacity - head));
      RingTake(queue[..], head, queued, amount);
      buffer := queue[head..head + amount];
      assert buffer == queue[..][head..head + amount];
      head := Advance(head, amount, capacity);
      queued := queued - amount;
    }

    /** The producer's copy into the ring: what fits, and never across the end of the buffer. */
    method CopyIn(source: seq<byte>) returns (amount: nat)
      requires RingShape() && queued < capacity && source != []
      modifies this`tail, this`queued, this`peakQueued, queue
      ensures RingShape() && 1 <= amount <= Min(|source|, capacity - old(queued))
      ensures Contents() == old(Contents()) + source[..amount] && queued == old(queued) + amount
    {
      amount := Min(|source|, Min(capacity - queued, capacity - tail));
      ghost var before := queue[..];
      forall i | 0 <= i < amount {
        queue[tail + i] := source[i];
      }
      RingPush(before, queue[..], head, queued, tail, source[..amount]);
      tail := Advance(tail, amount, capacity);
      queued := queued + amount;
      peakQueued := Max(peakQueued, queued);
    }

    /** From taking the mutex to releasing it, or to going to sleep on `readable`. */
    method WorkerLook() returns (amount: nat)
      requires Valid() && model.worker.Top?
      modifies this
      ensures Valid()
      ensures P.CanLook(old(model), amount) && model == P.WorkerLooks(old(model), amount)
    {
      Basics(model);
      amount := 0;
      ghost var before := Values();
      if queued == 0 && !closing && flushRequested == flushCompleted {
        // sleeps
      } else if workerFailed {
        // leaves the loop
      } else if queued > 0 {
        amount := TakePiece();
        return;
      } else {
        generation, shouldClose := flushRequested, closing;
      }
      ShowsLook(before, model, amount);
      P.ReachableLook(model, amount);
      model := P.WorkerLooks(model, amount);
    }

    method TakePiece() returns (amount: nat)
      requires Valid() && model.worker.Top? && !workerFailed && queued > 0 && writeChunk > 0
      modifies this
      ensures Valid()
      ensures P.CanLook(old(model), amount) && model == P.WorkerLooks(old(model), amount)
    {
      amount := CopyOut();
      P.ReachableLook(model, amount);
      model := P.WorkerLooks(model, amount);
    }

    /** The protocol's state moves along with the fields. */
    ghost method Become(a: P.Action, next: P.State)
      requires P.Reachable(model) && P.Enabled(model, a) && next == P.Apply(model, a)
      modifies this`model
      ensures model == next && P.Reachable(model)
    {
      P.ReachableStep(model, a);
      model := next;
    }

    /** `writeAt`, outside the mutex; the device takes `limit` bytes. */
    method WorkerWriteAt(limit: nat) returns (wrote: bool)
      requires Valid() && model.worker.Writing?
      modifies this`model, output
      ensures Valid()
      ensures P.Enabled(old(model), P.WriteAt(wrote, output.flat))
              && model == P.Apply(old(model), P.WriteAt(wrote, output.flat))
    {
      Basics(model);
      wrote := output.WriteAt(writtenOffset, buffer, limit);
      if wrote { assert buffer[..|buffer|] == buffer; }
      ShowsWriteAt(Values(), model, P.WriteAt(wrote, output.flat));
      Become(P.WriteAt(wrote, output.flat), P.Apply(model, P.WriteAt(wrote, output.flat)));
    }

    method WorkerReportWrite(wrote: bool)
      requires Valid() && model.worker.Wrote? && model.worker.ok == wrote
      modifies this`writtenOffset, this`workerFailed, this`closing, this`model
      ensures Valid() && model == P.WorkerReportsWrite(old(model))
    {
      if wrote { CountPiece(); } else { LosePiece(); }
    }

    method CountPiece()
      requires Valid() && model.worker.Wrote? && model.worker.ok
      modifies this`writtenOffset, this`model
      ensures Valid() && model == P.WorkerReportsWrite(old(model))
    {
      ShowsReport(Values(), model);
      P.ReachableReportWrite(model);
      writtenOffset := writtenOffset + |buffer|;
      model := P.WorkerReportsWrite(model);
    }

    method LosePiece()
      requires Valid() && model.worker.Wrote? && !model.worker.ok
      modifies this`workerFailed, this`closing, this`model
      ensures Valid() && model == P.WorkerReportsWrite(old(model))
    {
      ShowsReport(Values(), model);
      P.ReachableReportWrite(model);
      workerFailed, closing := true, true;
      model := P.WorkerReportsWrite(model);
    }

    /** `flush`, outside the mutex; `flushed` is what the device reports. */
    method WorkerFlush(flushed: bool)
      requires Valid() && model.worker.Flushing?
      modifies this`model
      ensures Valid() && model == P.Apply(old(model), P.Flush(flushed))
    {
      Basics(model);
      Become(P.Flush(flushed), P.Apply(model, P.Flush(flushed)));
    }

    method WorkerReportFlush(flushed: bool)
      requires Valid() && model.worker.Flushed? && model.worker.ok == flushed
      modifies this
      ensures Valid() && model == P.WorkerReportsFlush(old(model))
    {
      if flushed { RecordFlush(); } else { FailFlush(); }
    }

    /** What the worker notes of a flush that succeeded; neither the ring nor the file is touched. */
    method RecordFlush()
      requires FieldsOk() && P.Reachable(model) && model.worker.Flushed? && model.worker.ok
      modifies this`durableOffset, this`flushCompleted, this`finished, this`model
      ensures FieldsOk() && P.Reachable(model) && model == P.WorkerReportsFlush(old(model))
      ensures model.store.pending == old(model.store.pending) && model.store.file == old(model.store.file)
      ensures model.drift == old(model.drift) && (!P.Spoiled(model.worker, model.failed) ==>
              !old(P.Spoiled(model.worker, model.failed)))
    {
      ghost var next := P.WorkerReportsFlush(model);
      ShowsFlushed(Values(), model, next);
      durableOffset := writtenOffset;
      flushCompleted := generation;
      finished := finished || shouldClose;
      model := next;
    }

    method FailFlush()
      requires Valid() && model.worker.Flushed? && !model.worker.ok
      modifies this`workerFailed, this`closing, this`model
      ensures Valid() && model == P.WorkerReportsFlush(old(model))
    {
      ShowsFlush(Values(), model);
      P.ReachableReportFlush(model);
      workerFailed, closing := true, true;
      model := P.WorkerReportsFlush(model);
    }

    method WorkerLeave()
      requires Valid() && model.worker.Leaving?
      modifies this
      ensures Valid() && model == P.Apply(old(model), P.Leave)
    {
      Basics(model);
      finished := true;
      Become(P.Leave, P.Apply(model, P.Leave));
    }

    // ----- the producer

    /** One turn of the loop in `write`. */
    method Send(source: seq<byte>) returns (amount: nat)
      requires Valid() && model.producer == P.Sending(source)
      modifies this, queue
      ensures Valid()
      ensures P.CanSend(old(model), amount) && model == P.ProducerSends(old(model), amount)
    {
      Basics(model);
      if queued < capacity && !workerFailed {
        amount := SendPiece(source);
        return;
      }
      amount := 0;
      P.ReachableSend(model, amount);
      model := P.ProducerSends(model, amount);
    }

    method SendPiece(source: seq<byte>) returns (amount: nat)
      requires Valid() && model.producer == P.Sending(source) && source != [] && queued < capacity && !workerFailed
      modifies this`tail, this`queued, this`peakQueued, this`acceptedOffset, this`model, queue
      ensures Valid()
      ensures P.CanSend(old(model), amount) && model == P.ProducerSends(old(model), amount)
    {
      Basics(model);
      amount := CopyIn(source);
      AcceptPiece(source, amount);
    }

    /** The piece that has just been copied counts as accepted. */
    method AcceptPiece(source: seq<byte>, amount: nat)
      requires RingShape() && FieldsOk() && FileOk() && P.Reachable(model) && asynchronous
      requires model.producer == P.Sending(source) && !workerFailed
      requires 1 <= amount <= Min(|source|, capacity - |model.store.pending|)
      requires Contents() == model.store.pending + source[..amount]
      modifies this`acceptedOffset, this`model
      ensures Valid()
      ensures P.CanSend(old(model), amount) && model == P.ProducerSends(old(model), amount)
    {
      ShowsSend(Values(), model, source, amount);
      acceptedOffset := acceptedOffset + amount;
      P.ReachableSend(model, amount);
      model := P.ProducerSends(model, amount);
    }

    /** The first region of `checkpoint`. */
    method RequestFlush()
      requires Valid() && asynchronous && model.producer.Idle?
      modifies this`flushRequested, this`awaited, this`model
      ensures Valid() && model == P.Apply(old(model), P.CallCheckpoint)
    {
      ShowsRequest(Values(), model);
      if !workerFailed && !finished {
        flushRequested := flushRequested + 1;
        awaited := flushRequested;
      }
      Become(P.CallCheckpoint, P.Apply(model, P.CallCheckpoint));
    }

    /** The first region of `finish`. */
    method RequestClose()
      requires Valid() && asynchronous && model.producer.Idle?
      modifies this
      ensures Valid() && model == P.Apply(old(model), P.CallFinish)
    {
      Basics(model);
      closing := true;
      Become(P.CallFinish, P.Apply(model, P.CallFinish));
    }

    /** What `checkpoint` does each time it wakes up: wait on, fail, or return the durable offset. */
    method CheckFlush() returns (waits: bool, ok: bool, durable: nat)
      requires Valid() && model.producer.Checking?
      modifies this`model
      ensures Valid() && model == P.Apply(old(model), P.Check)
      ensures model.producer == if waits then P.AwaitFlush(awaited)
              else P.Idle(if ok then P.Checkpointed(durable) else P.CheckpointFailed)
    {
      waits := flushCompleted < awaited && !workerFailed;
      ok, durable := !workerFailed, durableOffset;
      Become(P.Check, P.Apply(model, P.Check));
    }

    /** What `finish` does each time it wakes up: wait on, or go and join the worker. */
    method CheckEnd() returns (waits: bool, ok: bool, durable: nat)
      requires Valid() && model.producer.Ending?
      modifies this`model
      ensures Valid() && model == P.Apply(old(model), P.End)
      ensures model.producer == if waits then P.AwaitEnd
              else P.Joining(if ok then P.Finished(durable) else P.FinishFailed)
    {
      waits := !finished;
      ok, durable := !workerFailed, durableOffset;
      Become(P.End, P.Apply(model, P.End));
    }

    // ----- without a thread

    /** `write` in synchronous mode: tried whatever has failed before, and landing where the stream stands. */
    method SyncWrite(data: seq<byte>, limit: nat) returns (wrote: bool, ghost moved: nat)
      requires Valid() && !asynchronous
      modifies this, output
      ensures Valid()
      ensures P.CanSyncWrite(old(model), wrote, output.flat, moved)
      ensures model == P.SyncWrites(old(model), data, wrote, output.flat, moved)
    {
      Basics(model);
      ghost var file, landing := output.flat, acceptedOffset + model.drift;
      wrote := output.WriteAt(acceptedOffset, data, limit);
      if wrote { assert data[..|data|] == data; }
      moved := if wrote then 0 else output.Landing(acceptedOffset) - landing;
      RecordWrite(data, wrote, moved, file, landing);
    }

    /** What `write` notes of the attempt. */
    method RecordWrite(data: seq<byte>, wrote: bool, ghost moved: nat, ghost file: seq<byte>, ghost landing: nat)
      requires !asynchronous && RingOk() && FieldsOk() && P.Reachable(model) && output.Valid()
      requires landing == acceptedOffset + model.drift <= |file| && file == model.store.file
      requires if wrote
               then output.flat == Splice(file, landing, data)
                    && output.Landing(acceptedOffset + |data|) == landing + |data|
               else P.SpoiledFrom(file, landing, output.flat)
                    && output.Landing(acceptedOffset) == landing + moved <= |output.flat|
      requires wrote && !model.failed ==> output.CacheRight()
      modifies this`acceptedOffset, this`writtenOffset, this`workerFailed, this`model
      ensures Valid() && P.CanSyncWrite(old(model), wrote, output.flat, moved)
      ensures model == P.SyncWrites(old(model), data, wrote, output.flat, moved)
    {
      Basics(model);
      ShowsSyncWrite(Values(), model, data, wrote, output.flat, moved);
      P.ReachableSyncWrite(model, data, wrote, output.flat, moved);
      if !wrote {
        workerFailed := true;
      } else {
        acceptedOffset := acceptedOffset + |data|;
        writtenOffset := acceptedOffset;
      }
      model := P.SyncWrites(model, data, wrote, output.flat, moved);
    }

    /** `checkpoint` in synchronous mode; `flushed` is what the device reports. */
    method SyncCheckpoint(flushed: bool) returns (ok: bool)
      requires Valid() && !asynchronous && model.producer.Idle?
      modifies this
      ensures Valid() && model == P.Apply(old(model), P.SyncCheckpoint(flushed))
      ensures ok <==> model.producer == P.Idle(P.Checkpointed(durableOffset))
    {
      Basics(model);
      ShowsSyncFlush(Values(), model, P.SyncCheckpoint(flushed));
      ok := !workerFailed && flushed;
      if ok { durableOffset := writtenOffset; }
      Become(P.SyncCheckpoint(flushed), P.Apply(model, P.SyncCheckpoint(flushed)));
    }

    /** `finish` in synchronous mode. */
    method SyncFinish(flushed: bool) returns (ok: bool)
      requires Valid() && !asynchronous && model.producer.Idle?
      modifies this`durableOffset, this`finished, this`workerFailed, this`model
      ensures Valid() && model == P.Apply(old(model), P.SyncFinish(flushed))
      ensures ok <==> model.producer == P.Idle(P.Finished(durableOffset))
    {
      if finished || workerFailed {
        ok := finished && !workerFailed;
        Basics(model);
        ShowsSyncFlush(Values(), model, P.SyncFinish(flushed));
        Become(P.SyncFinish(flushed), P.Apply(model, P.SyncFinish(flushed)));
      } else {
        ok := LastFlush(flushed);
      }
    }

    method LastFlush(flushed: bool) returns (ok: bool)
      requires Valid() && !asynchronous && model.producer.Idle? && !finished && !workerFailed
      modifies this`durableOffset, this`finished, this`workerFailed, this`model
      ensures Valid() && model == P.Apply(old(model), P.SyncFinish(flushed))
      ensures ok == flushed && (ok <==> model.producer == P.Idle(P.Finished(durableOffset)))
    {
      Basics(model);
      ShowsSyncFlush(Values(), model, P.SyncFinish(flushed));
      if !flushed {
        workerFailed := true;
      } else {
        durableOffset := writtenOffset;
        finished := true;
      }
      Become(P.SyncFinish(flushed), P.Apply(model, P.SyncFinish(flushed)));
      ok := flushed;
    }
  }
}

module OperationGates {
  // The gate that lets one long-running operation run at a time. The mutex makes each call one step, so a
  // history is a sequence of calls; `Ask` is what one call does to the guarded fields.

  datatype Phase =
    | Idle | Preparing | Downloading | Verifying | Installing | Removing
    | Discovering | Pairing | Completed | Paused | Failed | Cancelled

  datatype Snapshot = Snapshot(
    phase: Phase, title: string, message: string, current: nat, total: nat, bytesPerSecond: real, etaSeconds: nat,
    generation: nat, busy: bool, cancellable: bool, cancelRequested: bool)

  datatype Gate = Gate(snapshot: Snapshot, next: nat)

  datatype Call =
    | Start(phase: Phase, title: string, message: string, cancellable: bool)
    | Update(generation: nat, current: nat, total: nat, bytesPerSecond: real, etaSeconds: nat)
    | SetPhase(generation: nat, phase: Phase, message: string, cancellable: bool)
    | Finish(generation: nat, phase: Phase, message: string)
    | RequestCancel

  /** What an accepted call means to the operations. */
  datatype Event = Started(generation: nat) | Finished(generation: nat) | Stopped(generation: nat)

  const FRESH := Gate(Snapshot(Idle, "", "", 0, 0, 0.0, 0, 0, false, false, false), 1)

  /** The call names the running operation. */
  predicate Current(g: Gate, generation: nat) {
    g.snapshot.busy && g.snapshot.generation == generation
  }

  predicate Accepts(g: Gate, call: Call) {
    match call
    case Start(_, _, _, _) => !g.snapshot.busy
    case RequestCancel => g.snapshot.busy && g.snapshot.cancellable
    case _ => Current(g, call.generation)
  }

  function Ask(g: Gate, call: Call): Gate {
    if !Accepts(g, call) then g
    else
      match call
      case Start(phase, title, message, cancellable) =>
        Gate(Snapshot(phase, title, message, 0, 0, 0.0, 0, g.next, true, cancellable, false), g.next + 1)
      case Update(_, current, total, rate, eta) =>
        g.(snapshot := g.snapshot.(current := current, total := total, bytesPerSecond := rate, etaSeconds := eta))
      case SetPhase(_, phase, message, cancellable) =>
        g.(snapshot := g.snapshot.(phase := phase, message := message, cancellable := cancellable))
      case Finish(_, phase, message) =>
        g.(snapshot := g.snapshot.(phase := phase, message := message, busy := false, cancellable := false))
      case RequestCancel => g.(snapshot := g.snapshot.(cancelRequested := true))
  }

  predicate ShouldContinue(g: Gate, generation: nat) {
    Current(g, generation) && !g.snapshot.cancelRequested
  }

  // ----- histories

  function After(history: seq<Call>): Gate {
    if history == [] then FRESH else Ask(After(history[..|history| - 1]), history[|history| - 1])
  }

  function EventOf(g: Gate, call: Call): seq<Event> {
    if !Accepts(g, call) then []
    else
      match call
      case Start(_, _, _, _) => [Started(g.next)]
      case Finish(generation, _, _) => [Finished(generation)]
      case RequestCancel => [Stopped(g.snapshot.generation)]
      case _ => []
  }

  /** What was accepted, in order. */
  function Log(history: seq<Call>): seq<Event> {
    if history == [] then []
    else
      var before := history[..|history| - 1];
      Log(before) + EventOf(After(before), history[|history| - 1])
  }

  /** The generations that were handed out, in order. */
  function Generations(log: seq<Event>): seq<nat> {
    if log == [] then []
    else
      var last := log[|log| - 1];
      Generations(log[..|log| - 1]) + if last.Started? then [last.generation] else []
  }

  /** The gate says what the log says. */
  ghost predicate Agrees(g: Gate, log: seq<Event>) {
    && 1 <= g.next && g.snapshot.generation < g.next && (g.snapshot.busy ==> 1 <= g.snapshot.generation)
    && (forall n: nat :: Started(n) in log <==> 1 <= n < g.next)
    && (forall n: nat :: Finished(n) in log <==> 1 <= n < g.next && !Current(g, n))
    && (forall n: nat :: Current(g, n) ==> (Stopped(n) in log <==> g.snapshot.cancelRequested))
    && (forall n: nat :: Stopped(n) in log ==> 1 <= n < g.next)
  }

  lemma {:induction false} StepAgrees(g: Gate, log: seq<Event>, call: Call)
    requires Agrees(g, log)
    ensures Agrees(Ask(g, call), log + EventOf(g, call))
  {
    var event := EventOf(g, call);
    assert forall e :: e in log + event <==> e in log || e in event;
  }

  lemma {:induction false} HistoryAgrees(history: seq<Call>)
    ensures Agrees(After(history), Log(history))
  {
    if history != [] {
      var before := history[..|history| - 1];
      HistoryAgrees(before);
      StepAgrees(After(before), Log(before), history[|history| - 1]);
    }
  }

  /** At most one operation is unfinished at any time, and it is the one the snapshot shows. */
  lemma {:induction false} OneAtATime(history: seq<Call>, n: nat)
    ensures var g, log := After(history), Log(history);
            Started(n) in log && Finished(n) !in log <==> Current(g, n)
  {
    HistoryAgrees(history);
  }

  /** An operation may go on exactly if it was started and neither finished nor cancelled. */
  lemma {:induction false} ContinuesIff(history: seq<Call>, n: nat)
    ensures var log := Log(history);
            ShouldContinue(After(history), n) <==> Started(n) in log && Finished(n) !in log && Stopped(n) !in log
  {
    HistoryAgrees(history);
  }

  lemma {:induction false} LogGrows(history: seq<Call>, more: seq<Call>)
    ensures Log(history) <= Log(history + more)
  {
    if more == [] {
      assert history + more == history;
    } else {
      LogGrows(history, more[..|more| - 1]);
      assert (history + more)[..|history + more| - 1] == history + more[..|more| - 1];
    }
  }

  /** Once an operation that was started may not go on, no later call lets it go on again. */
  lemma {:induction false} NeverContinuesAgain(history: seq<Call>, more: seq<Call>, n: nat)
    requires Started(n) in Log(history) && !ShouldContinue(After(history), n)
    ensures !ShouldContinue(After(history + more), n)
  {
    ContinuesIff(history, n);
    ContinuesIff(history + more, n);
    LogGrows(history, more);
    var log, later := Log(history), Log(history + more);
    assert later == log + later[|log|..];
  }

  lemma {:induction false} GenerationsAppend(log: seq<Event>, event: seq<Event>)
    requires |event| <= 1
    ensures Generations(log + event) == Generations(log) + if |event| == 1 && event[0].Started?
            then [event[0].generation] else []
  {
    if event == [] {
      assert log + event == log;
    } else {
      assert (log + event)[..|log|] == log;
    }
  }

  /** The generations are 1, 2, 3, ...: strictly increasing, and 0 is never one of them. */
  lemma {:induction false} GenerationsCount(history: seq<Call>)
    ensures var handed := Generations(Log(history));
            |handed| + 1 == After(history).next && forall i :: 0 <= i < |handed| ==> handed[i] == i + 1
  {
    if history != [] {
      var before := history[..|history| - 1];
      GenerationsCount(before);
      GenerationsAppend(Log(before), EventOf(After(before), history[|history| - 1]));
    }
  }

  /** A call for an operation that never started (such as the 0 of a refused start) or that is finished changes
    nothing, now or later. */
  lemma {:induction false} StaleCallsDoNothing(history: seq<Call>, call: Call, more: seq<Call>)
    requires call.Update? || call.SetPhase? || call.Finish?
    requires Started(call.generation) !in Log(history) || Finished(call.generation) in Log(history)
    ensures After(history + [call] + more) == After(history + more)
    decreases |more|
  {
    OneAtATime(history, call.generation);
    assert (history + [call])[..|history|] == history;
    if more == [] {
      assert history + [call] + more == history + [call] && history + more == history;
    } else {
      var less := more[..|more| - 1];
      StaleCallsDoNothing(history, call, less);
      assert (history + [call] + more)[..|history + [call] + more| - 1] == history + [call] + less;
      assert (history + more)[..|history + more| - 1] == history + less;
    }
  }

  // ----- the object

  class OperationGate {
    var snapshot: Snapshot
    var nextGeneration: nat

    function Shown(): Gate
      reads this
    {
      Gate(snapshot, nextGeneration)
    }

    constructor ()
      ensures Shown() == After([])
    {
      snapshot := FRESH.snapshot;
      nextGeneration := 1;
    }

    method Start(phase: Phase, title: string, message: string, cancellable: bool) returns (generation: nat)
      modifies this
      ensures Shown() == Ask(old(Shown()), Call.Start(phase, title, message, cancellable))
      ensures generation == if old(snapshot.busy) then 0 else old(nextGeneration)
      ensures old(nextGeneration) >= 1 && generation != 0 ==> ShouldContinue(Shown(), generation)
    {
      if snapshot.busy { return 0; }
      snapshot := Snapshot(phase, title, message, 0, 0, 0.0, 0, nextGeneration, true, cancellable, false);
      nextGeneration := nextGeneration + 1;
      return snapshot.generation;
    }

    method Update(generation: nat, current: nat, total: nat, bytesPerSecond: real, etaSeconds: nat) returns (ok: bool)
      modifies this`snapshot
      ensures Shown() == Ask(old(Shown()), Call.Update(generation, current, total, bytesPerSecond, etaSeconds))
      ensures ok <==> Current(old(Shown()), generation)
      ensures forall n: nat :: ShouldContinue(Shown(), n) <==> ShouldContinue(old(Shown()), n)
    {
      if !snapshot.busy || snapshot.generation != generation { return false; }
      snapshot := snapshot.(current := current);
      snapshot := snapshot.(total := total);
      snapshot := snapshot.(bytesPerSecond := bytesPerSecond);
      snapshot := snapshot.(etaSeconds := etaSeconds);
      return true;
    }

    method SetPhase(generation: nat, phase: Phase, message: string, cancellable: bool) returns (ok: bool)
      modifies this`snapshot
      ensures Shown() == Ask(old(Shown()), Call.SetPhase(generation, phase, message, cancellable))
      ensures ok <==> Current(old(Shown()), generation)
      ensures forall n: nat :: ShouldContinue(Shown(), n) <==> ShouldContinue(old(Shown()), n)
    {
      if !snapshot.busy || snapshot.generation != generation { return false; }
      snapshot := snapshot.(phase := phase);
      snapshot := snapshot.(message := message);
      snapshot := snapshot.(cancellable := cancellable);
      return true;
    }

    method Finish(generation: nat, phase: Phase, message: string) returns (ok: bool)
      modifies this`snapshot
      ensures Shown() == Ask(old(Shown()), Call.Finish(generation, phase, message))
      ensures ok <==> Current(old(Shown()), generation)
      ensures ok ==> forall n: nat :: !ShouldContinue(Shown(), n)
    {
      if !snapshot.busy || snapshot.generation != generation { return false; }
      snapshot := snapshot.(phase := phase);
      snapshot := snapshot.(message := message);
      snapshot := snapshot.(busy := false);
      snapshot := snapshot.(cancellable := false);
      return true;
    }

    method RequestCancel() returns (ok: bool)
      modifies this`snapshot
      ensures Shown() == Ask(old(Shown()), Call.RequestCancel)
      ensures ok <==> old(snapshot.busy && snapshot.cancellable)
      ensures ok ==> forall n: nat :: !ShouldContinue(Shown(), n)
    {
      if !snapshot.busy || !snapshot.cancellable { return false; }
      snapshot := snapshot.(cancelRequested := true);
      return true;
    }
  }
}

module BackupFiles {
  // Replacing a file through a temporary file and a backup. Each call is a few operations of the file system,
  // any of which may be the last one before a crash or an error.

  import opened Common

  /** The three files. Nobody reads the temporary file, so one that is still being written is left as it was. */
  datatype Files<T> = Files(temporary: Option<T>, current: Option<T>, backup: Option<T>)

  /** What a reader gets: the current file, else the backup. */
  function Read<T>(f: Files<T>): Option<T> {
    if f.current.Some? then f.current else f.backup
  }

  /** How many operations a complete save takes. */
  function SaveSteps<T>(f: Files<T>): nat {
    if f.current.Some? then 4 else 2
  }

  /**
    The files after the first `k` operations of saving `v`: write, remove the backup, move the current
    file aside, rename.
   */
  function SaveUpTo<T>(f: Files<T>, v: T, k: nat): Files<T> {
    if k == 0 then f
    else if f.current.None? then
      if k == 1 then f.(temporary := Some(v)) else Files(None, Some(v), f.backup)
    else if k == 1 then f.(temporary := Some(v))
    else if k == 2 then Files(Some(v), f.current, None)
    else if k == 3 then Files(Some(v), None, f.current)
    else Files(None, Some(v), f.current)
  }

  /** The files after the first `k` operations of clearing: the current file goes first, then the backup. */
  function ClearUpTo<T>(f: Files<T>, k: nat): Files<T> {
    if k == 0 then f else if k == 1 then f.(current := None) else Files(f.temporary, None, None)
  }

  /** A save is atomic for readers: they get the old value up to the last operation, and the new one from then on. */
  lemma SaveIsAtomic<T>(f: Files<T>, v: T, k: nat)
    ensures Read(SaveUpTo(f, v, k)) == if k >= SaveSteps(f) then Some(v) else Read(f)
  {
  }

  // ----- histories

  datatype Call<T> = Save(value: T, steps: nat) | Clear(steps: nat)

  function Apply<T>(f: Files<T>, call: Call<T>): Files<T> {
    match call
    case Save(v, k) => SaveUpTo(f, v, k)
    case Clear(k) => ClearUpTo(f, k)
  }

  /** The files after a history of calls, each cut short or complete. */
  function Run<T>(f: Files<T>, history: seq<Call<T>>): Files<T> {
    if history == [] then f else Apply(Run(f, history[..|history| - 1]), history[|history| - 1])
  }

  /** The values whose save got through to its last operation, in order. */
  function Completed<T>(f: Files<T>, history: seq<Call<T>>): seq<T> {
    if history == [] then []
    else
      var before, call := history[..|history| - 1], history[|history| - 1];
      Completed(f, before) + if call.Save? && call.steps >= SaveSteps(Run(f, before)) then [call.value] else []
  }

  /** In every history of saves the reader gets the last completed value, and never nothing once there is one. */
  lemma {:induction false} ReadsLastCompleted<T>(f: Files<T>, history: seq<Call<T>>)
    requires forall i :: 0 <= i < |history| ==> history[i].Save?
    ensures var done := Completed(f, history);
            Read(Run(f, history)) == if done == [] then Read(f) else Some(done[|done| - 1])
  {
    if history != [] {
      var before, call := history[..|history| - 1], history[|history| - 1];
      ReadsLastCompleted(f, before);
      SaveIsAtomic(Run(f, before), call.value, call.steps);
    }
  }

  /** With clearing in between, whatever is read was once saved completely. */
  lemma {:induction false} ReadsSomeCompleted<T>(history: seq<Call<T>>)
    ensures var f := Run(Files(None, None, None), history);
            var done := Completed(Files(None, None, None), history);
            && (f.current.Some? ==> f.current.value in done)
            && (f.backup.Some? ==> f.backup.value in done)
  {
    if history != [] { ReadsSomeCompleted(history[..|history| - 1]); }
  }

  /**
    After the first `k` operations of clearing nothing is read exactly if each file was missing or has
    been removed.
   */
  lemma NothingIsRead<T>(f: Files<T>, k: nat)
    ensures Read(ClearUpTo(f, k)) == None <==> (f.current.None? || k >= 1) && (f.backup.None? || k >= 2)
  {
  }

  /** A cleared file can come back once: a crash between the two removals leaves the backup. */
  lemma ClearedComesBack<T>(before: T, last: T)
    ensures var f := Files(None, Some(last), Some(before));
            Read(ClearUpTo(f, 1)) == Some(before) && Read(ClearUpTo(ClearUpTo(f, 1), 2)) == None
  {
  }

  // ----- the calls

  /** The files of one store, changed in place. */
  class Store<T(==)> {
    var temporary: Option<T>
    var current: Option<T>
    var backup: Option<T>

    function Shown(): Files<T>
      reads this
    {
      Files(temporary, current, backup)
    }

    /** `replaceWithBackup` behind the writing of the temporary file; `steps` operations succeed. */
    method Replace(v: T, steps: nat) returns (ok: bool)
      modifies this
      ensures Shown() == SaveUpTo(old(Shown()), v, steps)
      ensures ok <==> steps >= SaveSteps(old(Shown()))
      ensures Read(Shown()) == if ok then Some(v) else old(Read(Shown()))
    {
      if steps == 0 { return false; }
      temporary := Some(v);
      var left := steps - 1;
      if current.Some? {
        if left == 0 { return false; }
        backup := None;
        if left == 1 { return false; }
        current, backup := None, current;
        left := left - 2;
      }
      if left == 0 { return false; }
      temporary, current := None, Some(v);
      return true;
    }

    /** `clearInstallJournal`. */
    method ClearBoth(steps: nat) returns (ok: bool)
      modifies this
      ensures Shown() == ClearUpTo(old(Shown()), steps)
      ensures ok <==> steps >= 2
      ensures ok ==> Read(Shown()) == None
    {
      if steps == 0 { return false; }
      current := None;
      if steps == 1 { return false; }
      backup := None;
      return true;
    }
  }
}

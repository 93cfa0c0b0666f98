module Installer {
  // Installing one package over the content manager, and recovering after a crash. Every call that can fail or
  // be the last one before a crash is a step of its own; so is every file operation of the journal.

  import opened BackupFiles
  import opened Common

  type Id = nat
  type Holder = nat
  type Package = nat

  /** What the journal notes about one content: created contents get a placeholder. */
  datatype Entry = Entry(id: Id, holder: Holder, created: bool)

  datatype Phase = Prepared | Registered | Committed | RolledBack

  datatype Journal = Journal(package: Package, contents: seq<Entry>, phase: Phase)

  /** What survives a crash. */
  datatype World = World(registered: set<Id>, holders: set<Holder>, metadata: set<Package>, files: Files<Journal>)

  /** Where the program stands. `Saving` and `Clearing` count the operations
      done since `base`, the last of which commits the device. */
  datatype Point =
    | Idle
    | Saving(base: Files<Journal>, k: nat, next: Point, failed: Point)
    | Create(i: nat)
    | Fill(i: nat)
    | Register(i: nat)
    | Drop(i: nat)
    | Commit
    | Refresh
    | RollBack(i: nat)
    | Installed(ok: bool)
    | Check
    | Reach
    | Delete(i: nat)
    | RefreshAgain
    | Clearing(base: Files<Journal>, k: nat, next: Point)
    | Recovered(committed: bool)

  /**
    `found`: the live placeholders when the running recovery began.
    `refused`: the placeholders whose deletion, or whose storage's opening, failed in it.
    `lost`: placeholders some recovery has given up.
   */
  datatype System = System(world: World, point: Point, journal: Journal, found: set<Holder>, refused: set<Holder>,
          lost: set<Holder>)

  datatype Step =
    | Begin(package: Package, contents: seq<Entry>)
    | StartRecovery
    | Go(ok: bool)
    | Crash

  // ----- what the program does next

  function HoldersOf(contents: seq<Entry>): set<Holder> {
    set i | 0 <= i < |contents| && contents[i].created :: contents[i].holder
  }

  /** What one install knows about each package: the ids of its contents. */
  type Contents = Package -> set<Id>

  /** The journal an install writes first: what is not there yet gets a fresh placeholder. */
  ghost predicate Plans(of: Contents, w: World, package: Package, contents: seq<Entry>) {
    && (forall x :: x in of(package) <==> exists i :: 0 <= i < |contents| && contents[i].id == x)
    && (forall i :: 0 <= i < |contents| ==> (contents[i].created <==> contents[i].id !in w.registered))
    && (forall i :: 0 <= i < |contents| && contents[i].created ==> contents[i].holder !in w.holders)
    && (forall i, j :: 0 <= i < j < |contents| && contents[i].created && contents[j].created ==>
        contents[i].holder != contents[j].holder)
  }

  /** Begins only when no journal is pending and the package is not installed. */
  ghost predicate Enabled(of: Contents, s: System, step: Step) {
    match step
    case Begin(package, contents) =>
      s.point.Idle? && Read(s.world.files) == None && package !in s.world.metadata
          && Plans(of, s.world, package, contents)
    case StartRecovery => s.point.Idle? && Read(s.world.files).Some?
    case Go(_) => !s.point.Idle?
    case Crash => true
  }

  function SavingTo(s: System, journal: Journal, next: Point, failed: Point): System {
    s.(journal := journal, point := Saving(s.world.files, 0, next, failed))
  }

  /** Recovery goes on without having deleted these. */
  function GiveUp(s: System, holders: set<Holder>): System {
    s.(refused := s.refused + holders, lost := s.lost + holders)
  }

  function Proceed(s: System, ok: bool): System
    requires !s.point.Idle?
  {
    var w, contents := s.world, s.journal.contents;
    match s.point
    case Saving(base, k, next, failed) =>
      if !ok then s.(point := failed)
      else
        s.(world := w.(files := SaveUpTo(base, s.journal, k + 1)),
           point := if k + 1 > SaveSteps(base) then next else Saving(base, k + 1, next, failed))
    case Create(i) =>
      if i >= |contents| then s.(point := Commit)
      else if !contents[i].created then s.(point := Create(i + 1))
      else if ok then s.(world := w.(holders := w.holders + {contents[i].holder}), point := Fill(i))
      else s.(point := RollBack(0))
    case Fill(i) => s.(point := if ok then Register(i) else RollBack(0))
    case Register(i) =>
      if ok && i < |contents|
      then s.(world := w.(registered := w.registered + {contents[i].id}, holders := w.holders - {contents[i].holder}),
          point := Drop(i))
      else s.(point := RollBack(0))
    case Drop(i) =>
      if i >= |contents| then s.(point := RollBack(0))
      else
        SavingTo(s.(world := w.(holders := w.holders - {contents[i].holder})),
                 s.journal.(phase := Registered), Create(i + 1), RollBack(0))
    case Commit =>
      if ok then s.(world := w.(metadata := w.metadata + {s.journal.package}), point := Refresh)
          else s.(point := RollBack(0))
    case Refresh =>
      if ok then SavingTo(s, s.journal.(phase := Committed), Installed(true), Installed(false))
          else s.(point := Installed(false))
    case RollBack(i) =>
      if i >= |contents| then SavingTo(s, s.journal.(phase := RolledBack), Installed(false), Installed(false))
      else if contents[i].created && ok
      then s.(world := w.(holders := w.holders - {contents[i].holder}), point := RollBack(i + 1))
      else s.(point := RollBack(i + 1))
    case Installed(done) => s.(point := if done then Clearing(w.files, 0, Idle) else Idle)
    case Check =>
      if !ok then s.(point := Idle)
      else s.(point := if s.journal.package in w.metadata then RefreshAgain else Reach)
    case Reach => if ok then s.(point := Delete(0))
        else GiveUp(s, HoldersOf(contents)).(point := Clearing(w.files, 0, Recovered(false)))
    case Delete(i) =>
      if i >= |contents| then s.(point := Clearing(w.files, 0, Recovered(false)))
      else if !contents[i].created then s.(point := Delete(i + 1))
      else if ok then s.(world := w.(holders := w.holders - {contents[i].holder}), point := Delete(i + 1))
      else GiveUp(s, {contents[i].holder}).(point := Delete(i + 1))
    case RefreshAgain => s.(point := if ok then Clearing(w.files, 0, Recovered(true)) else Idle)
    case Clearing(base, k, next) =>
      if !ok then s.(point := Idle)
      else
        s.(world := w.(files := ClearUpTo(base, k + 1)), point := if k + 1 > 2 then next
            else Clearing(base, k + 1, next))
    case Recovered(_) => s.(point := Idle)
  }

  ghost function Apply(of: Contents, s: System, step: Step): System
    requires Enabled(of, s, step)
  {
    match step
    case Begin(package, contents) => SavingTo(s, Journal(package, contents, Prepared), Create(0), Installed(false))
    case StartRecovery => s.(journal := Read(s.world.files).value, point := Check, found := s.world.holders, refused :=
        {})
    case Go(ok) => Proceed(s, ok)
    case Crash => s.(point := Idle)
  }

  // ----- what every run keeps

  /** The same install, whatever the phase says. */
  predicate Same(a: Journal, b: Journal) {
    a.package == b.package && a.contents == b.contents
  }

  predicate AllSame(f: Files<Journal>, j: Journal) {
    (f.current.Some? ==> Same(f.current.value, j)) && (f.backup.Some? ==> Same(f.backup.value, j))
  }

  /** The journal lists every content, and answers only for placeholders of its own. */
  ghost predicate Listed(of: Contents, foreign: set<Holder>, w: World, j: Journal) {
    && (forall x :: x in of(j.package) ==> exists i :: 0 <= i < |j.contents| && j.contents[i].id == x)
    && (forall i :: 0 <= i < |j.contents| && !j.contents[i].created ==> j.contents[i].id in w.registered)
    && (forall i, k :: 0 <= i < k < |j.contents| && j.contents[i].created && j.contents[k].created ==>
          j.contents[i].holder != j.contents[k].holder)
    && HoldersOf(j.contents) !! foreign
  }

  /** No placeholder of this journal is live. */
  predicate Settled(w: World, j: Journal) {
    HoldersOf(j.contents) !! w.holders
  }

  predicate RegisteredUpTo(w: World, j: Journal, n: nat) {
    forall i :: 0 <= i < n && i < |j.contents| ==> j.contents[i].id in w.registered
  }

  /** The journal in memory is the one on disk. */
  predicate Noted(s: System) {
    Read(s.world.files).Some? && Same(Read(s.world.files).value, s.journal)
  }

  /** What holds while an install is under way, apart from what the files say. */
  predicate Installing(s: System, n: nat) {
    s.journal.package !in s.world.metadata && RegisteredUpTo(s.world, s.journal, n)
  }

  predicate NextOk(s: System, p: Point) {
    match p
    case Create(i) => i <= |s.journal.contents| && Installing(s, i) && Settled(s.world, s.journal)
    case RollBack(i) => s.journal.package !in s.world.metadata
    case Installed(done) => done ==> s.journal.package in s.world.metadata
    case _ => false
  }

  predicate ClearedOk(s: System, p: Point) {
    match p
    case Idle => s.journal.package in s.world.metadata
    case Recovered(committed) => (committed <==> s.journal.package in s.world.metadata)
        && (Settled(s.world, s.journal) <==> committed || s.refused !! s.found)
    case _ => false
  }

  ghost predicate PointOk(s: System) {
    var w, contents := s.world, s.journal.contents;
    match s.point
    case Idle => true
    case Saving(base, k, next, failed) =>
      && k <= SaveSteps(base) && w.files == SaveUpTo(base, s.journal, k) && AllSame(base, s.journal)
      && NextOk(s, next) && NextOk(s, failed) && (failed.RollBack? || failed == Installed(false))
      && (failed.RollBack? ==> Read(base).Some?) && (Read(base).None? ==> s.journal.package !in w.metadata)
    case Create(i) => Noted(s) && i <= |contents| && Installing(s, i) && Settled(w, s.journal)
    case Fill(i) => Noted(s) && i < |contents| && contents[i].created && Installing(s, i) && OnlyHolder(s, i)
    case Register(i) => Noted(s) && i < |contents| && contents[i].created && Installing(s, i) && OnlyHolder(s, i)
    case Drop(i) => Noted(s) && i < |contents| && contents[i].created && Installing(s, i + 1) && Settled(w, s.journal)
    case Commit => Noted(s) && Installing(s, |contents|) && Settled(w, s.journal)
    case Refresh => Noted(s) && s.journal.package in w.metadata
    case RollBack(_) => Noted(s) && s.journal.package !in w.metadata
    case Installed(done) => done ==> Noted(s) && s.journal.package in w.metadata
    case Check => Noted(s) && LeftOver(s, 0)
    case Reach => Noted(s) && LeftOver(s, 0) && s.journal.package !in w.metadata
    case Delete(i) => Noted(s) && s.journal.package !in w.metadata && GoneOrLost(s, i) && LeftOver(s, i)
    case RefreshAgain => Noted(s) && s.journal.package in w.metadata
    case Clearing(base, k, next) =>
      && k <= 2 && w.files == ClearUpTo(base, k) && Read(base).Some? && AllSame(base, s.journal) && ClearedOk(s, next)
      && GoneOrLost(s, |contents|) && (s.journal.package in w.metadata ==> Settled(w, s.journal))
    case Recovered(committed) => Read(w.files) == None && ClearedOk(s, s.point)
  }

  predicate OnlyHolder(s: System, i: nat)
    requires i < |s.journal.contents|
  {
    forall j :: 0 <= j < |s.journal.contents| && j != i && s.journal.contents[j].created ==>
        s.journal.contents[j].holder !in s.world.holders
  }

  predicate GoneOrLost(s: System, n: nat) {
    forall j :: 0 <= j < n && j < |s.journal.contents| && s.journal.contents[j].created ==>
      s.journal.contents[j].holder !in s.world.holders || s.journal.contents[j].holder in s.lost
  }

  /**
    Of the first `n` placeholders those are left that were there and could not be deleted, of the others
    all that were there.
   */
  predicate LeftOver(s: System, n: nat) {
    var contents := s.journal.contents;
    && s.refused <= HoldersOf(contents)
    && (forall j :: 0 <= j < |contents| && contents[j].created ==>
          (contents[j].holder in s.world.holders <==>
              contents[j].holder in s.found && (j < n ==> contents[j].holder in s.refused)))
    && (forall j :: n <= j < |contents| && contents[j].created ==> contents[j].holder !in s.refused)
  }

  /** What the persisted journal answers for. */
  function Named(f: Files<Journal>): set<Holder> {
    if Read(f).Some? then HoldersOf(Read(f).value.contents) else {}
  }

  ghost predicate WorldOk(of: Contents, foreign: set<Holder>, w: World, lost: set<Holder>) {
    && (forall p :: p in w.metadata ==> of(p) <= w.registered)
    && foreign <= w.holders <= foreign + Named(w.files) + lost
    && (w.files.current.Some? && w.files.backup.Some? ==> Same(w.files.current.value, w.files.backup.value))
    && (Read(w.files).Some? ==>
          && Listed(of, foreign, w, Read(w.files).value)
          && (Read(w.files).value.package in w.metadata ==> Settled(w, Read(w.files).value)))
  }

  ghost predicate Inv(of: Contents, foreign: set<Holder>, s: System) {
    && WorldOk(of, foreign, s.world, s.lost) && PointOk(s)
    && (!s.point.Idle? ==> Listed(of, foreign, s.world, s.journal))
  }

  // ----- one step at a time

  lemma HoldersSame(w: World, j: Journal)
    ensures Settled(w, j) <==> forall i :: 0 <= i < |j.contents| && j.contents[i].created ==>
            j.contents[i].holder !in w.holders
  {
    forall i | 0 <= i < |j.contents| && j.contents[i].created
      ensures j.contents[i].holder in HoldersOf(j.contents)
    {
    }
  }

  lemma SaveStepSame(base: Files<Journal>, j: Journal, k: nat)
    requires AllSame(base, j)
    ensures AllSame(SaveUpTo(base, j, k), j)
    ensures Read(SaveUpTo(base, j, k)) == if k >= SaveSteps(base) then Some(j) else Read(base)
  {
    SaveIsAtomic(base, j, k);
  }

  lemma InHolders(contents: seq<Entry>, i: nat)
    requires i < |contents| && contents[i].created
    ensures contents[i].holder in HoldersOf(contents)
  {
  }

  // how each change of the content manager leaves the world

  lemma WorldAdds(of: Contents, foreign: set<Holder>, w: World, lost: set<Holder>, h: Holder)
    requires WorldOk(of, foreign, w, lost) && h in Named(w.files) && Read(w.files).value.package !in w.metadata
    ensures WorldOk(of, foreign, w.(holders := w.holders + {h}), lost)
  {
  }

  lemma WorldDrops(of: Contents, foreign: set<Holder>, w: World, lost: set<Holder>, h: Holder)
    requires WorldOk(of, foreign, w, lost) && h !in foreign
    ensures WorldOk(of, foreign, w.(holders := w.holders - {h}), lost)
  {
  }

  lemma WorldRegisters(of: Contents, foreign: set<Holder>, w: World, lost: set<Holder>, x: Id)
    requires WorldOk(of, foreign, w, lost)
    ensures WorldOk(of, foreign, w.(registered := w.registered + {x}), lost)
  {
  }

  lemma WorldCommits(of: Contents, foreign: set<Holder>, w: World, lost: set<Holder>, j: Journal)
    requires WorldOk(of, foreign, w, lost) && Read(w.files).Some? && Same(Read(w.files).value, j)
    requires Settled(w, j) && of(j.package) <= w.registered
    ensures WorldOk(of, foreign, w.(metadata := w.metadata + {j.package}), lost)
  {
  }

  lemma WorldGivesUp(of: Contents, foreign: set<Holder>, w: World, lost: set<Holder>, more: set<Holder>)
    requires WorldOk(of, foreign, w, lost)
    ensures WorldOk(of, foreign, w, lost + more)
  {
  }

  /** Files of the same install. */
  lemma WorldFiles(of: Contents, foreign: set<Holder>, w: World, lost: set<Holder>, f: Files<Journal>, j: Journal)
    requires WorldOk(of, foreign, w, lost) && AllSame(f, j) && Listed(of, foreign, w, j)
    requires Read(w.files).Some? ==> Read(f).Some? && Same(Read(w.files).value, j)
    requires Read(w.files).None? ==> j.package !in w.metadata
    ensures WorldOk(of, foreign, w.(files := f), lost)
  {
  }

  /** Files without a journal, once every placeholder is accounted for. */
  lemma WorldCleared(of: Contents, foreign: set<Holder>, w: World, lost: set<Holder>, f: Files<Journal>, j: Journal)
    requires WorldOk(of, foreign, w, lost) && AllSame(f, j) && Listed(of, foreign, w, j)
    requires w.holders <= foreign + lost && (j.package in w.metadata ==> Settled(w, j))
    ensures WorldOk(of, foreign, w.(files := f), lost)
  {
  }

  /** One file operation of saving the journal. */
  lemma {:induction false} SavingKeeps(of: Contents, foreign: set<Holder>, s: System, ok: bool)
    requires Inv(of, foreign, s) && s.point.Saving?
    ensures Inv(of, foreign, Proceed(s, ok))
  {
    var base, k := s.point.base, s.point.k;
    SaveStepSame(base, s.journal, k);
    SaveStepSame(base, s.journal, k + 1);
    if ok { WorldFiles(of, foreign, s.world, s.lost, SaveUpTo(base, s.journal, k + 1), s.journal); }
  }

  lemma {:induction false} CreateKeeps(of: Contents, foreign: set<Holder>, s: System, ok: bool)
    requires Inv(of, foreign, s) && s.point.Create?
    ensures Inv(of, foreign, Proceed(s, ok))
  {
    var i, contents := s.point.i, s.journal.contents;
    if i < |contents| && contents[i].created && ok {
      InHolders(contents, i);
      HoldersSame(s.world, s.journal);
      WorldAdds(of, foreign, s.world, s.lost, contents[i].holder);
    }
  }

  lemma {:induction false} RegisterKeeps(of: Contents, foreign: set<Holder>, s: System, ok: bool)
    requires Inv(of, foreign, s) && s.point.Register?
    ensures Inv(of, foreign, Proceed(s, ok))
  {
    var e, w := s.journal.contents[s.point.i], s.world;
    if ok {
      var w' := w.(registered := w.registered + {e.id});
      InHolders(s.journal.contents, s.point.i);
      WorldRegisters(of, foreign, w, s.lost, e.id);
      WorldDrops(of, foreign, w', s.lost, e.holder);
      HoldersSame(Proceed(s, ok).world, s.journal);
    }
  }

  /** Both files on disk belong to the install in memory. */
  lemma NotedAll(of: Contents, foreign: set<Holder>, s: System)
    requires WorldOk(of, foreign, s.world, s.lost) && Noted(s)
    ensures AllSame(s.world.files, s.journal)
  {
  }

  /** Starting to save the journal with another phase. */
  lemma {:induction false} SavingStarts(of: Contents, foreign: set<Holder>, s: System, phase: Phase, next: Point,
          failed: Point)
    requires WorldOk(of, foreign, s.world, s.lost) && Noted(s) && Listed(of, foreign, s.world, s.journal)
    requires NextOk(s, next) && NextOk(s, failed) && (failed.RollBack? || failed == Installed(false))
    ensures Inv(of, foreign, SavingTo(s, s.journal.(phase := phase), next, failed))
  {
    NotedAll(of, foreign, s);
  }

  lemma {:induction false} DropKeeps(of: Contents, foreign: set<Holder>, s: System, ok: bool)
    requires Inv(of, foreign, s) && s.point.Drop?
    ensures Inv(of, foreign, Proceed(s, ok))
  {
    var i := s.point.i;
    var h := s.journal.contents[i].holder;
    var dropped := s.(world := s.world.(holders := s.world.holders - {h}));
    InHolders(s.journal.contents, i);
    WorldDrops(of, foreign, s.world, s.lost, h);
    SavingStarts(of, foreign, dropped, Registered, Create(i + 1), RollBack(0));
  }

  lemma {:induction false} CommitKeeps(of: Contents, foreign: set<Holder>, s: System, ok: bool)
    requires Inv(of, foreign, s) && s.point.Commit?
    ensures Inv(of, foreign, Proceed(s, ok))
  {
    if ok {
      forall x | x in of(s.journal.package)
        ensures x in s.world.registered
      {
        var i :| 0 <= i < |s.journal.contents| && s.journal.contents[i].id == x;
      }
      WorldCommits(of, foreign, s.world, s.lost, s.journal);
    }
  }

  lemma {:induction false} RollBackKeeps(of: Contents, foreign: set<Holder>, s: System, ok: bool)
    requires Inv(of, foreign, s) && s.point.RollBack?
    ensures Inv(of, foreign, Proceed(s, ok))
  {
    var i, contents := s.point.i, s.journal.contents;
    if i < |contents| && contents[i].created && ok {
      InHolders(contents, i);
      WorldDrops(of, foreign, s.world, s.lost, contents[i].holder);
    } else if i >= |contents| {
      SavingStarts(of, foreign, s, RolledBack, Installed(false), Installed(false));
    }
  }

  lemma {:induction false} ReachKeeps(of: Contents, foreign: set<Holder>, s: System, ok: bool)
    requires Inv(of, foreign, s) && s.point.Reach?
    ensures Inv(of, foreign, Proceed(s, ok))
  {
    var contents := s.journal.contents;
    if !ok { WorldGivesUp(of, foreign, s.world, s.lost, HoldersOf(contents)); }
    forall i | 0 <= i < |contents| && contents[i].created
      ensures contents[i].holder in HoldersOf(contents)
    {
    }
  }

  lemma {:induction false} DeleteOneKeeps(of: Contents, foreign: set<Holder>, s: System, ok: bool)
    requires Inv(of, foreign, s) && s.point.Delete? && s.point.i < |s.journal.contents|
    ensures Inv(of, foreign, Proceed(s, ok))
  {
    var contents := s.journal.contents;
    if contents[s.point.i].created {
      var h := contents[s.point.i].holder;
      InHolders(contents, s.point.i);
      if ok { WorldDrops(of, foreign, s.world, s.lost, h); } else { WorldGivesUp(of, foreign, s.world, s.lost, {h}); }
    }
  }

  lemma {:induction false} DeleteKeeps(of: Contents, foreign: set<Holder>, s: System, ok: bool)
    requires Inv(of, foreign, s) && s.point.Delete?
    ensures Inv(of, foreign, Proceed(s, ok))
  {
    if s.point.i < |s.journal.contents| { DeleteOneKeeps(of, foreign, s, ok); }
        else { HoldersSame(s.world, s.journal); }
  }

  lemma {:induction false} ClearingKeeps(of: Contents, foreign: set<Holder>, s: System, ok: bool)
    requires Inv(of, foreign, s) && s.point.Clearing?
    ensures Inv(of, foreign, Proceed(s, ok))
  {
    var base, k := s.point.base, s.point.k;
    if ok {
      Accounted(of, foreign, s);
      WorldCleared(of, foreign, s.world, s.lost, ClearUpTo(base, k + 1), s.journal);
    }
  }

  /** While the journal is being cleared, whatever is left is foreign or given up. */
  lemma {:induction false} Accounted(of: Contents, foreign: set<Holder>, s: System)
    requires Inv(of, foreign, s) && s.point.Clearing?
    ensures s.world.holders <= foreign + s.lost
  {
    forall h | h in s.world.holders && h in Named(s.world.files)
      ensures h in s.lost
    {
      var j := Read(s.world.files).value;
      assert Same(j, s.journal);
      var i :| 0 <= i < |j.contents| && j.contents[i].created && j.contents[i].holder == h;
    }
  }

  lemma {:induction false} RefreshKeeps(of: Contents, foreign: set<Holder>, s: System, ok: bool)
    requires Inv(of, foreign, s) && (s.point.Refresh? || s.point.Installed? || s.point.RefreshAgain?)
    ensures Inv(of, foreign, Proceed(s, ok))
  {
    if Noted(s) { NotedAll(of, foreign, s); }
    HoldersSame(s.world, s.journal);
    if s.point.Refresh? && ok { SavingStarts(of, foreign, s, Committed, Installed(true), Installed(false)); }
  }

  lemma {:induction false} OtherKeeps(of: Contents, foreign: set<Holder>, s: System, ok: bool)
    requires Inv(of, foreign, s) && (s.point.Fill? || s.point.Check? || s.point.Recovered?)
    ensures Inv(of, foreign, Proceed(s, ok))
  {
    HoldersSame(s.world, s.journal);
  }

  lemma {:induction false} BeginKeeps(of: Contents, foreign: set<Holder>, s: System, package: Package,
          contents: seq<Entry>)
    requires Inv(of, foreign, s) && Enabled(of, s, Begin(package, contents))
    ensures Inv(of, foreign, Apply(of, s, Begin(package, contents)))
  {
    var j := Journal(package, contents, Prepared);
    forall i | 0 <= i < |contents| && contents[i].created
      ensures contents[i].holder !in s.world.holders
    {
    }
    HoldersSame(s.world, j);
    assert HoldersOf(contents) !! foreign;
  }

  lemma {:induction false} StepKeeps(of: Contents, foreign: set<Holder>, s: System, step: Step)
    requires Inv(of, foreign, s) && Enabled(of, s, step)
    ensures Inv(of, foreign, Apply(of, s, step))
  {
    match step
    case Begin(package, contents) => BeginKeeps(of, foreign, s, package, contents);
    case StartRecovery =>
    case Crash =>
    case Go(ok) => GoKeeps(of, foreign, s, ok);
  }

  lemma {:induction false} GoKeeps(of: Contents, foreign: set<Holder>, s: System, ok: bool)
    requires Inv(of, foreign, s) && !s.point.Idle?
    ensures Inv(of, foreign, Proceed(s, ok))
  {
    match s.point
    case Saving(_, _, _, _) => SavingKeeps(of, foreign, s, ok);
    case Create(_) => CreateKeeps(of, foreign, s, ok);
    case Register(_) => RegisterKeeps(of, foreign, s, ok);
    case Drop(_) => DropKeeps(of, foreign, s, ok);
    case Commit => CommitKeeps(of, foreign, s, ok);
    case RollBack(_) => RollBackKeeps(of, foreign, s, ok);
    case Reach => ReachKeeps(of, foreign, s, ok);
    case Delete(_) => DeleteKeeps(of, foreign, s, ok);
    case Clearing(_, _, _) => ClearingKeeps(of, foreign, s, ok);
    case Fill(_) => OtherKeeps(of, foreign, s, ok);
    case Check => OtherKeeps(of, foreign, s, ok);
    case Recovered(_) => OtherKeeps(of, foreign, s, ok);
    case _ => RefreshKeeps(of, foreign, s, ok);
  }

  // ----- whole runs

  ghost predicate Run(of: Contents, s: System, run: seq<Step>, t: System)
    decreases |run|
  {
    if run == [] then s == t else Enabled(of, s, run[0]) && Run(of, Apply(of, s, run[0]), run[1..], t)
  }

  lemma {:induction false} RunKeeps(of: Contents, foreign: set<Holder>, s: System, run: seq<Step>, t: System)
    requires Inv(of, foreign, s) && Run(of, s, run, t)
    ensures Inv(of, foreign, t) && s.world.registered <= t.world.registered && s.world.metadata <= t.world.metadata
    decreases |run|
  {
    if run != [] {
      StepKeeps(of, foreign, s, run[0]);
      StepGrows(of, s, run[0]);
      RunKeeps(of, foreign, Apply(of, s, run[0]), run[1..], t);
    }
  }

  /** No step removes a registered content or a committed package. */
  lemma StepGrows(of: Contents, s: System, step: Step)
    requires Enabled(of, s, step)
    ensures s.world.registered <= Apply(of, s, step).world.registered
            && s.world.metadata <= Apply(of, s, step).world.metadata
  {
  }

  /** Nothing is running and no journal is pending; committed packages are complete. */
  ghost predicate Initial(of: Contents, s: System) {
    && s.point.Idle? && Read(s.world.files) == None && s.lost == {}
    && forall p :: p in s.world.metadata ==> of(p) <= s.world.registered
  }

  ghost predicate Reachable(of: Contents, foreign: set<Holder>, t: System) {
    exists s, run :: Initial(of, s) && foreign == s.world.holders && Run(of, s, run, t)
  }

  lemma {:induction false} ReachableInv(of: Contents, foreign: set<Holder>, t: System)
    requires Reachable(of, foreign, t)
    ensures Inv(of, foreign, t)
  {
    var s, run :| Initial(of, s) && foreign == s.world.holders && Run(of, s, run, t);
    RunKeeps(of, foreign, s, run, t);
  }

  /**
    Whatever crashed and however often: a committed package has all its contents registered, and every
    live placeholder was there before, is named in the journal on disk, or has been given up by a recovery.
   */
  lemma {:induction false} CommittedIsComplete(of: Contents, foreign: set<Holder>, t: System)
    requires Reachable(of, foreign, t)
    ensures forall p :: p in t.world.metadata ==> of(p) <= t.world.registered
    ensures foreign <= t.world.holders <= foreign + Named(t.world.files) + t.lost
  {
    ReachableInv(of, foreign, t);
  }

  /**
    When recovery reports, no journal is left, its verdict is whether the package is committed, and no
    placeholder of the package is left exactly if the package is committed or none of the placeholders it
    could not delete was live when it began.
   */
  lemma {:induction false} RecoveredIsRight(of: Contents, foreign: set<Holder>, t: System)
    requires Reachable(of, foreign, t) && t.point.Recovered?
    ensures Read(t.world.files) == None
    ensures t.point.committed <==> t.journal.package in t.world.metadata
    ensures Settled(t.world, t.journal) <==> t.point.committed || t.refused !! t.found
  {
    ReachableInv(of, foreign, t);
  }

  /** Recovery works on the interrupted install, even if only the backup of its journal is left. */
  lemma {:induction false} RecoversFromBackup(of: Contents, foreign: set<Holder>, t: System)
    requires Reachable(of, foreign, t) && t.point.Idle? && t.world.files.backup.Some?
    ensures Enabled(of, t, StartRecovery)
    ensures Same(Apply(of, t, StartRecovery).journal, t.world.files.backup.value)
  {
    ReachableInv(of, foreign, t);
  }

  // ----- what recovery cannot promise

  /** `n` more successful operations. */
  function Advance(s: System, n: nat): System
    decreases n
  {
    if n == 0 || s.point.Idle? then s else Advance(Proceed(s, true), n - 1)
  }

  /**
    When the storage cannot be opened, recovery still clears the journal: it reports a rollback, and
    every placeholder stays where it is, with no journal left that names it.
   */
  lemma {:induction false} UnreachableStorageLeaks(of: Contents, foreign: set<Holder>, t: System)
    requires Reachable(of, foreign, t) && t.point.Reach?
    ensures var u := Advance(Proceed(t, false), 3);
            && u.point == Recovered(false) && Read(u.world.files) == None && u.world.holders == t.world.holders
            && (Settled(u.world, u.journal) <==> Settled(t.world, t.journal))
  {
    var a := Proceed(t, false);
    var b := Proceed(a, true);
    var c := Proceed(b, true);
    var d := Proceed(c, true);
    assert Advance(d, 0) == d && Advance(c, 1) == d && Advance(b, 2) == d && Advance(a, 3) == d;
  }

  lemma {:induction false} RunSnoc(of: Contents, s: System, run: seq<Step>, t: System, step: Step)
    requires Run(of, s, run, t) && Enabled(of, t, step)
    ensures Run(of, s, run + [step], Apply(of, t, step))
    decreases |run|
  {
    if run == [] {
      assert [step][1..] == [] && run + [step] == [step];
    } else {
      RunSnoc(of, Apply(of, s, run[0]), run[1..], t, step);
      assert (run + [step])[1..] == run[1..] + [step];
    }
  }

  lemma {:induction false} ReachableStep(of: Contents, foreign: set<Holder>, t: System, step: Step)
    requires Reachable(of, foreign, t) && Enabled(of, t, step)
    ensures Reachable(of, foreign, Apply(of, t, step))
  {
    var s, run :| Initial(of, s) && foreign == s.world.holders && Run(of, s, run, t);
    RunSnoc(of, s, run, t, step);
  }

  lemma {:induction false} ReachableAdvance(of: Contents, foreign: set<Holder>, t: System, n: nat)
    requires Reachable(of, foreign, t)
    ensures Reachable(of, foreign, Advance(t, n))
    decreases n
  {
    if n > 0 && !t.point.Idle? {
      ReachableStep(of, foreign, t, Go(true));
      ReachableAdvance(of, foreign, Proceed(t, true), n - 1);
    }
  }

  const LEAK_CONTENTS: seq<Entry> := [Entry(0, 7, true)]

  ghost function LeakIds(p: Package): set<Id> {
    {0}
  }

  /** An install that has made its first placeholder. */
  lemma {:induction false} LeakStarts() returns (t: System)
    ensures Reachable(LeakIds, {}, t) && t.world.metadata == {} && t.world.holders == {7}
    ensures Read(t.world.files) == Some(Journal(1, LEAK_CONTENTS, Prepared))
  {
    var s := System(World({}, {}, {}, Files(None, None, None)), Idle, Journal(1, [], Prepared), {}, {}, {});
    assert Run(LeakIds, s, [], s);
    assert LEAK_CONTENTS[0].id == 0;
    ReachableStep(LeakIds, {}, s, Begin(1, LEAK_CONTENTS));
    var a := Apply(LeakIds, s, Begin(1, LEAK_CONTENTS));
    ReachableStep(LeakIds, {}, a, Go(true));
    var b := Proceed(a, true);
    ReachableStep(LeakIds, {}, b, Go(true));
    var c := Proceed(b, true);
    ReachableStep(LeakIds, {}, c, Go(true));
    var d := Proceed(c, true);
    assert d.point == Create(0);
    ReachableStep(LeakIds, {}, d, Go(true));
    t := Proceed(d, true);
  }

  /** It happens: one content, a crash after its placeholder was made, and a storage that does not open. */
  lemma {:induction false} LeakHappens() returns (t: System)
    ensures Reachable(LeakIds, {}, t) && t.point == Recovered(false) && Read(t.world.files) == None
    ensures !Settled(t.world, t.journal)
  {
    var d := LeakStarts();
    ReachableStep(LeakIds, {}, d, Crash);
    var e := Apply(LeakIds, d, Crash);
    ReachableStep(LeakIds, {}, e, StartRecovery);
    var f := Apply(LeakIds, e, StartRecovery);
    ReachableStep(LeakIds, {}, f, Go(true));
    var g := Proceed(f, true);
    UnreachableStorageLeaks(LeakIds, {}, g);
    ReachableStep(LeakIds, {}, g, Go(false));
    t := Advance(Proceed(g, false), 3);
    ReachableAdvance(LeakIds, {}, Proceed(g, false), 3);
    InHolders(LEAK_CONTENTS, 0);
  }
}

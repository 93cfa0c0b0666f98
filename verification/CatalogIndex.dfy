/**
  The scan that brings the catalog in line with what the walk found. An entry keeps its id for as long as
  the program can recognise its file, also across a move.
 */
module CatalogIndex {
  import opened Common
  import opened LibraryWalk

  type Id = nat
  type Stamp = nat
  type Digest = nat

  datatype Kind = FolderEntry | FileEntry

  datatype Entry = Entry(
    kind: Kind, path: Path, parent: Option<Id>, name: string, size: nat, ticks: int, sha: Option<Digest>,
    active: bool, suppressed: bool, lastSeen: Stamp)

  type Catalog = map<Id, Entry>

  /** The running scan: the tracked entries, the dictionaries beside them, and the next unused id. */
  datatype Index = Index(catalog: Catalog, byPath: map<Path, Id>, seen: set<Path>, parents: map<Path, Id>, next: Id)

  /** What the scan asks the disk: whether a file is there, and the digest of its content. */
  datatype Disk = Disk(present: Path -> bool, hash: nat -> Digest)

  // ----- the catalog by path

  predicate UniquePaths(c: Catalog) {
    forall a, b :: a in c && b in c && c[a].path == c[b].path ==> a == b
  }

  function PathMap(c: Catalog): (m: map<Path, Id>)
    requires UniquePaths(c)
    ensures forall p :: p in m ==> m[p] in c && c[m[p]].path == p
    ensures forall id :: id in c ==> c[id].path in m && m[c[id].path] == id
  {
    map id | id in c :: c[id].path := id
  }

  predicate Consistent(s: Index) {
    && (forall p :: p in s.byPath ==> s.byPath[p] in s.catalog && s.catalog[s.byPath[p]].path == p)
    && (forall id :: id in s.catalog ==>
        id < s.next && s.catalog[id].path in s.byPath && s.byPath[s.catalog[id].path] == id)
  }

  /** Putting an entry where it belongs, whether it stays, moves or is new. */
  function Place(s: Index, id: Id, e: Entry): Index {
    s.(catalog := s.catalog[id := e],
       byPath := (if id in s.catalog then s.byPath - {s.catalog[id].path} else s.byPath)[e.path := id],
       seen := s.seen + {e.path},
       next := if id in s.catalog then s.next else s.next + 1)
  }

  /** The path is free or the entry's own, and a new entry takes the next id. */
  predicate CanPlace(s: Index, id: Id, path: Path) {
    (path in s.byPath ==> s.byPath[path] == id) && (id in s.catalog || id == s.next)
  }

  lemma {:induction false} PlaceConsistent(s: Index, id: Id, e: Entry)
    requires Consistent(s) && CanPlace(s, id, e.path)
    ensures Consistent(Place(s, id, e))
  {
  }

  function ParentId(ids: map<Path, Id>, path: Path): Option<Id> {
    if Parent(path) != "" && Parent(path) in ids then Some(ids[Parent(path)]) else None
  }

  function EntryAt(s: Index, path: Path): Option<Entry> {
    if path in s.byPath && s.byPath[path] in s.catalog then Some(s.catalog[s.byPath[path]]) else None
  }

  function OrNew(e: Option<Entry>, kind: Kind, path: Path): Entry {
    if e.Some? then e.value else Entry(kind, path, None, Base(path), 0, 0, None, true, false, 0)
  }

  // ----- one folder

  /** None: the parent's id is unknown, and the scan stops. */
  function WithFolder(s: Index, path: Path, stamp: Stamp): Option<Index> {
    if Parent(path) != "" && Parent(path) !in s.parents then None
    else
      var id := if path in s.byPath then s.byPath[path] else s.next;
      var e := OrNew(EntryAt(s, path), FolderEntry, path);
      var found := e.(kind := FolderEntry, path := path, parent := ParentId(s.parents, path), active := true,
          lastSeen := stamp);
      Some(Place(s, id, found).(parents := s.parents[path := id]))
  }

  // ----- one file

  /** The digest is computed for what is new or looks changed. */
  predicate Changed(e: Option<Entry>, f: FoundFile) {
    e.None? || e.value.size != f.info.size || e.value.ticks != f.info.ticks || e.value.sha.None?
  }

  predicate Matches(e: Entry, f: FoundFile, disk: Disk) {
    e.kind.FileEntry? && e.size == f.info.size && e.sha == Some(disk.hash(f.info.content))
  }

  /** Saved files of the same content whose path is neither seen in this scan nor on disk. */
  function Candidates(saved: Catalog, s: Index, f: FoundFile, disk: Disk): set<Id> {
    set id | id in saved && id in s.catalog && Matches(saved[id], f, disk) && saved[id].path != f.path
             && s.catalog[id].path !in s.seen && !disk.present(s.catalog[id].path)
  }

  lemma OnlyOne(c: set<Id>)
    requires |c| == 1
    ensures exists id :: c == {id}
  {
    var id :| id in c;
    assert |c - {id}| == 0;
    assert c == {id};
  }

  function TheOne(c: set<Id>): (id: Id)
    requires |c| == 1
    ensures c == {id}
  {
    OnlyOne(c);
    var id :| c == {id};
    id
  }

  /** The entry the file belongs to: the one at its path, the one it was moved from, or a new one. */
  function Owner(saved: Catalog, s: Index, f: FoundFile, disk: Disk): Id {
    if f.path in s.byPath then s.byPath[f.path]
    else if |Candidates(saved, s, f, disk)| == 1 then TheOne(Candidates(saved, s, f, disk))
    else s.next
  }

  function FileFields(e: Entry, s: Index, f: FoundFile, stamp: Stamp, disk: Disk): Entry {
    e.(kind := FileEntry, path := f.path, parent := ParentId(s.parents, f.path), name := Base(f.path),
       size := f.info.size, ticks := f.info.ticks,
       sha := if Changed(EntryAt(s, f.path), f) then Some(disk.hash(f.info.content))
           else e.sha, active := true, lastSeen := stamp)
  }

  function WithFile(saved: Catalog, s: Index, f: FoundFile, stamp: Stamp, disk: Disk): Index {
    var id := Owner(saved, s, f, disk);
    var e := OrNew(if id in s.catalog then Some(s.catalog[id]) else None, FileEntry, f.path);
    Place(s, id, FileFields(e, s, f, stamp, disk))
  }

  lemma {:induction false} OwnerFits(saved: Catalog, s: Index, f: FoundFile, disk: Disk)
    requires Consistent(s)
    ensures CanPlace(s, Owner(saved, s, f, disk), f.path)
    ensures Owner(saved, s, f, disk) in s.catalog && f.path !in s.byPath ==>
            Owner(saved, s, f, disk) in Candidates(saved, s, f, disk)
  {
  }

  // ----- the whole scan

  /** A loop over the first `n` elements. */
  function Fold<S, X>(step: (S, X) -> S, s: S, xs: seq<X>, n: nat): S
    requires n <= |xs|
  {
    if n == 0 then s else step(Fold(step, s, xs, n - 1), xs[n - 1])
  }

  /** What holds at the start and is kept by each turn holds at the end. */
  lemma {:induction false} FoldKeeps<S(!new), X>(step: (S, X) -> S, s: S, xs: seq<X>, n: nat, inv: (S, nat) -> bool)
    requires n <= |xs| && inv(s, 0)
    requires forall t, k: nat {:trigger inv(step(t, xs[k]), k + 1)} {:trigger inv(t, k), step(t, xs[k])} ::
               k < |xs| && inv(t, k) ==> inv(step(t, xs[k]), k + 1)
    ensures inv(Fold(step, s, xs, n), n)
    decreases n
  {
    if n > 0 {
      FoldKeeps(step, s, xs, n - 1, inv);
      var t, k := Fold(step, s, xs, n - 1), n - 1;
      assert inv(t, k);
      assert inv(step(t, xs[k]), k + 1);
    }
  }

  function FolderTurn(stamp: Stamp): (Option<Index>, Path) -> Option<Index> {
    (s: Option<Index>, path: Path) => if s.None? then None else WithFolder(s.value, path, stamp)
  }

  function FileTurn(saved: Catalog, stamp: Stamp, disk: Disk): (Index, FoundFile) -> Index {
    (s: Index, f: FoundFile) => WithFile(saved, s, f, stamp, disk)
  }

  function FoldersUpTo(s: Index, folders: seq<Path>, n: nat, stamp: Stamp): Option<Index>
    requires n <= |folders|
  {
    Fold(FolderTurn(stamp), Some(s), folders, n)
  }

  function FilesUpTo(s: Index, files: seq<FoundFile>, n: nat, stamp: Stamp, disk: Disk): Index
    requires n <= |files|
  {
    Fold(FileTurn(s.catalog, stamp, disk), s, files, n)
  }

  /** Every entry the scan did not meet becomes inactive. */
  function Retired(c: Catalog, stamp: Stamp): (r: Catalog)
    ensures r.Keys == c.Keys
  {
    map id | id in c :: if c[id].lastSeen != stamp && c[id].active then c[id].(active := false) else c[id]
  }

  const ROOT: Id := 0

  function Opening(c: Catalog, next: Id): Index
    requires UniquePaths(c)
  {
    Index(c, PathMap(c), {}, map["" := ROOT], next)
  }

  predicate Supplied(c: Catalog, next: Id) {
    UniquePaths(c) && forall id :: id in c ==> id < next
  }

  /** None: a folder's parent was unknown. */
  function Scan(c: Catalog, next: Id, folders: seq<Path>, files: seq<FoundFile>, stamp: Stamp,
          disk: Disk): Option<Catalog>
    requires Supplied(c, next)
  {
    var walked := FoldersUpTo(Opening(c, next), folders, |folders|, stamp);
    if walked.None? then None
    else Some(Retired(FilesUpTo(walked.value, files, |files|, stamp, disk).catalog, stamp))
  }
}

/** A file that was moved keeps its id: the entry whose file is gone is found again by its content. */
module CatalogMoves {
  import opened CatalogIndex
  import opened CatalogScan
  import opened Common
  import opened LibraryWalk

  predicate NewPath(was: Catalog, path: Path) {
    forall id :: id in was ==> was[id].path != path
  }

  /** The entry's file is gone. */
  predicate Missing(e: Entry, keep: set<Path>, disk: Disk) {
    e.path !in keep && !disk.present(e.path)
  }

  // ----- folders take nobody's path

  ghost predicate PathsKept(was: Catalog, s: Index) {
    forall id :: id in was && id in s.catalog ==> s.catalog[id].path == was[id].path
  }

  ghost predicate FoldersKeepInv(was: Catalog, s: Option<Index>) {
    s.Some? ==> Consistent(s.value) && was.Keys <= s.value.catalog.Keys && PathsKept(was, s.value)
  }

  lemma {:induction false} FolderKeepsPaths(was: Catalog, s: Index, path: Path, stamp: Stamp)
    requires FoldersKeepInv(was, Some(s))
    ensures FoldersKeepInv(was, WithFolder(s, path, stamp))
  {
    var id := if path in s.byPath then s.byPath[path] else s.next;
    var e := OrNew(EntryAt(s, path), FolderEntry, path);
    PlaceConsistent(s, id, e.(kind := FolderEntry, path := path, parent := ParentId(s.parents, path), active := true,
        lastSeen := stamp));
  }

  lemma {:induction false} FoldersKeepPaths(was: Catalog, s: Index, folders: seq<Path>, stamp: Stamp)
    requires FoldersKeepInv(was, Some(s))
    ensures FoldersKeepInv(was, FoldersUpTo(s, folders, |folders|, stamp))
  {
    var inv := (t: Option<Index>, k: nat) => FoldersKeepInv(was, t);
    forall t, k: nat | k < |folders| && inv(t, k)
      ensures inv(FolderTurn(stamp)(t, folders[k]), k + 1)
    {
      if t.Some? { FolderKeepsPaths(was, t.value, folders[k], stamp); }
    }
    FoldKeeps(FolderTurn(stamp), Some(s), folders, |folders|, inv);
  }

  // ----- who can be taken

  predicate Takes(was: Catalog, f: FoundFile, id: Id, disk: Disk)
    requires id in was
  {
    Matches(was[id], f, disk) && NewPath(was, f.path)
  }

  /** An entry that has moved was taken by one of the new files with its content. */
  ghost predicate MovedBy(was: Catalog, s: Index, files: seq<FoundFile>, disk: Disk, n: nat, id: Id)
    requires id in was && id in s.catalog && n <= |files|
  {
    s.catalog[id].path != was[id].path ==> exists k ::
        0 <= k < n && s.catalog[id].path == files[k].path && Takes(was, files[k], id, disk)
  }

  ghost predicate Moves(was: Catalog, s: Index, files: seq<FoundFile>, disk: Disk, n: nat) {
    n <= |files| && forall id :: id in was && id in s.catalog ==> MovedBy(was, s, files, disk, n, id)
  }

  /** A new file's candidates are the missing entries of its content that nobody has taken yet. */
  lemma {:induction false} CandidatesAre(
      was: Catalog, s0: Index, s: Index, folders: seq<Path>, files: seq<FoundFile>, n: nat, stamp: Stamp, disk: Disk,
          id: Id)
    requires Consistent(s0) && Tracks(was, s0, stamp, PathSet(folders, files)) && FoldersDone(s0, folders, |folders|)
    requires Walked(folders, files, disk) && FilesInv(was, s0, s, files, stamp, PathSet(folders, files), n)
            && n < |files|
    requires NewPath(was, files[n].path)
    ensures id in Candidates(s0.catalog, s, files[n], disk) <==>
            && id in was && Matches(was[id], files[n], disk) && Missing(was[id], PathSet(folders, files), disk)
            && s.catalog[id].path == was[id].path
  {
    var keep := PathSet(folders, files);
    NotSeenYet(s0, s, folders, files, n, disk);
    SeenIsKept(s0, s, folders, files, n);
    if id in s0.catalog && id in s.catalog && s.catalog[id].path !in s.seen {
      CandidateIsOld(was, s0, s, stamp, keep, files[n], disk, id);
    }
  }

  lemma {:induction false} SeenIsKept(s0: Index, s: Index, folders: seq<Path>, files: seq<FoundFile>, n: nat)
    requires n <= |files| && FoldersDone(s0, folders, |folders|) && FilesDone(s0, s, files, n)
    ensures s.seen <= PathSet(folders, files)
  {
    assert folders[..|folders|] == folders;
    assert forall p :: p in PathsOf(files)[..n] ==> p in PathsOf(files);
  }

  lemma {:induction false} NotFiledYet(was: Catalog, s: Index, stamp: Stamp, keep: set<Path>, path: Path)
    requires Consistent(s) && Tracks(was, s, stamp, keep) && path !in s.seen && NewPath(was, path)
    ensures path !in s.byPath
  {
    assert path in s.byPath ==> EntryTracks(was, s, stamp, keep, s.byPath[path]);
  }

  /** Whoever is taken is taken by a new file of its content. */
  lemma {:induction false} MovesOneMore(
      was: Catalog, s0: Index, s: Index, folders: seq<Path>, files: seq<FoundFile>, n: nat, stamp: Stamp, disk: Disk)
    requires Consistent(s0) && Tracks(was, s0, stamp, PathSet(folders, files)) && FoldersDone(s0, folders, |folders|)
    requires Walked(folders, files, disk) && FilesInv(was, s0, s, files, stamp, PathSet(folders, files), n)
            && n < |files|
    requires Moves(was, s, files, disk, n)
    ensures Moves(was, WithFile(s0.catalog, s, files[n], stamp, disk), files, disk, n + 1)
  {
    var keep, f := PathSet(folders, files), files[n];
    var t, own := WithFile(s0.catalog, s, f, stamp, disk), Owner(s0.catalog, s, f, disk);
    NotSeenYet(s0, s, folders, files, n, disk);
    OwnerFits(s0.catalog, s, f, disk);
    assert f.path in PathsOf(files) by { assert PathsOf(files)[n] == f.path; }
    forall id | id in was && id in t.catalog
      ensures MovedBy(was, t, files, disk, n + 1, id)
    {
      assert MovedBy(was, s, files, disk, n, id);
      if id == own && f.path !in s.byPath {
        TakenIsNew(was, s, stamp, keep, f.path);
        CandidatesAre(was, s0, s, folders, files, n, stamp, disk, id);
        assert Takes(was, files[n], id, disk);
      }
    }
  }

  /** A walked path that no entry has now, none had before. */
  lemma {:induction false} TakenIsNew(was: Catalog, s: Index, stamp: Stamp, keep: set<Path>, path: Path)
    requires Consistent(s) && Tracks(was, s, stamp, keep) && path in keep && path !in s.byPath
    ensures NewPath(was, path)
  {
    forall id | id in was
      ensures was[id].path != path
    {
      assert EntryTracks(was, s, stamp, keep, id);
    }
  }

  // ----- the moved file

  /** `id` is the one missing entry with the content of file `i`, the first new file in walk order that has it. */
  ghost predicate OnlyMatch(was: Catalog, files: seq<FoundFile>, keep: set<Path>, disk: Disk, i: nat, id: Id) {
    && i < |files| && id in was && NewPath(was, files[i].path)
    && (forall other :: other in was && Matches(was[other], files[i], disk) && Missing(was[other], keep, disk) <==>
        other == id)
    && (forall j :: 0 <= j < i ==> !Takes(was, files[j], id, disk))
  }

  ghost predicate MoveInv(
      was: Catalog, s0: Index, s: Index, files: seq<FoundFile>, stamp: Stamp, keep: set<Path>, disk: Disk, i: nat,
          id: Id, n: nat) {
    && FilesInv(was, s0, s, files, stamp, keep, n) && Moves(was, s, files, disk, n)
    && (i < n ==> i < |files| && id in s.catalog && s.catalog[id].path == files[i].path && files[i].path in s.seen)
  }

  lemma {:induction false} OwnerIsMoved(
      was: Catalog, s0: Index, s: Index, folders: seq<Path>, files: seq<FoundFile>, stamp: Stamp, disk: Disk, i: nat,
          id: Id)
    requires Consistent(s0) && Tracks(was, s0, stamp, PathSet(folders, files)) && FoldersDone(s0, folders, |folders|)
    requires Walked(folders, files, disk) && OnlyMatch(was, files, PathSet(folders, files), disk, i, id)
    requires FilesInv(was, s0, s, files, stamp, PathSet(folders, files), i) && Moves(was, s, files, disk, i)
    ensures Owner(s0.catalog, s, files[i], disk) == id && id in s.catalog
  {
    var keep, f := PathSet(folders, files), files[i];
    NotSeenYet(s0, s, folders, files, i, disk);
    NotFiledYet(was, s, stamp, keep, f.path);
    assert MovedBy(was, s, files, disk, i, id);
    forall other
      ensures other in Candidates(s0.catalog, s, f, disk) <==> other == id
    {
      CandidatesAre(was, s0, s, folders, files, i, stamp, disk, other);
    }
    assert Candidates(s0.catalog, s, f, disk) == {id};
  }

  lemma {:induction false} MoveOneMore(
      was: Catalog, s0: Index, s: Index, folders: seq<Path>, files: seq<FoundFile>, n: nat, stamp: Stamp, disk: Disk,
          i: nat, id: Id)
    requires Consistent(s0) && Tracks(was, s0, stamp, PathSet(folders, files)) && FoldersDone(s0, folders, |folders|)
    requires Walked(folders, files, disk) && OnlyMatch(was, files, PathSet(folders, files), disk, i, id)
    requires MoveInv(was, s0, s, files, stamp, PathSet(folders, files), disk, i, id, n) && n < |files|
    ensures MoveInv(was, s0, FileTurn(s0.catalog, stamp, disk)(s, files[n]), files, stamp, PathSet(folders, files),
            disk, i, id, n + 1)
  {
    var keep := PathSet(folders, files);
    FilesOneMore(was, s0, s, folders, files, n, stamp, keep, disk);
    MovesOneMore(was, s0, s, folders, files, n, stamp, disk);
    NotSeenYet(s0, s, folders, files, n, disk);
    if n == i {
      OwnerIsMoved(was, s0, s, folders, files, stamp, disk, i, id);
    } else if i < n {
      FileFiled(was, s0, s, files[n], stamp, keep, disk);
      assert s.byPath[files[i].path] == id;
    }
  }

  lemma {:induction false} MoveRun(
      was: Catalog, s0: Index, folders: seq<Path>, files: seq<FoundFile>, stamp: Stamp, disk: Disk, i: nat, id: Id)
    requires Consistent(s0) && Tracks(was, s0, stamp, PathSet(folders, files)) && FoldersDone(s0, folders, |folders|)
            && PathsKept(was, s0)
    requires Walked(folders, files, disk) && OnlyMatch(was, files, PathSet(folders, files), disk, i, id)
    ensures MoveInv(was, s0, FilesUpTo(s0, files, |files|, stamp, disk), files, stamp, PathSet(folders, files), disk, i,
            id, |files|)
  {
    var keep := PathSet(folders, files);
    var inv := (t: Index, k: nat) => MoveInv(was, s0, t, files, stamp, keep, disk, i, id, k);
    FilesStart(was, s0, folders, files, stamp, keep);
    assert Moves(was, s0, files, disk, 0);
    forall t, k: nat | k < |files| && inv(t, k)
      ensures inv(FileTurn(s0.catalog, stamp, disk)(t, files[k]), k + 1)
    {
      MoveOneMore(was, s0, t, folders, files, k, stamp, disk, i, id);
    }
    FoldKeeps(FileTurn(s0.catalog, stamp, disk), s0, files, |files|, inv);
    assert inv(FilesUpTo(s0, files, |files|, stamp, disk), |files|);
  }

  /**
    The first new file in walk order whose size and digest match exactly one missing entry takes that entry
    over: the id and the suppression stay with the file.
   */
  lemma {:induction false} MovedKeepsId(
      c: Catalog, next: Id, folders: seq<Path>, files: seq<FoundFile>, stamp: Stamp, disk: Disk, i: nat, id: Id)
    requires Supplied(c, next) && Walked(folders, files, disk)
            && OnlyMatch(c, files, PathSet(folders, files), disk, i, id)
    ensures var r := Scan(c, next, folders, files, stamp, disk);
            r.Some? && id in r.value && r.value[id].path == files[i].path && r.value[id].active
                && r.value[id].suppressed == c[id].suppressed
  {
    var keep := PathSet(folders, files);
    OpeningTracks(c, next, folders, stamp, keep);
    FoldersRun(c, Opening(c, next), folders, |folders|, stamp, keep);
    FoldersKeepPaths(c, Opening(c, next), folders, stamp);
    var s0 := FoldersUpTo(Opening(c, next), folders, |folders|, stamp).value;
    MoveRun(c, s0, folders, files, stamp, disk, i, id);
    var s := FilesUpTo(s0, files, |files|, stamp, disk);
    assert EntryTracks(c, s, stamp, keep, id);
  }
}

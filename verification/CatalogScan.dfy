/** What a scan of a stable tree leaves in the catalog. */
module CatalogScan {
  import opened CatalogIndex
  import opened Common
  import opened LibraryWalk

  // ----- what every step keeps

  /**
    Against the catalog the scan started from: what was not seen yet is as it was; what was seen carries this
    scan's stamp; nobody's suppression changes; and only a path that is not to be kept loses its entry.
   */
  ghost predicate EntryTracks(was: Catalog, s: Index, stamp: Stamp, keep: set<Path>, id: Id)
    requires id in s.catalog
  {
    var e := s.catalog[id];
    && (e.path in s.seen ==> e.active && e.lastSeen == stamp)
    && (e.path !in s.seen ==> id in was && e == was[id])
    && (e.suppressed <==> id in was && was[id].suppressed)
    && (id in was && e.path != was[id].path ==> was[id].path !in keep)
  }

  ghost predicate Tracks(was: Catalog, s: Index, stamp: Stamp, keep: set<Path>) {
    && was.Keys <= s.catalog.Keys && s.seen <= s.byPath.Keys
    && forall id :: id in s.catalog ==> EntryTracks(was, s, stamp, keep, id)
  }

  /** Entries already seen stay as they are. */
  predicate SeenStay(s: Index, t: Index, but: Path) {
    forall p :: p in s.seen && p != but && p in s.byPath && s.byPath[p] in s.catalog ==>
      p in t.byPath && t.byPath[p] == s.byPath[p] && s.byPath[p] in t.catalog
          && t.catalog[s.byPath[p]] == s.catalog[s.byPath[p]]
  }

  lemma {:induction false} PlaceTracks(was: Catalog, s: Index, stamp: Stamp, keep: set<Path>, id: Id, e: Entry)
    requires Consistent(s) && CanPlace(s, id, e.path) && Tracks(was, s, stamp, keep)
    requires e.active && e.lastSeen == stamp && (e.suppressed <==> id in s.catalog && s.catalog[id].suppressed)
    requires id in s.catalog && s.catalog[id].path != e.path ==>
            s.catalog[id].path !in keep && s.catalog[id].path !in s.seen
    ensures Tracks(was, Place(s, id, e), stamp, keep) && SeenStay(s, Place(s, id, e), e.path)
  {
    var t := Place(s, id, e);
    assert id in was ==> id in s.catalog;
    forall i | i in t.catalog
      ensures EntryTracks(was, t, stamp, keep, i)
    {
      if i != id {
        assert t.catalog[i] == s.catalog[i] && EntryTracks(was, s, stamp, keep, i);
        assert s.byPath[s.catalog[i].path] == i;
      } else if i in s.catalog {
        assert EntryTracks(was, s, stamp, keep, i);
      }
    }
  }

  // ----- the folders

  /** A folder was met: its entry is filed under its path and knows its parent. */
  predicate FolderRight(s: Index, p: Path) {
    && p in s.byPath && s.byPath[p] in s.catalog && p in s.parents && s.parents[p] == s.byPath[p]
    && s.catalog[s.byPath[p]].kind.FolderEntry? && s.catalog[s.byPath[p]].parent == ParentId(s.parents, p)
  }

  ghost predicate FoldersDone(s: Index, folders: seq<Path>, n: nat)
    requires n <= |folders|
  {
    && (forall p :: p in s.seen <==> p in folders[..n])
    && (forall p :: p in s.parents <==> p == "" || p in folders[..n])
    && (forall p {:trigger FolderRight(s, p)} :: p in folders[..n] ==> FolderRight(s, p))
  }

  predicate ParentBefore(folders: seq<Path>, k: nat)
    requires k < |folders|
  {
    Parent(folders[k]) == "" || Parent(folders[k]) in folders[..k]
  }

  /** Different, and every parent before its children. */
  predicate ParentsFirst(folders: seq<Path>) {
    && Distinct(folders) && "" !in folders
    && forall k :: 0 <= k < |folders| ==> ParentBefore(folders, k)
  }

  /** One folder. */
  lemma {:induction false} FolderFiled(was: Catalog, s: Index, path: Path, stamp: Stamp, keep: set<Path>)
    requires Consistent(s) && Tracks(was, s, stamp, keep) && path != ""
            && (Parent(path) == "" || Parent(path) in s.parents)
    ensures var r := WithFolder(s, path, stamp);
            && r.Some? && Consistent(r.value) && Tracks(was, r.value, stamp, keep) && SeenStay(s, r.value, path)
            && r.value.seen == s.seen + {path} && path in r.value.byPath
            && r.value.parents == s.parents[path := r.value.byPath[path]] && FolderRight(r.value, path)
  {
    var id := if path in s.byPath then s.byPath[path] else s.next;
    var e := OrNew(EntryAt(s, path), FolderEntry, path);
    var found := e.(kind := FolderEntry, path := path, parent := ParentId(s.parents, path), active := true, lastSeen :=
        stamp);
    PlaceConsistent(s, id, found);
    PlaceTracks(was, s, stamp, keep, id, found);
    var t := WithFolder(s, path, stamp).value;
    assert t == Place(s, id, found).(parents := s.parents[path := id]);
    PlacedTracks(was, Place(s, id, found), t, stamp, keep);
    NotItsParent(path);
    assert t.catalog[id] == found;
  }

  lemma {:induction false} FolderStep(s: Index, t: Index, folders: seq<Path>, n: nat)
    requires n < |folders| && ParentsFirst(folders) && FoldersDone(s, folders, n) && SeenStay(s, t, folders[n])
    requires t.seen == s.seen + {folders[n]} && folders[n] in t.byPath
            && t.parents == s.parents[folders[n] := t.byPath[folders[n]]]
    requires FolderRight(t, folders[n])
    ensures FoldersDone(t, folders, n + 1)
  {
    var path := folders[n];
    assert folders[..n + 1] == folders[..n] + [path];
    assert path !in folders[..n];
    forall p | p in folders[..n + 1]
      ensures FolderRight(t, p)
    {
      if p != path {
        var k :| 0 <= k < n && folders[k] == p;
        assert ParentBefore(folders, k);
        assert folders[..k] == folders[..n][..k];
        FolderStays(s, t, p, path, t.byPath[path]);
      }
    }
  }

  lemma {:induction false} NotItsParent(path: Path)
    requires path != ""
    ensures Parent(path) != path
  {
  }

  /** The dictionary of parents plays no part in it. */
  lemma PlacedTracks(was: Catalog, s: Index, t: Index, stamp: Stamp, keep: set<Path>)
    requires Tracks(was, s, stamp, keep) && t == s.(parents := t.parents)
    ensures Tracks(was, t, stamp, keep)
  {
    forall id | id in t.catalog
      ensures EntryTracks(was, t, stamp, keep, id)
    {
      assert EntryTracks(was, s, stamp, keep, id);
    }
  }

  /** A folder's entry stays right while other paths are filed. */
  lemma {:induction false} FolderStays(s: Index, t: Index, p: Path, path: Path, id: Id)
    requires FolderRight(s, p) && p in s.seen && p != path && SeenStay(s, t, path)
    requires path !in s.parents && (t.parents == s.parents || t.parents == s.parents[path := id])
    requires Parent(p) == "" || Parent(p) in s.parents
    ensures FolderRight(t, p)
  {
  }

  lemma {:induction false} OpeningTracks(c: Catalog, next: Id, folders: seq<Path>, stamp: Stamp, keep: set<Path>)
    requires Supplied(c, next)
    ensures var s := Opening(c, next);
            Consistent(s) && Tracks(c, s, stamp, keep) && FoldersDone(s, folders, 0)
  {
  }

  /** What the loop over the folders keeps. */
  ghost predicate FoldersInv(was: Catalog, s: Option<Index>, folders: seq<Path>, stamp: Stamp, keep: set<Path>,
          n: nat) {
    s.Some? && n <= |folders| && Consistent(s.value) && Tracks(was, s.value, stamp, keep)
        && FoldersDone(s.value, folders, n)
  }

  lemma {:induction false} FoldersOneMore(was: Catalog, s: Option<Index>, folders: seq<Path>, n: nat, stamp: Stamp,
          keep: set<Path>)
    requires FoldersInv(was, s, folders, stamp, keep, n) && n < |folders| && ParentsFirst(folders)
    ensures FoldersInv(was, FolderTurn(stamp)(s, folders[n]), folders, stamp, keep, n + 1)
  {
    assert ParentBefore(folders, n);
    FolderFiled(was, s.value, folders[n], stamp, keep);
    FolderStep(s.value, WithFolder(s.value, folders[n], stamp).value, folders, n);
  }

  lemma {:induction false} FoldersRun(was: Catalog, s: Index, folders: seq<Path>, n: nat, stamp: Stamp, keep: set<Path>)
    requires FoldersInv(was, Some(s), folders, stamp, keep, 0) && n <= |folders| && ParentsFirst(folders)
    ensures FoldersInv(was, FoldersUpTo(s, folders, n, stamp), folders, stamp, keep, n)
  {
    var inv := (t: Option<Index>, k: nat) => FoldersInv(was, t, folders, stamp, keep, k);
    forall t, k: nat | k < |folders| && inv(t, k)
      ensures inv(FolderTurn(stamp)(t, folders[k]), k + 1)
    {
      FoldersOneMore(was, t, folders, k, stamp, keep);
    }
    FoldKeeps(FolderTurn(stamp), Some(s), folders, n, inv);
  }

  // ----- the files

  predicate FileRight(s: Index, f: FoundFile) {
    && f.path in s.byPath && s.byPath[f.path] in s.catalog
    && (var e := s.catalog[s.byPath[f.path]];
        && e.kind.FileEntry? && e.name == Base(f.path) && e.size == f.info.size && e.ticks == f.info.ticks
            && e.sha.Some?
        && e.parent == ParentId(s.parents, f.path))
  }

  /** `s` has come from `s0` by filing the first files. */
  ghost predicate FilesDone(s0: Index, s: Index, files: seq<FoundFile>, n: nat)
    requires n <= |files|
  {
    && s.parents == s0.parents && SeenStay(s0, s, "")
    && (forall p :: p in s.seen <==> p in s0.seen || p in PathsOf(files)[..n])
    && (forall k :: 0 <= k < n ==> FileRight(s, files[k]))
  }

  predicate FileWalked(folders: seq<Path>, f: FoundFile, disk: Disk) {
    f.path != "" && f.path !in folders && disk.present(f.path) && (Parent(f.path) == "" || Parent(f.path) in folders)
  }

  /** What the walk promises: different paths, each file on disk, each parent a walked folder or the library itself. */
  ghost predicate Walked(folders: seq<Path>, files: seq<FoundFile>, disk: Disk) {
    && ParentsFirst(folders) && Distinct(PathsOf(files))
    && (forall k :: 0 <= k < |files| ==> FileWalked(folders, files[k], disk))
  }

  function PathSet(folders: seq<Path>, files: seq<FoundFile>): set<Path> {
    (set p | p in folders) + (set p | p in PathsOf(files))
  }

  /** A candidate is untouched since before the scan. */
  lemma {:induction false} CandidateIsOld(was: Catalog, s0: Index, s: Index, stamp: Stamp, keep: set<Path>,
          f: FoundFile, disk: Disk, id: Id)
    requires Consistent(s0) && Consistent(s) && Tracks(was, s0, stamp, keep) && Tracks(was, s, stamp, keep)
    requires SeenStay(s0, s, "") && "" !in s0.seen && s0.seen <= s.seen
    requires id in s0.catalog && id in s.catalog && s.catalog[id].path !in s.seen
    ensures id in was && s.catalog[id] == was[id] && s0.catalog[id] == was[id]
  {
    assert EntryTracks(was, s, stamp, keep, id) && EntryTracks(was, s0, stamp, keep, id);
    var p := s0.catalog[id].path;
    if p in s0.seen {
      assert s0.byPath[p] == id;
      assert s.catalog[id] == s0.catalog[id];
    }
  }

  /** One file. */
  lemma {:induction false} FileFiled(was: Catalog, s0: Index, s: Index, f: FoundFile, stamp: Stamp, keep: set<Path>,
          disk: Disk)
    requires Consistent(s0) && Consistent(s) && Tracks(was, s0, stamp, keep) && Tracks(was, s, stamp, keep)
    requires SeenStay(s0, s, "") && "" !in s0.seen && s0.seen <= s.seen && f.path !in s.seen
    requires forall p :: p in keep ==> p in s.seen || disk.present(p)
    ensures var t := WithFile(s0.catalog, s, f, stamp, disk);
            && Consistent(t) && Tracks(was, t, stamp, keep) && SeenStay(s, t, f.path) && FileRight(t, f)
            && t.seen == s.seen + {f.path} && t.parents == s.parents
  {
    var id := Owner(s0.catalog, s, f, disk);
    var e := OrNew(if id in s.catalog then Some(s.catalog[id]) else None, FileEntry, f.path);
    OwnerFits(s0.catalog, s, f, disk);
    PlaceConsistent(s, id, FileFields(e, s, f, stamp, disk));
    PlaceTracks(was, s, stamp, keep, id, FileFields(e, s, f, stamp, disk));
  }

  lemma {:induction false} FilesStep(s0: Index, s: Index, t: Index, files: seq<FoundFile>, n: nat)
    requires n < |files| && FilesDone(s0, s, files, n) && s0.seen <= s0.byPath.Keys && Consistent(s0)
    requires SeenStay(s, t, files[n].path) && FileRight(t, files[n]) && Distinct(PathsOf(files))
            && files[n].path !in s0.seen
    requires t.seen == s.seen + {files[n].path} && t.parents == s.parents
    ensures FilesDone(s0, t, files, n + 1)
  {
    assert PathsOf(files)[..n + 1] == PathsOf(files)[..n] + [files[n].path];
    forall k | 0 <= k < n
      ensures FileRight(t, files[k])
    {
      assert FileRight(s, files[k]);
      assert PathsOf(files)[..n][k] == files[k].path;
      assert PathsOf(files)[k] != PathsOf(files)[n];
    }
  }

  /** What the loop over the files keeps. */
  ghost predicate FilesInv(was: Catalog, s0: Index, s: Index, files: seq<FoundFile>, stamp: Stamp, keep: set<Path>,
          n: nat) {
    n <= |files| && Consistent(s) && Tracks(was, s, stamp, keep) && FilesDone(s0, s, files, n)
  }

  lemma {:induction false} FilesOneMore(
      was: Catalog, s0: Index, s: Index, folders: seq<Path>, files: seq<FoundFile>, n: nat, stamp: Stamp,
          keep: set<Path>, disk: Disk)
    requires Consistent(s0) && Tracks(was, s0, stamp, keep) && FoldersDone(s0, folders, |folders|)
            && Walked(folders, files, disk)
    requires FilesInv(was, s0, s, files, stamp, keep, n) && n < |files| && keep == PathSet(folders, files)
    ensures FilesInv(was, s0, FileTurn(s0.catalog, stamp, disk)(s, files[n]), files, stamp, keep, n + 1)
  {
    NotSeenYet(s0, s, folders, files, n, disk);
    FileFiled(was, s0, s, files[n], stamp, keep, disk);
    FilesStep(s0, s, WithFile(s0.catalog, s, files[n], stamp, disk), files, n);
  }

  lemma {:induction false} FilesStart(was: Catalog, s: Index, folders: seq<Path>, files: seq<FoundFile>, stamp: Stamp,
          keep: set<Path>)
    requires Consistent(s) && Tracks(was, s, stamp, keep)
    ensures FilesInv(was, s, s, files, stamp, keep, 0)
  {
  }

  lemma {:induction false} FilesRun(was: Catalog, s0: Index, folders: seq<Path>, files: seq<FoundFile>, n: nat,
          stamp: Stamp, disk: Disk)
    requires Consistent(s0) && Tracks(was, s0, stamp, PathSet(folders, files)) && FoldersDone(s0, folders, |folders|)
    requires n <= |files| && Walked(folders, files, disk)
    ensures FilesInv(was, s0, FilesUpTo(s0, files, n, stamp, disk), files, stamp, PathSet(folders, files), n)
  {
    var keep := PathSet(folders, files);
    var inv := (t: Index, k: nat) => FilesInv(was, s0, t, files, stamp, keep, k);
    FilesFold(was, s0, folders, files, n, stamp, disk, inv);
  }

  lemma {:induction false} FilesFold(was: Catalog, s0: Index, folders: seq<Path>, files: seq<FoundFile>, n: nat,
          stamp: Stamp, disk: Disk, inv: (Index, nat) -> bool)
    requires Consistent(s0) && Tracks(was, s0, stamp, PathSet(folders, files)) && FoldersDone(s0, folders, |folders|)
    requires n <= |files| && Walked(folders, files, disk)
    requires forall t, k: nat :: inv(t, k) <==> FilesInv(was, s0, t, files, stamp, PathSet(folders, files), k)
    ensures inv(FilesUpTo(s0, files, n, stamp, disk), n)
  {
    FilesStart(was, s0, folders, files, stamp, PathSet(folders, files));
    forall t, k: nat | k < |files| && inv(t, k)
      ensures inv(FileTurn(s0.catalog, stamp, disk)(t, files[k]), k + 1)
    {
      FilesOneMore(was, s0, t, folders, files, k, stamp, PathSet(folders, files), disk);
    }
    FoldKeeps(FileTurn(s0.catalog, stamp, disk), s0, files, n, inv);
  }

  lemma {:induction false} NotSeenYet(s0: Index, s: Index, folders: seq<Path>, files: seq<FoundFile>, n: nat,
          disk: Disk)
    requires n < |files| && Walked(folders, files, disk) && FilesDone(s0, s, files, n)
            && FoldersDone(s0, folders, |folders|)
    ensures files[n].path !in s.seen && files[n].path !in s0.seen && "" !in s0.seen && s0.seen <= s.seen
    ensures forall p :: p in PathSet(folders, files) ==> p in s.seen || disk.present(p)
  {
    assert folders[..|folders|] == folders;
    var paths := PathsOf(files);
    forall p | p in paths
      ensures disk.present(p)
    {
      var k :| 0 <= k < |paths| && paths[k] == p;
      assert files[k].path == p;
    }
  }

  // ----- the catalog afterwards

  /** A folder's entry in a catalog at rest, with `m` as its paths. */
  predicate FolderIn(c: Catalog, m: map<Path, Id>, p: Path) {
    p in m && m[p] in c && c[m[p]].kind.FolderEntry? && c[m[p]].parent == ParentId(m, p)
  }

  predicate FileIn(c: Catalog, m: map<Path, Id>, f: FoundFile) {
    && f.path in m && m[f.path] in c
    && (var e := c[m[f.path]];
        && e.kind.FileEntry? && e.name == Base(f.path) && e.size == f.info.size && e.ticks == f.info.ticks
            && e.sha.Some?
        && e.parent == ParentId(m, f.path))
  }

  predicate IsPathMap(c: Catalog, m: map<Path, Id>) {
    && (forall p :: p in m ==> m[p] in c && c[m[p]].path == p)
    && (forall id :: id in c ==> c[id].path in m && m[c[id].path] == id)
  }

  /**
    Exactly what was walked is active, each entry has the file's data, and parents are the entries of the
    parent paths.
   */
  ghost predicate Mirrors(c: Catalog, m: map<Path, Id>, folders: seq<Path>, files: seq<FoundFile>) {
    && IsPathMap(c, m)
    && (forall id :: id in c ==> (c[id].active <==> c[id].path in PathSet(folders, files)))
    && (forall p {:trigger FolderIn(c, m, p)} :: p in folders ==> FolderIn(c, m, p))
    && (forall k :: 0 <= k < |files| ==> FileIn(c, m, files[k]))
  }

  /** Nobody loses an id: entries stay, those at walked paths stay there, and suppression is never touched. */
  ghost predicate KeepsIds(was: Catalog, c: Catalog, keep: set<Path>) {
    && was.Keys <= c.Keys
    && (forall id :: id in was ==>
        c[id].suppressed == was[id].suppressed && (was[id].path in keep ==> c[id].path == was[id].path))
    && (forall id :: id in c && id !in was ==> !c[id].suppressed)
  }

  lemma {:induction false} SameParents(s: Index, folders: seq<Path>, p: Path)
    requires Parent(p) == "" || Parent(p) in folders
    requires forall q {:trigger FolderRight(s, q)} :: q in folders ==> FolderRight(s, q)
    ensures ParentId(s.parents, p) == ParentId(s.byPath, p)
  {
    assert Parent(p) != "" ==> FolderRight(s, Parent(p));
  }

  lemma {:induction false} FolderParent(folders: seq<Path>, p: Path)
    requires ParentsFirst(folders) && p in folders
    ensures Parent(p) == "" || Parent(p) in folders
  {
    var k :| 0 <= k < |folders| && folders[k] == p;
    assert ParentBefore(folders, k);
  }

  lemma RetiredFolder(s: Index, c: Catalog, stamp: Stamp, p: Path)
    requires c == Retired(s.catalog, stamp) && FolderRight(s, p) && ParentId(s.parents, p) == ParentId(s.byPath, p)
    ensures FolderIn(c, s.byPath, p)
  {
  }

  lemma RetiredFile(s: Index, c: Catalog, stamp: Stamp, f: FoundFile)
    requires c == Retired(s.catalog, stamp) && FileRight(s, f)
            && ParentId(s.parents, f.path) == ParentId(s.byPath, f.path)
    ensures FileIn(c, s.byPath, f)
  {
  }

  /** What the scan found right is right in the catalog it leaves. */
  lemma {:induction false} RetiredRight(s: Index, c: Catalog, folders: seq<Path>, files: seq<FoundFile>, stamp: Stamp,
          disk: Disk)
    requires c == Retired(s.catalog, stamp) && Walked(folders, files, disk)
    requires forall p {:trigger FolderRight(s, p)} :: p in folders ==> FolderRight(s, p)
    requires forall k :: 0 <= k < |files| ==> FileRight(s, files[k])
    ensures forall p {:trigger FolderIn(c, s.byPath, p)} :: p in folders ==> FolderIn(c, s.byPath, p)
    ensures forall k :: 0 <= k < |files| ==> FileIn(c, s.byPath, files[k])
  {
    forall p | p in folders
      ensures FolderIn(c, s.byPath, p)
    {
      assert FolderRight(s, p);
      FolderParent(folders, p);
      SameParents(s, folders, p);
      RetiredFolder(s, c, stamp, p);
    }
    forall k | 0 <= k < |files|
      ensures FileIn(c, s.byPath, files[k])
    {
      assert FileRight(s, files[k]);
      assert FileWalked(folders, files[k], disk);
      SameParents(s, folders, files[k].path);
      RetiredFile(s, c, stamp, files[k]);
    }
  }

  lemma RetiredMap(s: Index, c: Catalog, stamp: Stamp)
    requires Consistent(s) && c == Retired(s.catalog, stamp)
    ensures IsPathMap(c, s.byPath)
  {
  }

  lemma {:induction false} FoldersStay(s0: Index, s: Index, folders: seq<Path>, files: seq<FoundFile>, n: nat)
    requires n <= |files| && FoldersDone(s0, folders, |folders|) && FilesDone(s0, s, files, n)
            && s0.seen <= s0.byPath.Keys && "" !in folders
    ensures forall p {:trigger FolderRight(s, p)} :: p in folders ==> FolderRight(s, p)
  {
    assert folders[..|folders|] == folders;
    forall p | p in folders
      ensures FolderRight(s, p)
    {
      assert FolderRight(s0, p) && p in s0.seen;
    }
  }

  lemma {:induction false} SeenAll(s0: Index, s: Index, folders: seq<Path>, files: seq<FoundFile>)
    requires FoldersDone(s0, folders, |folders|) && FilesDone(s0, s, files, |files|)
    ensures s.seen == PathSet(folders, files)
  {
    assert folders[..|folders|] == folders && PathsOf(files)[..|files|] == PathsOf(files);
  }

  /** A catalog has one dictionary by path. */
  lemma {:induction false} OnePathMap(c: Catalog, m: map<Path, Id>)
    requires IsPathMap(c, m)
    ensures UniquePaths(c) && PathMap(c) == m
  {
    forall a, b | a in c && b in c && c[a].path == c[b].path
      ensures a == b
    {
      assert m[c[a].path] == a && m[c[b].path] == b;
    }
    var own := PathMap(c);
    forall p
      ensures p in own <==> p in m
      ensures p in m && p in own ==> own[p] == m[p]
    {
      if p in m { assert c[m[p]].path == p; }
      if p in own { assert c[own[p]].path == p; }
    }
  }

  /** After a scan of a stable tree the catalog mirrors it, and nobody has lost an id. */
  lemma {:induction false} ScanMirrors(c: Catalog, next: Id, folders: seq<Path>, files: seq<FoundFile>, stamp: Stamp,
          disk: Disk)
    requires Supplied(c, next) && Walked(folders, files, disk) && forall id :: id in c ==> c[id].lastSeen != stamp
    ensures var r := Scan(c, next, folders, files, stamp, disk);
            && r.Some? && UniquePaths(r.value) && Mirrors(r.value, PathMap(r.value), folders, files)
            && KeepsIds(c, r.value, PathSet(folders, files))
  {
    var keep := PathSet(folders, files);
    OpeningTracks(c, next, folders, stamp, keep);
    FoldersRun(c, Opening(c, next), folders, |folders|, stamp, keep);
    var s0 := FoldersUpTo(Opening(c, next), folders, |folders|, stamp).value;
    FilesRun(c, s0, folders, files, |files|, stamp, disk);
    var s := FilesUpTo(s0, files, |files|, stamp, disk);
    var r := Retired(s.catalog, stamp);
    FoldersStay(s0, s, folders, files, |files|);
    SeenAll(s0, s, folders, files);
    RetiredRight(s, r, folders, files, stamp, disk);
    RetiredMap(s, r, stamp);
    OnePathMap(r, s.byPath);
    RetiredKeeps(c, s, r, stamp, keep);
  }

  lemma {:induction false} RetiredKeeps(was: Catalog, s: Index, r: Catalog, stamp: Stamp, keep: set<Path>)
    requires Consistent(s) && Tracks(was, s, stamp, keep) && s.seen == keep && r == Retired(s.catalog, stamp)
    requires forall id :: id in was ==> was[id].lastSeen != stamp
    ensures KeepsIds(was, r, keep) && forall id :: id in r ==> (r[id].active <==> r[id].path in keep)
  {
    forall id | id in r
      ensures (r[id].active <==> r[id].path in keep)
      ensures id in was ==>
              r[id].suppressed == was[id].suppressed && (was[id].path in keep ==> r[id].path == was[id].path)
      ensures id !in was ==> !r[id].suppressed
    {
      assert EntryTracks(was, s, stamp, keep, id);
    }
  }

  // ----- scanning again

  function Stamped(c: Catalog, paths: set<Path>, stamp: Stamp): (r: Catalog)
    ensures r.Keys == c.Keys
  {
    map id | id in c :: if c[id].path in paths then c[id].(lastSeen := stamp) else c[id]
  }

  /** The scan has only stamped what it has seen. */
  ghost predicate OnlyStamped(c: Catalog, m: map<Path, Id>, s: Index, stamp: Stamp) {
    && s.byPath == m && s.catalog.Keys == c.Keys
    && forall id :: id in c ==> s.catalog[id] == if c[id].path in s.seen then c[id].(lastSeen := stamp) else c[id]
  }

  lemma {:induction false} PlaceStamps(c: Catalog, m: map<Path, Id>, s: Index, stamp: Stamp, id: Id, e: Entry)
    requires IsPathMap(c, m) && OnlyStamped(c, m, s, stamp) && id in c && e == c[id].(lastSeen := stamp)
    ensures OnlyStamped(c, m, Place(s, id, e), stamp)
  {
    var t := Place(s, id, e);
    assert s.catalog[id].path == e.path && s.byPath[e.path] == id;
    assert t.byPath == s.byPath;
    forall i | i in c
      ensures t.catalog[i] == if c[i].path in t.seen then c[i].(lastSeen := stamp) else c[i]
    {
      assert i != id ==> c[i].path != e.path;
    }
  }

  lemma {:induction false} FolderAgain(c: Catalog, m: map<Path, Id>, s: Index, path: Path, stamp: Stamp)
    requires Consistent(s) && IsPathMap(c, m) && OnlyStamped(c, m, s, stamp)
    requires FolderIn(c, m, path) && c[m[path]].active && ParentId(s.parents, path) == ParentId(m, path)
    ensures var r := WithFolder(s, path, stamp); r.Some? ==> Consistent(r.value) && OnlyStamped(c, m, r.value, stamp)
  {
    PlaceConsistent(s, m[path], c[m[path]].(lastSeen := stamp));
    PlaceStamps(c, m, s, stamp, m[path], c[m[path]].(lastSeen := stamp));
  }

  lemma {:induction false} FileAgain(c: Catalog, m: map<Path, Id>, saved: Catalog, s: Index, f: FoundFile, stamp: Stamp,
          disk: Disk)
    requires Consistent(s) && IsPathMap(c, m) && OnlyStamped(c, m, s, stamp)
    requires FileIn(c, m, f) && c[m[f.path]].active && ParentId(s.parents, f.path) == ParentId(m, f.path)
    ensures var t := WithFile(saved, s, f, stamp, disk);
            Consistent(t) && OnlyStamped(c, m, t, stamp) && t.parents == s.parents
  {
    PlaceConsistent(s, m[f.path], c[m[f.path]].(lastSeen := stamp));
    PlaceStamps(c, m, s, stamp, m[f.path], c[m[f.path]].(lastSeen := stamp));
  }

  /** The ids of the parents met so far are the catalog's. */
  ghost predicate ParentsOf(m: map<Path, Id>, s: Index, folders: seq<Path>, n: nat)
    requires n <= |folders|
  {
    && (forall p :: p in s.parents && p != "" ==> p in m && s.parents[p] == m[p])
    && (forall k :: 0 <= k < n ==> folders[k] in s.parents)
  }

  /** The parent's id is already known when a folder's turn comes. */
  lemma {:induction false} ParentKnown(m: map<Path, Id>, s: Index, folders: seq<Path>, n: nat)
    requires n < |folders| && ParentBefore(folders, n) && ParentsOf(m, s, folders, n)
    ensures ParentId(s.parents, folders[n]) == ParentId(m, folders[n])
    ensures Parent(folders[n]) == "" || Parent(folders[n]) in s.parents
  {
    var p := Parent(folders[n]);
    if p in folders[..n] {
      var k :| 0 <= k < n && folders[..n][k] == p;
      assert folders[k] == p;
    }
  }

  /** Whatever the walk names is there and active. */
  ghost predicate FolderThere(c: Catalog, m: map<Path, Id>, p: Path) {
    FolderIn(c, m, p) && c[m[p]].active
  }

  /** What the loop over the folders keeps when nothing has changed. */
  ghost predicate FoldersAgainInv(c: Catalog, m: map<Path, Id>, s: Option<Index>, folders: seq<Path>, stamp: Stamp,
          n: nat) {
    n <= |folders| && s.Some? && Consistent(s.value) && OnlyStamped(c, m, s.value, stamp)
        && ParentsOf(m, s.value, folders, n)
  }

  lemma {:induction false} FolderAgainAt(c: Catalog, m: map<Path, Id>, s: Option<Index>, folders: seq<Path>, n: nat,
          stamp: Stamp)
    requires FoldersAgainInv(c, m, s, folders, stamp, n) && n < |folders| && ParentsFirst(folders) && IsPathMap(c, m)
    requires forall p {:trigger FolderThere(c, m, p)} :: p in folders ==> FolderThere(c, m, p)
    ensures FoldersAgainInv(c, m, FolderTurn(stamp)(s, folders[n]), folders, stamp, n + 1)
  {
    assert ParentBefore(folders, n) && FolderThere(c, m, folders[n]);
    ParentKnown(m, s.value, folders, n);
    FolderAgain(c, m, s.value, folders[n], stamp);
  }

  lemma {:induction false} FoldersAgainTurns(c: Catalog, m: map<Path, Id>, folders: seq<Path>, stamp: Stamp,
          inv: (Option<Index>, nat) -> bool)
    requires ParentsFirst(folders) && IsPathMap(c, m)
    requires forall p {:trigger FolderThere(c, m, p)} :: p in folders ==> FolderThere(c, m, p)
    requires forall t, k: nat :: inv(t, k) <==> FoldersAgainInv(c, m, t, folders, stamp, k)
    ensures forall t, k: nat {:trigger inv(t, k), FolderTurn(stamp)(t, folders[k])} ::
              k < |folders| && inv(t, k) ==> inv(FolderTurn(stamp)(t, folders[k]), k + 1)
  {
    forall t, k: nat | k < |folders| && inv(t, k)
      ensures inv(FolderTurn(stamp)(t, folders[k]), k + 1)
    {
      FolderAgainAt(c, m, t, folders, k, stamp);
    }
  }

  lemma {:induction false} FoldersAgain(c: Catalog, m: map<Path, Id>, s: Index, folders: seq<Path>, stamp: Stamp)
    requires ParentsFirst(folders) && IsPathMap(c, m)
    requires forall p {:trigger FolderThere(c, m, p)} :: p in folders ==> FolderThere(c, m, p)
    requires FoldersAgainInv(c, m, Some(s), folders, stamp, 0)
    ensures FoldersAgainInv(c, m, FoldersUpTo(s, folders, |folders|, stamp), folders, stamp, |folders|)
  {
    var inv := (t: Option<Index>, k: nat) => FoldersAgainInv(c, m, t, folders, stamp, k);
    FoldersAgainTurns(c, m, folders, stamp, inv);
    FoldKeeps(FolderTurn(stamp), Some(s), folders, |folders|, inv);
    assert inv(FoldersUpTo(s, folders, |folders|, stamp), |folders|);
  }

  /** The file is there as it was, and its parent's id is known. */
  ghost predicate FileThere(c: Catalog, m: map<Path, Id>, parents: map<Path, Id>, f: FoundFile) {
    FileIn(c, m, f) && c[m[f.path]].active && ParentId(parents, f.path) == ParentId(m, f.path)
  }

  ghost predicate FilesAgainInv(c: Catalog, m: map<Path, Id>, s0: Index, s: Index, stamp: Stamp) {
    Consistent(s) && OnlyStamped(c, m, s, stamp) && s.parents == s0.parents
  }

  lemma {:induction false} FilesAgain(c: Catalog, m: map<Path, Id>, s0: Index, files: seq<FoundFile>, stamp: Stamp,
          disk: Disk)
    requires Consistent(s0) && OnlyStamped(c, m, s0, stamp) && IsPathMap(c, m)
    requires forall k {:trigger FileThere(c, m, s0.parents, files[k])} :: 0 <= k < |files| ==>
            FileThere(c, m, s0.parents, files[k])
    ensures OnlyStamped(c, m, FilesUpTo(s0, files, |files|, stamp, disk), stamp)
  {
    var inv := (t: Index, k: nat) => FilesAgainInv(c, m, s0, t, stamp);
    forall t, k: nat | k < |files| && inv(t, k)
      ensures inv(FileTurn(s0.catalog, stamp, disk)(t, files[k]), k + 1)
    {
      assert FileThere(c, m, s0.parents, files[k]);
      FileAgain(c, m, s0.catalog, t, files[k], stamp, disk);
    }
    FoldKeeps(FileTurn(s0.catalog, stamp, disk), s0, files, |files|, inv);
  }

  /** What a mirror promises to the next scan. */
  lemma {:induction false} MirrorThere(c: Catalog, m: map<Path, Id>, folders: seq<Path>, files: seq<FoundFile>)
    requires Mirrors(c, m, folders, files)
    ensures forall p {:trigger FolderThere(c, m, p)} :: p in folders ==> FolderThere(c, m, p)
    ensures forall k :: 0 <= k < |files| ==> FileIn(c, m, files[k]) && c[m[files[k].path]].active
  {
    forall p | p in folders
      ensures FolderThere(c, m, p)
    {
      assert FolderIn(c, m, p);
    }
    forall k | 0 <= k < |files|
      ensures FileIn(c, m, files[k]) && c[m[files[k].path]].active
    {
      assert PathsOf(files)[k] == files[k].path;
    }
  }

  /** Once every folder is met, the parents of the files are known. */
  lemma {:induction false} FilesThere(c: Catalog, m: map<Path, Id>, s0: Index, folders: seq<Path>,
          files: seq<FoundFile>, disk: Disk)
    requires Walked(folders, files, disk) && ParentsOf(m, s0, folders, |folders|)
    requires forall k :: 0 <= k < |files| ==> FileIn(c, m, files[k]) && c[m[files[k].path]].active
    ensures forall k {:trigger FileThere(c, m, s0.parents, files[k])} :: 0 <= k < |files| ==>
            FileThere(c, m, s0.parents, files[k])
  {
    forall k | 0 <= k < |files|
      ensures FileThere(c, m, s0.parents, files[k])
    {
      assert FileWalked(folders, files[k], disk);
      var p := Parent(files[k].path);
      if p in folders {
        var i :| 0 <= i < |folders| && folders[i] == p;
        assert folders[i] in s0.parents;
      }
    }
  }

  lemma {:induction false} OpeningStamps(c: Catalog, next: Id, folders: seq<Path>, stamp: Stamp)
    requires Supplied(c, next)
    ensures var s := Opening(c, next);
            Consistent(s) && OnlyStamped(c, PathMap(c), s, stamp) && ParentsOf(PathMap(c), s, folders, 0)
  {
  }

  /** Scanning an unchanged tree again changes nothing but the stamps of what it meets. */
  lemma {:induction false} RescanOnlyStamps(c: Catalog, next: Id, folders: seq<Path>, files: seq<FoundFile>,
          stamp: Stamp, disk: Disk)
    requires Supplied(c, next) && Walked(folders, files, disk) && Mirrors(c, PathMap(c), folders, files)
    ensures Scan(c, next, folders, files, stamp, disk) == Some(Stamped(c, PathSet(folders, files), stamp))
  {
    var keep, m, start := PathSet(folders, files), PathMap(c), Opening(c, next);
    MirrorThere(c, m, folders, files);
    OpeningStamps(c, next, folders, stamp);
    FoldersAgain(c, m, start, folders, stamp);
    var s0 := FoldersUpTo(start, folders, |folders|, stamp).value;
    FilesThere(c, m, s0, folders, files, disk);
    FilesAgain(c, m, s0, files, stamp, disk);
    SeenByScan(c, next, folders, files, stamp, disk);
    MirrorActive(c, m, folders, files);
    StampedStays(c, m, FilesUpTo(s0, files, |files|, stamp, disk), stamp);
  }

  lemma {:induction false} SeenByScan(c: Catalog, next: Id, folders: seq<Path>, files: seq<FoundFile>, stamp: Stamp,
          disk: Disk)
    requires Supplied(c, next) && Walked(folders, files, disk)
    ensures var r := FoldersUpTo(Opening(c, next), folders, |folders|, stamp);
            r.Some? && FilesUpTo(r.value, files, |files|, stamp, disk).seen == PathSet(folders, files)
  {
    var keep := PathSet(folders, files);
    OpeningTracks(c, next, folders, stamp, keep);
    FoldersRun(c, Opening(c, next), folders, |folders|, stamp, keep);
    var s0 := FoldersUpTo(Opening(c, next), folders, |folders|, stamp).value;
    FilesRun(c, s0, folders, files, |files|, stamp, disk);
    SeenAll(s0, FilesUpTo(s0, files, |files|, stamp, disk), folders, files);
  }

  lemma {:induction false} StampedStays(c: Catalog, m: map<Path, Id>, s: Index, stamp: Stamp)
    requires OnlyStamped(c, m, s, stamp) && forall id :: id in c ==> (c[id].active <==> c[id].path in s.seen)
    ensures Retired(s.catalog, stamp) == Stamped(c, s.seen, stamp)
  {
    forall id | id in c
      ensures Retired(s.catalog, stamp)[id] == Stamped(c, s.seen, stamp)[id]
    {
      assert s.catalog[id] == if c[id].path in s.seen then c[id].(lastSeen := stamp) else c[id];
    }
  }

  lemma MirrorActive(c: Catalog, m: map<Path, Id>, folders: seq<Path>, files: seq<FoundFile>)
    requires Mirrors(c, m, folders, files)
    ensures forall id :: id in c ==> (c[id].active <==> c[id].path in PathSet(folders, files))
  {
  }
}

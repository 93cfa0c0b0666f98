/** The indexer itself: the loops over the walked lists, changing the catalog in place. */
module CatalogIndexers {
  import opened CatalogIndex
  import opened CatalogMoves
  import opened CatalogScan
  import opened Common
  import opened LibraryWalk

  /** The walk of a tidy tree is what the scan's theorems ask for. */
  lemma {:induction false} WalkIsWalked(tree: seq<Node>, disk: Disk)
    requires Tidy(tree)
    requires forall k :: 0 <= k < |WalkOf("", tree).files| ==> disk.present(WalkOf("", tree).files[k].path)
    ensures var f := WalkOf("", tree); Walked(ByDepth(f.folders), f.files, disk)
  {
    var f := WalkOf("", tree);
    var order := ByDepth(f.folders);
    WalkClosed("", tree);
    WalkBelow("", tree);
    DistinctParts(f.folders, PathsOf(f.files));
    ByDepthApart(f.folders);
    forall k | 0 <= k < |order|
      ensures ParentBefore(order, k)
    {
      ParentsBefore(f, k);
    }
    forall k | 0 <= k < |f.files|
      ensures FileWalked(order, f.files[k], disk)
    {
      assert PathsOf(f.files)[k] == f.files[k].path;
      assert f.files[k].path in PathsOf(f.files) && f.files[k].path in AllPaths(f);
    }
  }

  function ScanTree(c: Catalog, next: Id, tree: seq<Node>, stamp: Stamp, disk: Disk): Option<Catalog>
    requires Supplied(c, next)
  {
    var f := WalkOf("", tree);
    Scan(c, next, ByDepth(f.folders), f.files, stamp, disk)
  }

  /**
    Scanning a tree whose files are on disk: no lookup of a parent fails; afterwards exactly the walked
    folders and supported files are active, with their data and their parents' ids; entries keep ids.
   */
  lemma {:induction false} TreeScanMirrors(c: Catalog, next: Id, tree: seq<Node>, stamp: Stamp, disk: Disk)
    requires Supplied(c, next) && Tidy(tree) && forall id :: id in c ==> c[id].lastSeen != stamp
    requires forall k :: 0 <= k < |WalkOf("", tree).files| ==> disk.present(WalkOf("", tree).files[k].path)
    ensures var f, r := WalkOf("", tree), ScanTree(c, next, tree, stamp, disk);
            && r.Some? && UniquePaths(r.value) && Mirrors(r.value, PathMap(r.value), ByDepth(f.folders), f.files)
            && KeepsIds(c, r.value, PathSet(ByDepth(f.folders), f.files))
  {
    WalkIsWalked(tree, disk);
    ScanMirrors(c, next, ByDepth(WalkOf("", tree).folders), WalkOf("", tree).files, stamp, disk);
  }

  /** Scanning the same tree twice: the second scan changes nothing but stamps. */
  lemma {:induction false} TreeScanTwice(c: Catalog, next: Id, later: Id, tree: seq<Node>, first: Stamp, second: Stamp,
          disk: Disk)
    requires Supplied(c, next) && Tidy(tree) && forall id :: id in c ==> c[id].lastSeen != first
    requires forall k :: 0 <= k < |WalkOf("", tree).files| ==> disk.present(WalkOf("", tree).files[k].path)
    requires var r := ScanTree(c, next, tree, first, disk); r.Some? ==> Supplied(r.value, later)
    ensures var f, r := WalkOf("", tree), ScanTree(c, next, tree, first, disk);
            && r.Some?
            && ScanTree(r.value, later, tree, second, disk)
                == Some(Stamped(r.value, PathSet(ByDepth(f.folders), f.files), second))
  {
    TreeScanMirrors(c, next, tree, first, disk);
    WalkIsWalked(tree, disk);
    var f := WalkOf("", tree);
    RescanOnlyStamps(ScanTree(c, next, tree, first, disk).value, later, ByDepth(f.folders), f.files, second, disk);
  }

  /** In a scan of a tree, the first new file with the content of one missing entry keeps that entry's id. */
  lemma {:induction false} TreeScanMoves(c: Catalog, next: Id, tree: seq<Node>, stamp: Stamp, disk: Disk, i: nat,
          id: Id)
    requires Supplied(c, next) && Tidy(tree)
    requires forall k :: 0 <= k < |WalkOf("", tree).files| ==> disk.present(WalkOf("", tree).files[k].path)
    requires var f := WalkOf("", tree); OnlyMatch(c, f.files, PathSet(ByDepth(f.folders), f.files), disk, i, id)
    ensures var f, r := WalkOf("", tree), ScanTree(c, next, tree, stamp, disk);
            && r.Some? && id in r.value && r.value[id].path == f.files[i].path
            && r.value[id].active && r.value[id].suppressed == c[id].suppressed
  {
    WalkIsWalked(tree, disk);
    MovedKeepsId(c, next, ByDepth(WalkOf("", tree).folders), WalkOf("", tree).files, stamp, disk, i, id);
  }

  // ----- the object

  class CatalogIndexer {
    var catalog: Catalog
    var byPath: map<Path, Id>
    var seen: set<Path>
    var parentIds: map<Path, Id>
    var next: Id

    function Shown(): Index
      reads this
    {
      Index(catalog, byPath, seen, parentIds, next)
    }

    constructor (c: Catalog, unused: Id)
      requires Supplied(c, unused)
      ensures Shown() == Opening(c, unused)
    {
      catalog, byPath, seen, parentIds, next := c, PathMap(c), {}, map["" := ROOT], unused;
    }

    /** The folder's entry, made if there is none. */
    method FolderAt(path: Path) returns (id: Id)
      requires Consistent(Shown())
      modifies this`catalog, this`byPath, this`next
      ensures id == if path in old(byPath) then old(byPath[path]) else old(next)
      ensures catalog == old(catalog)[id := OrNew(EntryAt(old(Shown()), path), FolderEntry, path)]
      ensures byPath == old(byPath)[path := id] && next == if id in old(catalog) then old(next) else old(next) + 1
    {
      if path in byPath {
        id := byPath[path];
        assert catalog == catalog[id := catalog[id]] && byPath == byPath[path := id];
      } else {
        id := next;
        catalog := catalog[id := OrNew(None, FolderEntry, path)];
        byPath := byPath[path := id];
        next := next + 1;
      }
    }

    /** The body of the loop over the folders. */
    method IndexFolder(path: Path, stamp: Stamp) returns (ok: bool)
      requires Consistent(Shown())
      modifies this
      ensures ok <==> FolderTurn(stamp)(Some(old(Shown())), path).Some?
      ensures ok ==> Some(Shown()) == FolderTurn(stamp)(Some(old(Shown())), path) && Consistent(Shown())
    {
      ghost var was := Shown();
      var parent := Parent(path);
      if parent != "" && parent !in parentIds { return false; }
      var id := FolderAt(path);
      var e := catalog[id].(kind := FolderEntry);
      e := e.(parent := if parent == "" then None else Some(parentIds[parent]));
      e := e.(active := true, lastSeen := stamp);
      catalog := catalog[id := e];
      parentIds := parentIds[path := id];
      seen := seen + {path};
      assert catalog == was.catalog[id := e];
      FolderPlaced(was, path, stamp, id);
      return true;
    }

    /** The entry's file is found at another path. */
    method MoveTo(id: Id, path: Path)
      requires id in catalog
      modifies this`catalog, this`byPath
      ensures catalog == old(catalog)[id := old(catalog)[id].(path := path)]
      ensures byPath == (old(byPath) - {old(catalog)[id].path})[path := id]
    {
      byPath := byPath - {catalog[id].path};
      catalog := catalog[id := catalog[id].(path := path)];
      byPath := byPath[path := id];
    }

    /** The entry whose file this is, made if there is none. */
    method FileAt(saved: Catalog, f: FoundFile, disk: Disk) returns (id: Id)
      requires Consistent(Shown())
      modifies this`catalog, this`byPath, this`next
      ensures id == Owner(saved, old(Shown()), f, disk)
      ensures id in catalog && catalog[id] == OrNew(if id in old(catalog) then Some(old(catalog)[id])
              else None, FileEntry, f.path).(path := f.path)
      ensures catalog - {id} == old(catalog) - {id}
      ensures byPath == (if id in old(catalog) then old(byPath) - {old(catalog)[id].path}
              else old(byPath))[f.path := id]
      ensures next == if id in old(catalog) then old(next) else old(next) + 1
    {
      OwnerFits(saved, Shown(), f, disk);
      if f.path in byPath {
        assert byPath == (byPath - {f.path})[f.path := byPath[f.path]];
        return byPath[f.path];
      }
      var unique := Candidates(saved, Shown(), f, disk);
      if |unique| == 1 {
        id := TheOne(unique);
        assert id in unique;
        MoveTo(id, f.path);
      } else {
        id := next;
        catalog := catalog[id := OrNew(None, FileEntry, f.path)];
        byPath := byPath[f.path := id];
        next := next + 1;
      }
    }

    /** The body of the loop over the files. */
    method IndexFile(saved: Catalog, f: FoundFile, stamp: Stamp, disk: Disk)
      requires Consistent(Shown())
      modifies this
      ensures Shown() == FileTurn(saved, stamp, disk)(old(Shown()), f) && Consistent(Shown())
    {
      ghost var was := Shown();
      var changed := Changed(EntryAt(Shown(), f.path), f);
      var id := FileAt(saved, f, disk);
      ghost var rest := catalog;
      var e := catalog[id].(kind := FileEntry, parent := ParentId(parentIds, f.path), name := Base(f.path));
      e := e.(size := f.info.size, ticks := f.info.ticks);
      if changed { e := e.(sha := Some(disk.hash(f.info.content))); }
      e := e.(active := true, lastSeen := stamp);
      catalog := catalog[id := e];
      seen := seen + {f.path};
      FileConsistent(saved, was, f, stamp, disk);
      OneChanged(was.catalog, rest, id, e);
    }

    method IndexFolders(folders: seq<Path>, stamp: Stamp) returns (ok: bool)
      requires Consistent(Shown())
      modifies this
      ensures ok <==> FoldersUpTo(old(Shown()), folders, |folders|, stamp).Some?
      ensures ok ==> Shown() == FoldersUpTo(old(Shown()), folders, |folders|, stamp).value && Consistent(Shown())
    {
      ghost var start := Shown();
      for i := 0 to |folders|
        invariant Consistent(Shown()) && FoldersUpTo(start, folders, i, stamp) == Some(Shown())
      {
        ok := IndexFolder(folders[i], stamp);
        if !ok {
          StoppedStays(start, folders, i + 1, |folders|, stamp);
          return;
        }
      }
      return true;
    }

    method IndexFiles(files: seq<FoundFile>, stamp: Stamp, disk: Disk)
      requires Consistent(Shown())
      modifies this
      ensures Shown() == FilesUpTo(old(Shown()), files, |files|, stamp, disk)
    {
      ghost var start := Shown();
      var saved := catalog;
      for i := 0 to |files|
        invariant Consistent(Shown()) && Shown() == FilesUpTo(start, files, i, stamp, disk)
      {
        IndexFile(saved, files[i], stamp, disk);
      }
    }

    /** The last loop: everything active that this scan did not meet becomes inactive. */
    method Retire(stamp: Stamp)
      modifies this`catalog
      ensures catalog == Retired(old(catalog), stamp)
    {
      ghost var was := catalog;
      var left := catalog.Keys;
      while left != {}
        invariant catalog.Keys == was.Keys && left <= was.Keys
        invariant forall id :: id in was ==> catalog[id] == if id in left then was[id] else Retired(was, stamp)[id]
        decreases |left|
      {
        var id :| id in left;
        if catalog[id].lastSeen != stamp && catalog[id].active {
          catalog := catalog[id := catalog[id].(active := false)];
        }
        left := left - {id};
      }
    }

    /** A whole scan of a fresh indexer; if it stops, nothing is stored. */
    method ScanLibrary(tree: seq<Node>, stamp: Stamp, disk: Disk) returns (stored: Option<Catalog>)
      requires Supplied(catalog, next) && Shown() == Opening(catalog, next)
      modifies this
      ensures stored == ScanTree(old(catalog), old(next), tree, stamp, disk)
      ensures stored.Some? ==> catalog == stored.value
    {
      OpeningTracks(catalog, next, [], stamp, {});
      var walker := new Walker();
      walker.Walk("", tree);
      assert walker.Shown() == WalkOf("", tree);
      var ok := IndexFolders(ByDepth(walker.folders), stamp);
      if !ok { return None; }
      IndexFiles(walker.files, stamp, disk);
      Retire(stamp);
      return Some(catalog);
    }
  }

  lemma OneChanged(a: Catalog, b: Catalog, id: Id, e: Entry)
    requires a - {id} == b - {id}
    ensures a[id := e] == b[id := e]
  {
    assert a[id := e] == (a - {id})[id := e];
    assert b[id := e] == (b - {id})[id := e];
  }

  /** What the turn of a folder comes to. */
  lemma {:induction false} FolderPlaced(s: Index, path: Path, stamp: Stamp, id: Id)
    requires Consistent(s) && id == (if path in s.byPath then s.byPath[path] else s.next)
    requires Parent(path) == "" || Parent(path) in s.parents
    ensures var e := OrNew(EntryAt(s, path), FolderEntry, path).(kind := FolderEntry, parent :=
            ParentId(s.parents, path), active := true, lastSeen := stamp);
            var t := Index(s.catalog[id := e], s.byPath[path := id], s.seen + {path}, s.parents[path := id],
                if id in s.catalog then s.next else s.next + 1);
            WithFolder(s, path, stamp) == Some(t) && Consistent(t)
  {
    var e := OrNew(EntryAt(s, path), FolderEntry, path).(kind := FolderEntry, parent := ParentId(s.parents, path),
        active := true, lastSeen := stamp);
    assert e.path == path;
    PlaceConsistent(s, id, e);
    assert Place(s, id, e).byPath == s.byPath[path := id];
  }

  lemma {:induction false} FileConsistent(saved: Catalog, s: Index, f: FoundFile, stamp: Stamp, disk: Disk)
    requires Consistent(s)
    ensures Consistent(WithFile(saved, s, f, stamp, disk))
  {
    var id := Owner(saved, s, f, disk);
    OwnerFits(saved, s, f, disk);
    var e := OrNew(if id in s.catalog then Some(s.catalog[id]) else None, FileEntry, f.path);
    PlaceConsistent(s, id, FileFields(e, s, f, stamp, disk));
  }

  lemma {:induction false} StoppedStays(s: Index, folders: seq<Path>, k: nat, n: nat, stamp: Stamp)
    requires k <= n <= |folders| && FoldersUpTo(s, folders, k, stamp).None?
    ensures FoldersUpTo(s, folders, n, stamp).None?
    decreases n
  {
    if k < n { StoppedStays(s, folders, k, n - 1, stamp); }
  }
}

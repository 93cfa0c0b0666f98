/** Relative paths of the library, and the walk that collects its folders and files. */
module LibraryWalk {
  import opened Common

  type Path = string

  /** The place of the last slash, or -1. */
  function LastSlash(path: Path): (i: int)
    ensures -1 <= i < |path| && (i >= 0 ==> path[i] == '/')
    ensures forall k :: i < k < |path| ==> path[k] != '/'
  {
    if path == "" then -1 else if path[|path| - 1] == '/' then |path| - 1 else LastSlash(path[..|path| - 1])
  }

  function Parent(path: Path): Path {
    if LastSlash(path) < 0 then "" else path[..LastSlash(path)]
  }

  /** The last component. */
  function Base(path: Path): string {
    path[LastSlash(path) + 1..]
  }

  /** How many slashes a path has: what folders are ordered by. */
  function Depth(path: Path): nat {
    if path == "" then 0 else Depth(path[..|path| - 1]) + if path[|path| - 1] == '/' then 1 else 0
  }

  function Under(prefix: Path, name: string): Path {
    if prefix == "" then name else prefix + "/" + name
  }

  predicate Plain(name: string) {
    name != "" && '/' !in name
  }

  lemma {:induction false} LastSlashUnder(prefix: Path, name: string)
    requires '/' !in name
    ensures LastSlash(prefix + "/" + name) == |prefix|
  {
    var path := prefix + "/" + name;
    assert path[|prefix|] == '/';
    assert forall k :: |prefix| < k < |path| ==> path[k] == name[k - |prefix| - 1];
  }

  lemma {:induction false} ParentUnder(prefix: Path, name: string)
    requires Plain(name)
    ensures Parent(Under(prefix, name)) == prefix && Base(Under(prefix, name)) == name && Under(prefix, name) != ""
  {
    if prefix == "" {
      assert LastSlash(name) < 0;
    } else {
      LastSlashUnder(prefix, name);
    }
  }

  lemma {:induction false} DepthAppend(a: Path, b: Path)
    ensures Depth(a + b) == Depth(a) + Depth(b)
  {
    if b == "" {
      assert a + b == a;
    } else {
      DepthAppend(a, b[..|b| - 1]);
      assert (a + b)[..|a + b| - 1] == a + b[..|b| - 1];
    }
  }

  // ----- the tree

  /** What the program reads about a file; `content` stands for its bytes. */
  datatype Info = Info(size: nat, ticks: int, content: nat)

  /** A folder may refuse to be listed; everything that is neither folder nor file counts as a link. */
  datatype Node =
    | Folder(name: string, readable: bool, children: seq<Node>)
    | File(name: string, supported: bool, info: Info)
    | Link(name: string)

  datatype FoundFile = FoundFile(path: Path, info: Info)

  datatype Found = Found(folders: seq<Path>, files: seq<FoundFile>)

  function Both(a: Found, b: Found): Found {
    Found(a.folders + b.folders, a.files + b.files)
  }

  function WalkOne(prefix: Path, n: Node): Found
    decreases n
  {
    var path := Under(prefix, n.name);
    if '\\' in n.name || n.Link? then Found([], [])
    else if n.File? then Found([], if n.supported then [FoundFile(path, n.info)] else [])
    else Both(Found([path], []), if n.readable then WalkOf(path, n.children) else Found([], []))
  }

  function WalkOf(prefix: Path, nodes: seq<Node>): Found
    decreases nodes
  {
    if nodes == [] then Found([], [])
    else Both(WalkOf(prefix, nodes[..|nodes| - 1]), WalkOne(prefix, nodes[|nodes| - 1]))
  }

  /** Names without slashes, no two siblings alike. */
  predicate TidyOne(n: Node)
    decreases n
  {
    Plain(n.name) && (n.Folder? ==> Tidy(n.children))
  }

  predicate Tidy(nodes: seq<Node>)
    decreases nodes
  {
    nodes == [] ||
    (var last := nodes[|nodes| - 1];
     && Tidy(nodes[..|nodes| - 1]) && TidyOne(last)
     && forall n :: n in nodes[..|nodes| - 1] ==> n.name != last.name)
  }

  // ----- what the walk collects

  function PathsOf(files: seq<FoundFile>): (r: seq<Path>)
    ensures |r| == |files| && forall i :: 0 <= i < |files| ==> r[i] == files[i].path
  {
    seq(|files|, i requires 0 <= i < |files| => files[i].path)
  }

  function AllPaths(f: Found): seq<Path> {
    f.folders + PathsOf(f.files)
  }

  /** The path of a node or of something below it. */
  predicate Within(top: Path, p: Path) {
    p == top || (|p| > |top| && p[..|top|] == top && p[|top|] == '/')
  }

  /** Everything found lies below the prefix, right under it or under a folder that was found. */
  predicate Closed(prefix: Path, f: Found) {
    forall p :: p in AllPaths(f) ==> p != "" && (Parent(p) == prefix || (Parent(p) in f.folders && Parent(p) != ""))
  }

  lemma {:induction false} PathsOfBoth(a: seq<FoundFile>, b: seq<FoundFile>)
    ensures PathsOf(a + b) == PathsOf(a) + PathsOf(b)
  {
  }

  lemma {:induction false} InBoth(a: Found, b: Found, p: Path)
    ensures p in AllPaths(Both(a, b)) <==> p in AllPaths(a) || p in AllPaths(b)
  {
    PathsOfBoth(a.files, b.files);
  }

  lemma {:induction false} ClosedBoth(prefix: Path, a: Found, b: Found)
    requires Closed(prefix, a) && Closed(prefix, b)
    ensures Closed(prefix, Both(a, b))
  {
    forall p | p in AllPaths(Both(a, b))
      ensures p != "" && (Parent(p) == prefix || (Parent(p) in Both(a, b).folders && Parent(p) != ""))
    {
      InBoth(a, b, p);
    }
  }

  /** A node with nothing to look into is at most one path. */
  lemma {:induction false} WalkLeaf(prefix: Path, n: Node)
    requires !n.Folder? || !n.readable || '\\' in n.name
    ensures AllPaths(WalkOne(prefix, n)) <= [Under(prefix, n.name)]
  {
  }

  lemma {:induction false} WalkClosedOne(prefix: Path, n: Node)
    requires TidyOne(n)
    ensures Closed(prefix, WalkOne(prefix, n))
    decreases n
  {
    var path := Under(prefix, n.name);
    ParentUnder(prefix, n.name);
    if n.Folder? && n.readable && '\\' !in n.name {
      WalkClosed(path, n.children);
      ClosedOnTop(prefix, path, WalkOf(path, n.children));
    } else {
      WalkLeaf(prefix, n);
      ClosedAlone(prefix, path, WalkOne(prefix, n));
    }
  }

  lemma {:induction false} ClosedAlone(prefix: Path, path: Path, f: Found)
    requires path != "" && Parent(path) == prefix && AllPaths(f) <= [path]
    ensures Closed(prefix, f)
  {
  }

  lemma {:induction false} ClosedOnTop(prefix: Path, path: Path, inner: Found)
    requires path != "" && Parent(path) == prefix && Closed(path, inner)
    ensures Closed(prefix, Both(Found([path], []), inner))
  {
    var f := Both(Found([path], []), inner);
    assert path in f.folders;
    forall p | p in AllPaths(f)
      ensures p != "" && (Parent(p) == prefix || (Parent(p) in f.folders && Parent(p) != ""))
    {
      InBoth(Found([path], []), inner, p);
      assert AllPaths(Found([path], [])) == [path];
    }
  }

  /** Every path that is found is right under the start or under a folder that is found. */
  lemma {:induction false} WalkClosed(prefix: Path, nodes: seq<Node>)
    requires Tidy(nodes)
    ensures Closed(prefix, WalkOf(prefix, nodes))
    decreases nodes
  {
    if nodes != [] {
      WalkClosed(prefix, nodes[..|nodes| - 1]);
      WalkClosedOne(prefix, nodes[|nodes| - 1]);
      ClosedBoth(prefix, WalkOf(prefix, nodes[..|nodes| - 1]), WalkOne(prefix, nodes[|nodes| - 1]));
    }
  }

  lemma {:induction false} WithinDeeper(prefix: Path, name: string, p: Path)
    requires prefix != "" && Plain(name) && Within(Under(prefix, name), p)
    ensures Within(prefix, p) && p != prefix
  {
    assert Under(prefix, name)[..|prefix|] == prefix;
    assert p[..|prefix|] == p[..|prefix| + 1 + |name|][..|prefix|];
  }

  /** Different siblings have nothing in common. */
  lemma {:induction false} WithinApart(prefix: Path, a: string, b: string, p: Path)
    requires Plain(a) && Plain(b) && Within(Under(prefix, a), p) && Within(Under(prefix, b), p)
    ensures a == b
  {
    if |a| < |b| {
      NotBoth(prefix, a, b, p);
    } else if |b| < |a| {
      NotBoth(prefix, b, a, p);
    } else {
      assert Under(prefix, a) == Under(prefix, b);
      ParentUnder(prefix, a);
      ParentUnder(prefix, b);
    }
  }

  lemma {:induction false} NotBoth(prefix: Path, a: string, b: string, p: Path)
    requires Plain(a) && Plain(b) && |a| < |b|
    ensures !(Within(Under(prefix, a), p) && Within(Under(prefix, b), p))
  {
    var x, y := Under(prefix, a), Under(prefix, b);
    assert y[|x|] == b[|a|];
    assert Within(y, p) ==> p[|x|] == p[..|y|][|x|];
  }

  /** All of it lies below one of these siblings. */
  ghost predicate Below(prefix: Path, nodes: seq<Node>, f: Found) {
    forall p :: p in AllPaths(f) ==> exists n :: n in nodes && Within(Under(prefix, n.name), p)
  }

  lemma {:induction false} WalkBelow(prefix: Path, nodes: seq<Node>)
    requires Tidy(nodes)
    ensures Below(prefix, nodes, WalkOf(prefix, nodes)) && Distinct(AllPaths(WalkOf(prefix, nodes)))
    decreases nodes
  {
    if nodes != [] {
      var before, last := nodes[..|nodes| - 1], nodes[|nodes| - 1];
      var a, b := WalkOf(prefix, before), WalkOne(prefix, last);
      WalkBelow(prefix, before);
      WalkBelowOne(prefix, last);
      forall p | p in AllPaths(Both(a, b))
        ensures exists n :: n in nodes && Within(Under(prefix, n.name), p)
      {
        InBoth(a, b, p);
        if p in AllPaths(a) {
          var n :| n in before && Within(Under(prefix, n.name), p);
          assert n in nodes;
        } else {
          assert last in nodes && Within(Under(prefix, last.name), p);
        }
      }
      forall p | p in AllPaths(a) && p in AllPaths(b)
        ensures false
      {
        var n :| n in before && Within(Under(prefix, n.name), p);
        TidyIn(before, n);
        WithinApart(prefix, n.name, last.name, p);
      }
      DistinctBoth(a, b);
    }
  }

  lemma {:induction false} TidyIn(nodes: seq<Node>, n: Node)
    requires Tidy(nodes) && n in nodes
    ensures TidyOne(n)
    decreases |nodes|
  {
    if n != nodes[|nodes| - 1] { TidyIn(nodes[..|nodes| - 1], n); }
  }

  lemma {:induction false} DistinctAppend<T>(a: seq<T>, b: seq<T>)
    requires Distinct(a) && Distinct(b) && forall x :: x in a ==> x !in b
    ensures Distinct(a + b)
  {
    forall i, j | 0 <= i < j < |a + b|
      ensures (a + b)[i] != (a + b)[j]
    {
      if i < |a| <= j { assert a[i] in a && b[j - |a|] in b; }
    }
  }

  lemma {:induction false} DistinctBoth(a: Found, b: Found)
    requires Distinct(AllPaths(a)) && Distinct(AllPaths(b)) && forall p :: p in AllPaths(a) ==> p !in AllPaths(b)
    ensures Distinct(AllPaths(Both(a, b)))
  {
    PathsOfBoth(a.files, b.files);
    var fa, fb, pa, pb := a.folders, b.folders, PathsOf(a.files), PathsOf(b.files);
    DistinctParts(fa, pa);
    DistinctParts(fb, pb);
    DistinctAppend(fa, fb);
    DistinctAppend(pa, pb);
    DistinctAppend(fa + fb, pa + pb);
  }

  lemma {:induction false} DistinctParts<T>(a: seq<T>, b: seq<T>)
    requires Distinct(a + b)
    ensures Distinct(a) && Distinct(b)
    ensures forall x :: x in a ==> x in a + b && x !in b
    ensures forall x :: x in b ==> x in a + b
  {
    var all := a + b;
    forall i, j | 0 <= i < j < |a|
      ensures a[i] != a[j]
    {
      assert all[i] == a[i] && all[j] == a[j];
    }
    forall i, j | 0 <= i < j < |b|
      ensures b[i] != b[j]
    {
      assert all[|a| + i] == b[i] && all[|a| + j] == b[j];
    }
    forall i, j | 0 <= i < |a| && 0 <= j < |b|
      ensures a[i] != b[j]
    {
      assert all[i] == a[i] && all[|a| + j] == b[j];
    }
  }

  lemma {:induction false} WalkBelowOne(prefix: Path, n: Node)
    requires TidyOne(n)
    ensures forall p :: p in AllPaths(WalkOne(prefix, n)) ==> Within(Under(prefix, n.name), p)
    ensures Distinct(AllPaths(WalkOne(prefix, n)))
    decreases n
  {
    var path := Under(prefix, n.name);
    if n.Folder? && n.readable && '\\' !in n.name {
      var top, inner := Found([path], []), WalkOf(path, n.children);
      WalkBelow(path, n.children);
      ParentUnder(prefix, n.name);
      forall p | p in AllPaths(inner)
        ensures Within(path, p) && p != path
      {
        var c :| c in n.children && Within(Under(path, c.name), p);
        TidyIn(n.children, c);
        WithinDeeper(path, c.name, p);
      }
      forall p | p in AllPaths(WalkOne(prefix, n))
        ensures Within(path, p)
      {
        InBoth(top, inner, p);
      }
      assert AllPaths(top) == [path];
      DistinctBoth(top, inner);
    }
  }

  // ----- the folders, shallow ones first

  predicate Ordered(folders: seq<Path>) {
    forall i, j :: 0 <= i < j < |folders| ==> Depth(folders[i]) <= Depth(folders[j])
  }

  /** Behind everything that is not deeper. */
  function Insert(folders: seq<Path>, p: Path): (r: seq<Path>)
    ensures |r| == |folders| + 1
  {
    if folders == [] || Depth(folders[|folders| - 1]) <= Depth(p) then folders + [p]
    else Insert(folders[..|folders| - 1], p) + [folders[|folders| - 1]]
  }

  /** The stable order the folders are visited in. */
  function ByDepth(folders: seq<Path>): (r: seq<Path>)
    ensures |r| == |folders|
  {
    if folders == [] then [] else Insert(ByDepth(folders[..|folders| - 1]), folders[|folders| - 1])
  }

  lemma {:induction false} InsertKeeps(folders: seq<Path>, p: Path)
    ensures multiset(Insert(folders, p)) == multiset(folders) + multiset{p}
  {
    if folders != [] {
      var before, last := folders[..|folders| - 1], folders[|folders| - 1];
      assert folders == before + [last];
      InsertKeeps(before, p);
    }
  }

  lemma {:induction false} InsertOrders(folders: seq<Path>, p: Path)
    requires Ordered(folders)
    ensures Ordered(Insert(folders, p))
  {
    if folders != [] && Depth(folders[|folders| - 1]) > Depth(p) {
      var before, last := folders[..|folders| - 1], folders[|folders| - 1];
      var r := Insert(before, p);
      InsertOrders(before, p);
      InsertKeeps(before, p);
      forall i | 0 <= i < |r|
        ensures Depth(r[i]) <= Depth(last)
      {
        assert r[i] in multiset(r);
        if r[i] != p { assert r[i] in before; }
      }
    }
  }

  /** Visiting by depth visits the same folders, each as often, and none before a shallower one. */
  lemma {:induction false} ByDepthOrders(folders: seq<Path>)
    ensures Ordered(ByDepth(folders)) && multiset(ByDepth(folders)) == multiset(folders)
  {
    if folders != [] {
      var before, last := folders[..|folders| - 1], folders[|folders| - 1];
      assert folders == before + [last];
      ByDepthOrders(before);
      InsertOrders(ByDepth(before), last);
      InsertKeeps(ByDepth(before), last);
    }
  }

  lemma {:induction false} InsertApart(folders: seq<Path>, p: Path)
    requires Distinct(folders) && p !in folders
    ensures Distinct(Insert(folders, p))
  {
    if folders != [] && Depth(folders[|folders| - 1]) > Depth(p) {
      var before, last := folders[..|folders| - 1], folders[|folders| - 1];
      InsertApart(before, p);
      InsertKeeps(before, p);
      assert last in multiset(Insert(before, p)) <==> last in multiset(before) || last == p;
      assert last !in before;
    }
  }

  lemma {:induction false} ByDepthApart(folders: seq<Path>)
    requires Distinct(folders)
    ensures Distinct(ByDepth(folders)) && forall p :: p in ByDepth(folders) <==> p in folders
  {
    ByDepthOrders(folders);
    assert forall p :: p in ByDepth(folders) <==> p in multiset(ByDepth(folders));
    if folders != [] {
      var before, last := folders[..|folders| - 1], folders[|folders| - 1];
      ByDepthApart(before);
      assert last !in before;
      InsertApart(ByDepth(before), last);
    }
  }

  lemma {:induction false} ParentShallower(p: Path)
    requires Parent(p) != ""
    ensures Depth(Parent(p)) < Depth(p)
  {
    var i := LastSlash(p);
    assert p == p[..i] + (p[i..i + 1] + p[i + 1..]);
    DepthAppend(p[..i], p[i..i + 1] + p[i + 1..]);
    DepthAppend(p[i..i + 1], p[i + 1..]);
    assert p[i..i + 1] == "/";
    assert "/"[..0] == "";
    assert Depth("/") == 1;
  }

  /** Visited by depth, every found folder comes after its parent. */
  lemma {:induction false} ParentsBefore(f: Found, k: nat)
    requires Closed("", f) && Distinct(f.folders) && k < |f.folders|
    ensures var p := Parent(ByDepth(f.folders)[k]); p == "" || p in ByDepth(f.folders)[..k]
  {
    var order := ByDepth(f.folders);
    ByDepthApart(f.folders);
    ByDepthOrders(f.folders);
    var p := Parent(order[k]);
    assert order[k] in order && order[k] in AllPaths(f);
    if p != "" {
      ParentShallower(order[k]);
      assert p in order;
      var j :| 0 <= j < |order| && order[j] == p;
      assert j < k;
      assert order[..k][j] == p;
    }
  }

  // ----- the walk itself

  /** The two lists the walk appends to. */
  class Walker {
    var folders: seq<Path>
    var files: seq<FoundFile>

    function Shown(): Found
      reads this
    {
      Found(folders, files)
    }

    constructor ()
      ensures Shown() == Found([], [])
    {
      folders, files := [], [];
    }

    method Walk(prefix: Path, entries: seq<Node>)
      modifies this
      ensures Shown() == Both(old(Shown()), WalkOf(prefix, entries))
      decreases entries
    {
      ghost var before := Shown();
      assert entries[..0] == [];
      for i := 0 to |entries|
        invariant Shown() == Both(before, WalkOf(prefix, entries[..i]))
      {
        assert entries[..i + 1][..i] == entries[..i];
        BothTwice(before, WalkOf(prefix, entries[..i]), WalkOne(prefix, entries[i]));
        Enter(prefix, entries[i]);
      }
      assert entries[..|entries|] == entries;
    }

    /** One turn of the loop. */
    method Enter(prefix: Path, n: Node)
      modifies this
      ensures Shown() == Both(old(Shown()), WalkOne(prefix, n))
      decreases n
    {
      if '\\' !in n.name && !n.Link? {
        var path := Under(prefix, n.name);
        if n.Folder? {
          folders := folders + [path];
          if n.readable { Walk(path, n.children); }
        } else if n.supported {
          files := files + [FoundFile(path, n.info)];
        }
      }
    }
  }

  lemma BothTwice(a: Found, b: Found, c: Found)
    ensures Both(Both(a, b), c) == Both(a, Both(b, c))
  {
  }
}

/** The roots a new configuration starts with: conventional places, else what a bounded search for projects claims. */
module DetectRoots {
  import opened Paths
  import opened FileSystem
  import opened Options
  import opened Resolve

  const CONVENTIONAL_CODE_DIRS: seq<Name> := [
    "code", "src", "dev", "Developer", "projects", "Projects", "repos", "work", "git", "workspace"]

  const NEVER_SCAN: seq<Name> := [
    "Library", "Applications", "Movies", "Music", "Pictures", "Photos", "Public", "Desktop", "Downloads"]

  const PROJECT_MARKERS: seq<Name> := [
    ".git", "Cargo.toml", "package.json", "go.mod", "pyproject.toml", "build.gradle", "build.gradle.kts",
    "Package.swift"]

  const SEARCH_DEPTH: nat := 3
  const ENTRY_LIMIT: nat := 500

  /** A home directory, the tree it is in, and what `read_dir` lists of each directory, if it may be read. */
  datatype Home = Home(tree: Tree, path: Path, list: Path -> Option<seq<Name>>)
  {
    /** `is_dir` */
    predicate IsDir(p: Path) {
      var c := Canonicalize(tree, p);
      c.Some? && c.value in tree && tree[c.value] == Dir
    }

    /** `is_symlink` */
    predicate IsSymlink(p: Path) {
      var n := LStat(tree, p);
      n.Some? && n.value.Symlink?
    }

    /** The entries looked at. */
    function Entries(dir: Path): seq<Name> {
      match list(dir)
      case None => []
      case Some(names) => if |names| < ENTRY_LIMIT then names else names[..ENTRY_LIMIT]
    }

    predicate RealSubdir(p: Path) {
      IsDir(p) && !IsSymlink(p)
    }

    predicate IsProject(p: Path) {
      exists m :: m in PROJECT_MARKERS && Canonicalize(tree, p + [m]).Some?
    }

    predicate Skipped(dir: Path, name: Name) {
      (name != [] && name[0] == '.') || (dir == path && name in NEVER_SCAN)
    }

    /** The subdirectories a search of `dir` goes on to. */
    predicate GoesOn(dir: Path, name: Name) {
      name in Entries(dir) && RealSubdir(dir + [name]) && !Skipped(dir, name)
    }

    /** `dir` directly holds a project; a project may hide behind a name the search skips. */
    predicate Holds(dir: Path) {
      exists n :: n in Entries(dir) && RealSubdir(dir + [n]) && IsProject(dir + [n])
    }
  }

  /** `d` lies within reach of the search below home. */
  ghost predicate Scannable(h: Home, d: Path) {
    h.path <= d && |d| <= |h.path| + SEARCH_DEPTH && Chain(h, d)
  }

  ghost predicate Chain(h: Home, d: Path) {
    forall i :: |h.path| <= i < |d| ==> h.GoesOn(d[..i], d[i])
  }

  /** No directory strictly between home and `d` holds a project. */
  ghost predicate Unclaimed(h: Home, d: Path) {
    forall i :: |h.path| < i < |d| ==> !h.Holds(d[..i])
  }

  /** The shallowest directories on their branch that hold a project. */
  ghost predicate Claimed(h: Home, d: Path) {
    Scannable(h, d) && d != h.path && h.Holds(d) && Unclaimed(h, d)
  }

  // ------------------------------------------------------------- the search

  datatype Pending = Pending(path: Path, depth: nat)

  ghost predicate Queued(h: Home, p: Pending) {
    && h.path <= p.path && p.depth == |p.path| - |h.path| && p.depth <= SEARCH_DEPTH + 1
    && Chain(h, p.path) && Unclaimed(h, p.path)
  }

  ghost predicate Ahead(queue: seq<Pending>, d: Path) {
    exists p :: p in queue && p.path <= d
  }

  ghost predicate Searching(h: Home, queue: seq<Pending>, found: seq<Path>) {
    && (forall p :: p in queue ==> Queued(h, p))
    && (forall d :: d in found ==> Claimed(h, d))
    && (forall d :: Claimed(h, d) ==> d in found || Ahead(queue, d))
  }

  /** The directories a search of `dir` can still visit. */
  ghost function Work(h: Home, dir: Path, depth: nat): nat
    decreases SEARCH_DEPTH + 1 - depth, 0
  {
    1 + if depth > SEARCH_DEPTH then 0 else WorkBelow(h, dir, h.Entries(dir), depth)
  }

  ghost function WorkBelow(h: Home, dir: Path, names: seq<Name>, depth: nat): nat
    requires depth <= SEARCH_DEPTH
    decreases SEARCH_DEPTH + 1 - depth, 0, |names|
  {
    if names == [] then 0
    else
      var n := names[|names| - 1];
      WorkBelow(h, dir, names[..|names| - 1], depth) + Work(h, dir + [n], depth + 1)
  }

  ghost function WorkOf(h: Home, dirs: seq<Path>, depth: nat): nat {
    if dirs == [] then 0 else WorkOf(h, dirs[..|dirs| - 1], depth) + Work(h, dirs[|dirs| - 1], depth)
  }

  ghost function WorkAhead(h: Home, queue: seq<Pending>): nat {
    if queue == [] then 0
    else
      var p := queue[|queue| - 1];
      WorkAhead(h, queue[..|queue| - 1]) + Work(h, p.path, p.depth)
  }

  lemma WorkSnoc(h: Home, dirs: seq<Path>, dir: Path, depth: nat)
    ensures WorkOf(h, dirs + [dir], depth) == WorkOf(h, dirs, depth) + Work(h, dir, depth)
  {
  }

  lemma AheadSnoc(h: Home, queue: seq<Pending>, p: Pending)
    ensures WorkAhead(h, queue + [p]) == WorkAhead(h, queue) + Work(h, p.path, p.depth)
  {
  }

  lemma BelowSnoc(h: Home, dir: Path, names: seq<Name>, name: Name, depth: nat)
    requires depth <= SEARCH_DEPTH
    ensures WorkBelow(h, dir, names + [name], depth)
            == WorkBelow(h, dir, names, depth) + Work(h, dir + [name], depth + 1)
  {
  }

  // ------------------------------------------------------------- one directory

  ghost predicate AmongHolds(h: Home, dir: Path, names: seq<Name>) {
    exists n :: n in names && h.RealSubdir(dir + [n]) && h.IsProject(dir + [n])
  }

  /** `children` are the subdirectories the search goes on to, of the entries `names`. */
  ghost predicate Children(h: Home, dir: Path, names: seq<Name>, children: seq<Path>) {
    && (forall c :: c in children ==> c != [] && Parent(c) == dir && h.GoesOn(dir, Last(c)))
    && (forall n :: n in names && h.GoesOn(dir, n) ==> dir + [n] in children)
  }

  method SearchDir(h: Home, dir: Path, depth: nat) returns (children: seq<Path>, holdsProject: bool)
    requires depth <= SEARCH_DEPTH
    ensures Children(h, dir, h.Entries(dir), children)
    ensures holdsProject <==> h.Holds(dir)
    ensures WorkOf(h, children, depth + 1) < Work(h, dir, depth)
  {
    hide Home.RealSubdir, Home.IsProject, Home.Skipped, WorkOf, WorkBelow;
    children, holdsProject := [], false;
    var entries := h.Entries(dir);
    assert entries[..|entries|] == entries;
    NoWork(h, dir, depth);
    for i := 0 to |entries|
      invariant Children(h, dir, entries[..i], children)
      invariant holdsProject <==> AmongHolds(h, dir, entries[..i])
      invariant WorkOf(h, children, depth + 1) <= WorkBelow(h, dir, entries[..i], depth)
    {
      var name := entries[i];
      var path := dir + [name];
      assert Parent(path) == dir && Last(path) == name;
      assert entries[..i + 1] == entries[..i] + [name];
      BelowSnoc(h, dir, entries[..i], name, depth);
      if !h.RealSubdir(path) {
        continue;
      }
      if h.IsProject(path) {
        holdsProject := true;
      }
      if h.Skipped(dir, name) {
        continue;
      }
      WorkSnoc(h, children, path, depth + 1);
      children := children + [path];
    }
  }

  lemma NoWork(h: Home, dir: Path, depth: nat)
    requires depth <= SEARCH_DEPTH
    ensures WorkOf(h, [], depth + 1) == 0 && WorkBelow(h, dir, [], depth) == 0
  {
  }

  // ------------------------------------------------------------- steps of the search

  lemma Underneath(d: Path, p: Path)
    requires p < d
    ensures d[..|p|] == p && p + [d[|p|]] <= d
  {
  }

  /** A directory too deep, or without readable entries, has nothing below it to claim. */
  lemma NoneBelow(h: Home, p: Pending, d: Path)
    requires Queued(h, p) && Claimed(h, d) && p.path <= d
    ensures p.depth <= SEARCH_DEPTH
    ensures h.list(p.path).Some?
  {
    hide Home.RealSubdir, Home.IsProject, Home.Skipped;
    if p.path != d {
      Underneath(d, p.path);
      assert h.GoesOn(d[..|p.path|], d[|p.path|]);
    }
  }

  /** A claimed directory stands for all below it. */
  lemma ClaimedWhole(h: Home, p: Pending, d: Path)
    requires Queued(h, p) && Claimed(h, d) && p.path <= d && h.Holds(p.path) && p.path != h.path
    ensures d == p.path
  {
    hide Home.GoesOn, Home.Holds;
    assert d[..|p.path|] == p.path && d[..|d|] == d;
  }

  /** Going on to the children loses nothing, when the directory itself is not claimed. */
  lemma GoOn(h: Home, p: Pending, children: seq<Path>, d: Path)
    requires Queued(h, p) && Claimed(h, d) && p.path <= d && (p.path == h.path || !h.Holds(p.path))
    requires Children(h, p.path, h.Entries(p.path), children)
    ensures exists c :: c in children && c <= d
  {
    hide Home.RealSubdir, Home.IsProject, Home.Skipped, Home.Holds;
    assert d[..|p.path|] == p.path && d[..|d|] == d;
    Underneath(d, p.path);
    assert h.GoesOn(d[..|p.path|], d[|p.path|]);
    assert p.path + [d[|p.path|]] in children;
  }

  lemma ChildQueued(h: Home, p: Pending, child: Path)
    requires Queued(h, p) && p.depth <= SEARCH_DEPTH && (p.path == h.path || !h.Holds(p.path))
    requires child != [] && Parent(child) == p.path && h.GoesOn(p.path, Last(child))
    ensures Queued(h, Pending(child, p.depth + 1))
  {
    hide Home.GoesOn, Home.Holds;
    assert forall i :: 0 <= i <= |p.path| ==> child[..i] == p.path[..i];
    assert forall i :: 0 <= i < |p.path| ==> child[i] == p.path[i];
  }

  lemma ClaimHere(h: Home, p: Pending)
    requires Queued(h, p) && p.depth <= SEARCH_DEPTH && h.Holds(p.path) && p.path != h.path
    ensures Claimed(h, p.path)
  {
  }

  method Search(h: Home) returns (found: seq<Path>)
    ensures forall d :: d in found <==> Claimed(h, d)
  {
    hide Queued, Claimed, WorkAhead, Work, WorkOf, Children, Home.Holds, Home.GoesOn;
    found := [];
    var queue: seq<Pending> := [Pending(h.path, 0)];
    SearchStarts(h);
    while queue != []
      invariant Searching(h, queue, found)
      decreases WorkAhead(h, queue)
    {
      var p := queue[|queue| - 1];
      ghost var was := queue;
      queue := queue[..|queue| - 1];
      assert was == queue + [p];
      AheadSnoc(h, queue, p);
      SomeWork(h, p.path, p.depth);
      if p.depth > SEARCH_DEPTH {
        Drop(h, queue, p, found);
        continue;
      }
      if h.list(p.path).None? {
        Drop(h, queue, p, found);
        continue;
      }
      var children, holdsProject := SearchDir(h, p.path, p.depth);
      if holdsProject && p.path != h.path {
        Claim(h, queue, p, found);
        found := found + [p.path];
        continue;
      }
      ghost var base := queue;
      assert children[..|children|] == children;
      NothingOf(h, p.depth + 1);
      for i := 0 to |children|
        invariant queue == base + Nested(children[..i], p.depth + 1)
        invariant WorkAhead(h, queue) == WorkAhead(h, base) + WorkOf(h, children[..i], p.depth + 1)
      {
        assert children[..i + 1] == children[..i] + [children[i]];
        WorkSnoc(h, children[..i], children[i], p.depth + 1);
        AheadSnoc(h, queue, Pending(children[i], p.depth + 1));
        queue := queue + [Pending(children[i], p.depth + 1)];
      }
      Expand(h, base, p, children, found);
    }
  }

  function Nested(children: seq<Path>, depth: nat): seq<Pending> {
    seq(|children|, i requires 0 <= i < |children| => Pending(children[i], depth))
  }

  lemma NothingOf(h: Home, depth: nat)
    ensures WorkOf(h, [], depth) == 0
  {
  }

  lemma SomeWork(h: Home, dir: Path, depth: nat)
    ensures Work(h, dir, depth) > 0
  {
  }

  lemma SearchStarts(h: Home)
    ensures Searching(h, [Pending(h.path, 0)], [])
  {
  }

  lemma Drop(h: Home, queue: seq<Pending>, p: Pending, found: seq<Path>)
    requires Searching(h, queue + [p], found) && (p.depth > SEARCH_DEPTH || h.list(p.path).None?)
    ensures Searching(h, queue, found)
  {
    hide Queued, Claimed;
    forall d | Claimed(h, d) && d !in found ensures Ahead(queue, d) {
      var x :| x in queue + [p] && x.path <= d;
      if x == p {
        NoneBelow(h, p, d);
        assert false;
      }
    }
  }

  lemma Claim(h: Home, queue: seq<Pending>, p: Pending, found: seq<Path>)
    requires Searching(h, queue + [p], found) && p.depth <= SEARCH_DEPTH && h.Holds(p.path) && p.path != h.path
    ensures Searching(h, queue, found + [p.path])
  {
    hide Queued, Claimed, Home.Holds;
    assert p in queue + [p];
    ClaimHere(h, p);
    forall d | Claimed(h, d) && d !in found + [p.path] ensures Ahead(queue, d) {
      var x :| x in queue + [p] && x.path <= d;
      if x == p {
        ClaimedWhole(h, p, d);
        assert false;
      }
    }
  }

  lemma Expand(h: Home, queue: seq<Pending>, p: Pending, children: seq<Path>, found: seq<Path>)
    requires Searching(h, queue + [p], found) && p.depth <= SEARCH_DEPTH && (p.path == h.path || !h.Holds(p.path))
    requires Children(h, p.path, h.Entries(p.path), children)
    ensures Searching(h, queue + Nested(children, p.depth + 1), found)
  {
    hide Queued, Claimed, Home.Holds, Home.GoesOn;
    var nested := Nested(children, p.depth + 1);
    assert p in queue + [p];
    forall x | x in queue + nested ensures Queued(h, x) {
      if x !in queue {
        assert x in nested;
        assert x.path in children && x.depth == p.depth + 1;
        ChildQueued(h, p, x.path);
      }
    }
    forall d | Claimed(h, d) && d !in found ensures Ahead(queue + nested, d) {
      var x :| x in queue + [p] && x.path <= d;
      if x == p {
        GoOn(h, p, children, d);
        var c :| c in children && c <= d;
        var i :| 0 <= i < |children| && children[i] == c;
        assert nested[i] == Pending(c, p.depth + 1);
        assert nested[i] in queue + nested;
      } else {
        assert x in queue + nested;
      }
    }
  }

  // ------------------------------------------------------------- what the search finds

  /** No claimed directory lies in another. */
  lemma ClaimedApart(h: Home, d: Path, e: Path)
    requires Claimed(h, d) && Claimed(h, e) && d <= e
    ensures d == e
  {
    hide Home.Holds, Home.GoesOn;
    assert e[..|d|] == d && e[..|e|] == e;
  }

  /** Every directory in reach that holds a project is claimed or lies in a claimed one. */
  lemma {:induction false} ClaimedAlong(h: Home, d: Path) returns (e: Path)
    requires Scannable(h, d) && d != h.path && h.Holds(d)
    ensures Claimed(h, e) && e <= d
    decreases |d|
  {
    hide Home.Holds, Home.GoesOn;
    if Unclaimed(h, d) {
      e := d;
    } else {
      var i :| |h.path| < i < |d| && h.Holds(d[..i]);
      assert forall j :: 0 <= j <= i ==> d[..i][..j] == d[..j];
      e := ClaimedAlong(h, d[..i]);
    }
  }

  // ------------------------------------------------------------- dropping what is covered

  ghost predicate Antichain(roots: seq<Path>) {
    forall i, j :: 0 <= i < j < |roots| ==> Apart(roots[i], roots[j])
  }

  ghost predicate CoveredBy(d: Path, roots: seq<Path>) {
    exists r :: r in roots && r <= d
  }

  /** `roots` are the outermost of the directories `found`. */
  ghost predicate Outermost(found: seq<Path>, roots: seq<Path>) {
    && Antichain(roots) && SortedBy(roots, PathLeq)
    && (forall r :: r in roots ==> r in found)
    && (forall d :: d in found ==> CoveredBy(d, roots))
  }

  /** Sorting puts ancestors first, so one pass leaves the outermost directories. */
  method DropCovered(found: seq<Path>) returns (roots: seq<Path>)
    requires SortedBy(found, PathLeq)
    ensures Outermost(found, roots)
  {
    hide PathLeq, Outermost, SortedBy;
    roots := [];
    assert found[..|found|] == found;
    assert Outermost([], []) by { NoneFound(); }
    for i := 0 to |found|
      invariant Outermost(found[..i], roots)
    {
      var candidate := found[i];
      assert found[..i + 1] == found[..i] + [candidate];
      if exists r :: r in roots && r <= candidate {
        AlreadyCovered(found[..i], roots, candidate);
        continue;
      }
      SortedBefore(found, i);
      KeepOne(found[..i], roots, candidate);
      roots := roots + [candidate];
    }
  }

  lemma NoneFound()
    ensures Outermost([], [])
  {
  }

  lemma SortedBefore(found: seq<Path>, i: nat)
    requires SortedBy(found, PathLeq) && i < |found|
    ensures forall d :: d in found[..i] ==> PathLeq(d, found[i])
  {
  }

  lemma AlreadyCovered(found: seq<Path>, roots: seq<Path>, candidate: Path)
    requires Outermost(found, roots) && CoveredBy(candidate, roots)
    ensures Outermost(found + [candidate], roots)
  {
    hide PathLeq, CoveredBy;
  }

  lemma ApartSnoc(roots: seq<Path>, d: Path)
    requires Antichain(roots) && forall r :: r in roots ==> Apart(r, d)
    ensures Antichain(roots + [d])
  {
  }

  lemma SortedSnoc(roots: seq<Path>, d: Path)
    requires SortedBy(roots, PathLeq) && forall r :: r in roots ==> PathLeq(r, d)
    ensures SortedBy(roots + [d], PathLeq)
  {
  }

  lemma KeepOne(found: seq<Path>, roots: seq<Path>, candidate: Path)
    requires Outermost(found, roots) && !CoveredBy(candidate, roots)
    requires forall d :: d in found ==> PathLeq(d, candidate)
    ensures Outermost(found + [candidate], roots + [candidate])
  {
    hide PathLeq, Apart, Antichain, SortedBy;
    forall r | r in roots ensures PathLeq(r, candidate) && Apart(r, candidate) {
      SortedApart(r, candidate);
    }
    ApartSnoc(roots, candidate);
    SortedSnoc(roots, candidate);
    forall d | d in found + [candidate] ensures CoveredBy(d, roots + [candidate]) {
      if d == candidate {
        assert candidate in roots + [candidate] && candidate <= d;
      } else {
        var r :| r in roots && r <= d;
        assert r in roots + [candidate];
      }
    }
  }

  lemma SortedApart(r: Path, d: Path)
    requires PathLeq(r, d) && !(r <= d)
    ensures Apart(r, d)
  {
    PathOrderStrict();
    if d <= r {
      AncestorFirst(d, r);
      LeqNotEqual(r, d);
      assert false;
    }
  }

  // ------------------------------------------------------------- what is looked for

  /** Among the first five hundred entries listed. */
  ghost predicate Looked(h: Home, dir: Path, n: Name) {
    exists names, i :: h.list(dir) == Some(names) && 0 <= i < |names| && i < 500 && names[i] == n
  }

  ghost predicate Directory(h: Home, p: Path) {
    exists c :: Canonicalize(h.tree, p) == Some(c) && c in h.tree && h.tree[c] == Dir
  }

  /** A directory, and not by way of a link. */
  ghost predicate DirectoryItself(h: Home, p: Path) {
    Directory(h, p) && forall node :: LStat(h.tree, p) == Some(node) ==> !node.Symlink?
  }

  predicate Marker(n: Name) {
    n in {".git", "Cargo.toml", "package.json", "go.mod", "pyproject.toml", "build.gradle", "build.gradle.kts",
          "Package.swift"}
  }

  predicate NeverCode(n: Name) {
    n in {"Library", "Applications", "Movies", "Music", "Pictures", "Photos", "Public", "Desktop", "Downloads"}
  }

  /** One of the entries looked at is a directory with the mark of a project. */
  ghost predicate HoldsProject(h: Home, dir: Path) {
    exists n, m :: Looked(h, dir, n) && DirectoryItself(h, dir + [n])
                   && Marker(m) && Canonicalize(h.tree, (dir + [n]) + [m]).Some?
  }

  /** The search goes on to this entry: not a hidden one, and in the home directory not one that never holds code. */
  ghost predicate Followed(h: Home, dir: Path, n: Name) {
    Looked(h, dir, n) && DirectoryItself(h, dir + [n]) && !("." <= n) && !(dir == h.path && NeverCode(n))
  }

  /** At most three levels below the home directory, and followed all the way. */
  ghost predicate InReach(h: Home, d: Path) {
    h.path < d && |d| <= |h.path| + 3 && forall i :: |h.path| <= i < |d| ==> Followed(h, d[..i], d[i])
  }

  /** In reach, holding a project, and in no directory below home that holds one. */
  ghost predicate ToDeclare(h: Home, d: Path) {
    InReach(h, d) && HoldsProject(h, d) && forall i :: |h.path| < i < |d| ==> !HoldsProject(h, d[..i])
  }

  lemma LookedMeans(h: Home, dir: Path, n: Name)
    ensures n in h.Entries(dir) <==> Looked(h, dir, n)
  {
    if h.list(dir).Some? {
      var names := h.list(dir).value;
      if n in h.Entries(dir) {
        var i :| 0 <= i < |h.Entries(dir)| && h.Entries(dir)[i] == n;
        assert names[i] == n;
      }
      if Looked(h, dir, n) {
        var i :| 0 <= i < |names| && i < 500 && names[i] == n;
        assert h.Entries(dir)[i] == n;
      }
    }
  }

  lemma MarkerNames()
    ensures forall n :: n in PROJECT_MARKERS <==> Marker(n)
    ensures forall n :: n in NEVER_SCAN <==> NeverCode(n)
  {
  }

  lemma HoldsMeans(h: Home, dir: Path)
    ensures h.Holds(dir) <==> HoldsProject(h, dir)
  {
    hide PROJECT_MARKERS, NEVER_SCAN, Marker, NeverCode, Canonicalize, LStat, Home.Entries, Looked;
    MarkerNames();
    forall n ensures n in h.Entries(dir) <==> Looked(h, dir, n) { LookedMeans(h, dir, n); }
    forall p: Path ensures h.RealSubdir(p) <==> DirectoryItself(h, p) {
    }
  }

  lemma GoesOnMeans(h: Home, dir: Path, n: Name)
    ensures h.GoesOn(dir, n) <==> Followed(h, dir, n)
  {
    hide PROJECT_MARKERS, NEVER_SCAN, Marker, NeverCode, Canonicalize, LStat, Home.Entries, Looked;
    MarkerNames();
    LookedMeans(h, dir, n);
    assert h.RealSubdir(dir + [n]) <==> DirectoryItself(h, dir + [n]);
    assert "." <= n <==> n != [] && n[0] == '.';
  }

  lemma ScannableMeans(h: Home, d: Path)
    ensures Scannable(h, d) && d != h.path <==> InReach(h, d)
  {
    hide Home.GoesOn, Followed;
    forall i | |h.path| <= i < |d| ensures h.GoesOn(d[..i], d[i]) <==> Followed(h, d[..i], d[i]) {
      GoesOnMeans(h, d[..i], d[i]);
    }
  }

  /** What the search claims is what is to be declared. */
  lemma ClaimedMeans(h: Home, d: Path)
    ensures Claimed(h, d) <==> ToDeclare(h, d)
  {
    hide Home.Holds, HoldsProject, Scannable, InReach;
    ScannableMeans(h, d);
    HoldsMeans(h, d);
    forall i | |h.path| < i < |d| ensures h.Holds(d[..i]) <==> HoldsProject(h, d[..i]) { HoldsMeans(h, d[..i]); }
  }

  // ------------------------------------------------------------- the whole

  function ConventionalDirs(h: Home, names: seq<Name>): seq<Path> {
    if names == [] then []
    else (if h.IsDir(h.path + [names[0]]) then [h.path + [names[0]]] else []) + ConventionalDirs(h, names[1..])
  }

  /** The names people keep code under, the preferred ones first. */
  ghost function CodeNames(): seq<Name> {
    ["code", "src", "dev", "Developer", "projects", "Projects", "repos", "work", "git", "workspace"]
  }

  /** At these places of the names stand those that are directories under home, and they are the roots. */
  ghost predicate ConventionalAt(h: Home, names: seq<Name>, places: seq<nat>, roots: seq<Path>) {
    && Increasing(places) && |places| == |roots|
    && (forall i: nat :: i in places <==> i < |names| && Directory(h, h.path + [names[i]]))
    && (forall k :: 0 <= k < |roots| ==> places[k] in places && roots[k] == h.path + [names[places[k]]])
  }

  lemma {:induction false} ConventionalPlaces(h: Home, names: seq<Name>) returns (places: seq<nat>)
    ensures ConventionalAt(h, names, places, ConventionalDirs(h, names))
  {
    if names == [] {
      places := [];
    } else {
      hide ConventionalAt, ConventionalDirs, Directory;
      var n := |names| - 1;
      places := ConventionalPlaces(h, names[..n]);
      ConventionalSnoc(h, names[..n], names[n]);
      NextConventional(h, names[..n], names[n], places, ConventionalDirs(h, names[..n]));
      assert names == names[..n] + [names[n]];
      places := places + if Directory(h, h.path + [names[n]]) then [n] else [];
    }
  }

  lemma {:induction false} ConventionalSnoc(h: Home, names: seq<Name>, name: Name)
    ensures ConventionalDirs(h, names + [name])
            == ConventionalDirs(h, names) + if Directory(h, h.path + [name]) then [h.path + [name]] else []
  {
    if names == [] {
      assert [] + [name] == [name];
      assert ConventionalDirs(h, [name]) == if h.IsDir(h.path + [name]) then [h.path + [name]] else [];
    } else {
      assert (names + [name])[1..] == names[1..] + [name];
      ConventionalSnoc(h, names[1..], name);
    }
  }

  lemma NextConventional(h: Home, names: seq<Name>, name: Name, places: seq<nat>, roots: seq<Path>)
    requires ConventionalAt(h, names, places, roots)
    ensures var more := Directory(h, h.path + [name]);
            ConventionalAt(h, names + [name], places + if more then [|names|] else [],
                           roots + if more then [h.path + [name]] else [])
  {
    hide Directory;
    NextPlace(places, |names|);
    assert places + [] == places && roots + [] == roots;
  }

  ghost predicate SomeConventional(h: Home) {
    exists i :: 0 <= i < |CodeNames()| && Directory(h, h.path + [CodeNames()[i]])
  }

  /** The conventional directories there are, in order of preference; else, in the order of paths, the outermost
      directories in reach that directly hold a project. */
  method Roots(h: Home) returns (roots: seq<Path>)
    ensures SomeConventional(h) ==> exists places :: ConventionalAt(h, CodeNames(), places, roots)
    ensures !SomeConventional(h) ==>
              && (forall p :: p in roots <==> ToDeclare(h, p))
              && (forall i, j :: 0 <= i < j < |roots| ==> PathBefore(roots[i], roots[j]) && Apart(roots[i], roots[j]))
              && (forall d :: InReach(h, d) && HoldsProject(h, d) ==> CoveredBy(d, roots))
  {
    hide *;
    ghost var places := ConventionalPlaces(h, CONVENTIONAL_CODE_DIRS);
    var conventional := ConventionalDirs(h, CONVENTIONAL_CODE_DIRS);
    ConventionalNames();
    ConventionalSome(h, places, conventional);
    if conventional != [] {
      return conventional;
    }
    var found := Search(h);
    SortFound(found);
    roots := DropCovered(SortBy(found, PathLeq));
    FoundDeclared(h, found, SortBy(found, PathLeq), roots);
  }

  lemma ConventionalNames()
    ensures CONVENTIONAL_CODE_DIRS == CodeNames()
  {
  }

  lemma ConventionalSome(h: Home, places: seq<nat>, roots: seq<Path>)
    requires ConventionalAt(h, CodeNames(), places, roots)
    ensures roots != [] <==> SomeConventional(h)
  {
    hide CodeNames, Directory;
    if SomeConventional(h) {
      var i: nat :| i < |CodeNames()| && Directory(h, h.path + [CodeNames()[i]]);
      assert i in places;
    }
    if roots != [] { assert places[0] in places; }
  }

  lemma FoundDeclared(h: Home, found: seq<Path>, sorted: seq<Path>, roots: seq<Path>)
    requires forall d :: d in found <==> Claimed(h, d)
    requires forall d :: d in sorted <==> d in found
    requires Outermost(sorted, roots)
    ensures forall p :: p in roots <==> ToDeclare(h, p)
    ensures forall i, j :: 0 <= i < j < |roots| ==> PathBefore(roots[i], roots[j]) && Apart(roots[i], roots[j])
    ensures forall d :: InReach(h, d) && HoldsProject(h, d) ==> CoveredBy(d, roots)
  {
    hide Claimed, ToDeclare, Scannable, InReach, PathLeq, PathBefore, Home.Holds, HoldsProject;
    forall p ensures p in roots <==> ToDeclare(h, p) {
      ClaimedMeans(h, p);
      if Claimed(h, p) {
        assert p in sorted && CoveredBy(p, roots);
        var r :| r in roots && r <= p;
        ClaimedApart(h, r, p);
      }
    }
    forall i, j | 0 <= i < j < |roots| ensures PathBefore(roots[i], roots[j]) {
      assert PathLeq(roots[i], roots[j]) && Apart(roots[i], roots[j]);
      LeqNotEqual(roots[i], roots[j]);
      PathOrderMeans(roots[i], roots[j]);
    }
    forall d | InReach(h, d) && HoldsProject(h, d) ensures CoveredBy(d, roots) {
      ScannableMeans(h, d);
      HoldsMeans(h, d);
      var e := ClaimedAlong(h, d);
      ClaimedMeans(h, e);
      assert e in roots;
    }
  }

  lemma SortFound(found: seq<Path>)
    ensures SortedBy(SortBy(found, PathLeq), PathLeq) && forall d :: d in SortBy(found, PathLeq) <==> d in found
  {
    hide PathLeq;
    PathLeqTotalPreorder();
    SortSorts(found, PathLeq);
    SortMembers(found, PathLeq);
  }
}

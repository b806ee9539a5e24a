/** Eight predicates in order, and an evaluation that stops at the first one to reject. */
module Guards {
  import opened Paths
  import opened FileSystem
  import opened Options
  import opened Resolve
  import opened Worlds
  import opened Heartbeats
  import Rules

  datatype Guard =
    | DenyFloor | Containment | Depth | PinMarker | LiveHeartbeat | GitIgnore | IdleAge | ProcessLiveness

  /** The stack from its first guard to its last. */
  const ORDER: seq<Guard> :=
    [DenyFloor, Containment, Depth, PinMarker, LiveHeartbeat, GitIgnore, IdleAge, ProcessLiveness]

  datatype Verdict = Pass | Reject | Skipped | NotReached

  datatype GuardResult = GuardResult(guard: Guard, verdict: Verdict)

  datatype Decision = Decision(
    selected: bool, results: seq<GuardResult>, rejectedBy: Option<Guard>, canonical: Option<Path>)

  datatype IgnoreStatus = Ignored | NotIgnored | Unknown

  datatype GuardContext = GuardContext(
    home: Option<Path>, deny: seq<Path>, pinMarker: Name, multiplier: real, now: real,
    heartbeats: HeartbeatIndex, pidAlive: nat -> bool,
    git: (Path, Path) -> IgnoreStatus,
    liveCwds: Option<seq<Path>>, openPaths: Option<seq<Path>>,
    roots: seq<Path>)

  // ------------------------------------------------------------- 1: the deny floor

  const FORBIDDEN_COMPONENTS: seq<Name> := [".git", ".ssh", ".gnupg", ".aws", ".kube", ".password-store"]

  const FORBIDDEN_EXACT: seq<Path> := [
    [], ["Applications"], ["bin"], ["boot"], ["dev"], ["etc"], ["home"], ["Library"], ["opt"], ["private"], ["proc"],
    ["root"], ["sbin"], ["srv"], ["sys"], ["System"], ["tmp"], ["usr"], ["Users"], ["var"], ["Volumes"]]

  const FORBIDDEN_IN_HOME: seq<Name> := [
    "Applications", "Desktop", "Documents", "Downloads", "Library", "Movies", "Music", "Pictures", "Public",
    ".config", ".local", ".ssh"]

  const MIN_COMPONENTS: nat := 3

  function ComponentCount(p: Path): nat {
    Count(p, (c: Name) => c != DOTDOT)
  }

  function Floor(path: Path, home: Option<Path>): Verdict {
    if ComponentCount(path) < MIN_COMPONENTS then Reject
    else if path in FORBIDDEN_EXACT then Reject
    else if home.Some? && path == home.value then Reject
    else if home.Some? && path != [] && Parent(path) == home.value && Last(path) in FORBIDDEN_IN_HOME then Reject
    else if exists i :: 0 <= i < |path| && path[i] != DOTDOT && path[i] in FORBIDDEN_COMPONENTS then Reject
    else Pass
  }

  function UserDeny(path: Path, deny: seq<Path>): Verdict {
    if exists i :: 0 <= i < |deny| && deny[i] <= path then Reject else Pass
  }

  // ------------------------------------------------------------- 2: canonicalize and contain

  /** No component of `path` past its first `from` is a link or unreadable. */
  predicate LinkFree(w: World, path: Path, from: nat) {
    forall k | from < k <= |path| :: w.Seen(path[..k]).Some? && !w.Seen(path[..k]).value.Symlink?
  }

  /** The first canonical root strictly holding `c`. */
  function FirstHolding(roots: seq<Path>, c: Path): (r: Option<Path>)
    ensures r.Some? ==> r.value in roots && r.value < c
    ensures r.Some? ==>
              exists i :: 0 <= i < |roots| && roots[i] == r.value && forall j :: 0 <= j < i ==> !(roots[j] < c)
    ensures r.None? ==> forall x :: x in roots ==> !(x < c)
  {
    if roots == [] then None
    else if roots[0] < c then Some(roots[0])
    else
      assert roots == [roots[0]] + roots[1..];
      var rest := FirstHolding(roots[1..], c);
      assert rest.Some? ==>
        forall i :: 0 <= i < |roots| - 1 && roots[1..][i] == rest.value ==> roots[i + 1] == rest.value;
      rest
  }

  /** The declared roots as they resolve, without those that do not. */
  function CanonicalRoots(w: World, roots: seq<Rules.Root>): (r: seq<Path>)
    ensures forall x :: x in r <==> exists root :: root in roots && w.Canon(root.path) == Some(x)
  {
    if roots == [] then []
    else
      var rest := CanonicalRoots(w, roots[1..]);
      assert roots == [roots[0]] + roots[1..];
      match w.Canon(roots[0].path)
      case None => rest
      case Some(c) => [c] + rest
  }

  /** At these places stand the roots that resolve, and each is listed as it resolves. */
  ghost predicate ResolvedAt(w: World, roots: seq<Rules.Root>, places: seq<nat>, out: seq<Path>) {
    && Increasing(places) && |places| == |out|
    && (forall i: nat :: i in places <==> i < |roots| && w.Canon(roots[i].path).Some?)
    && (forall k :: 0 <= k < |out| ==> places[k] in places && w.Canon(roots[places[k]].path) == Some(out[k]))
  }

  /** Canonical roots come in the order declared. */
  lemma {:induction false} CanonicalRootsInOrder(w: World, roots: seq<Rules.Root>) returns (places: seq<nat>)
    ensures ResolvedAt(w, roots, places, CanonicalRoots(w, roots))
  {
    hide *;
    if roots == [] {
      NoneResolved(w);
      places := [];
    } else {
      var n := |roots| - 1;
      places := CanonicalRootsInOrder(w, roots[..n]);
      CanonicalRootsSnoc(w, roots[..n], roots[n]);
      NextResolved(w, roots[..n], roots[n], places, CanonicalRoots(w, roots[..n]));
      assert roots == roots[..n] + [roots[n]];
      places := places + if w.Canon(roots[n].path).Some? then [n] else [];
    }
  }

  lemma NoneResolved(w: World)
    ensures ResolvedAt(w, [], [], CanonicalRoots(w, []))
  {
  }

  lemma {:induction false} CanonicalRootsSnoc(w: World, roots: seq<Rules.Root>, root: Rules.Root)
    ensures CanonicalRoots(w, roots + [root])
            == CanonicalRoots(w, roots) + match w.Canon(root.path) { case None => [] case Some(c) => [c] }
  {
    if roots == [] {
      assert [] + [root] == [root];
    } else {
      assert (roots + [root])[1..] == roots[1..] + [root];
      CanonicalRootsSnoc(w, roots[1..], root);
    }
  }

  lemma NextResolved(w: World, roots: seq<Rules.Root>, root: Rules.Root, places: seq<nat>, out: seq<Path>)
    requires ResolvedAt(w, roots, places, out)
    ensures var c := w.Canon(root.path);
            ResolvedAt(w, roots + [root], places + if c.Some? then [|roots|] else [],
                       out + match c { case None => [] case Some(x) => [x] })
  {
    NextPlace(places, |roots|);
    assert places + [] == places && out + [] == out;
  }

  /** The canonical path of a contained candidate. */
  function Contained(w: World, path: Path, declared: Path, roots: seq<Path>): Option<Path> {
    if w.Canon(path).None? || !(declared < path) || !LinkFree(w, path, |declared|) then None
    else
      var c := w.Canon(path).value;
      var root := FirstHolding(roots, c);
      if root.Some? && w.Canon(declared) == root then Some(c) else None
  }

  method CheckContainment(w: World, path: Path, declared: Path, roots: seq<Path>)
    returns (verdict: Verdict, canonical: Option<Path>)
    ensures canonical == Contained(w, path, declared, roots)
    ensures verdict == if canonical.Some? then Pass else Reject
  {
    var resolved := w.Canon(path);
    if resolved.None? || !(declared <= path) || declared == path {
      return Reject, None;
    }
    var rest := path[|declared|..];
    var cur := declared;
    for i := 0 to |rest|
      invariant cur == path[..|declared| + i]
      invariant forall k | |declared| < k <= |declared| + i ::
                  w.Seen(path[..k]).Some? && !w.Seen(path[..k]).value.Symlink?
    {
      cur := cur + [rest[i]];
      assert cur == path[..|declared| + i + 1];
      var md := w.Seen(cur);
      if md.None? || md.value.Symlink? {
        return Reject, None;
      }
    }
    var root := FirstHolding(roots, resolved.value);
    if root.None? {
      return Reject, None;
    }
    if w.Canon(declared) != root {
      return Reject, None;
    }
    return Pass, resolved;
  }

  /** The path that was checked is the path that is acted on: a contained candidate is its canonical root followed by
      the components it was walked by. */
  lemma ContainedSpelling(w: World, path: Path, declared: Path, roots: seq<Path>)
    requires Contained(w, path, declared, roots).Some?
    requires forall k :: |declared| <= k < |path| ==> path[k] != DOTDOT
    ensures w.Canon(declared).Some? && w.Canon(declared).value in roots
    ensures Contained(w, path, declared, roots).value == w.Canon(declared).value + path[|declared|..]
    ensures w.Canon(declared).value < Contained(w, path, declared, roots).value
  {
    var base := w.Canon(declared).value;
    SpellingUpTo(w, path, declared, |path|);
    assert path[..|path|] == path;
  }

  lemma {:induction false} SpellingUpTo(w: World, path: Path, declared: Path, k: nat)
    requires declared < path && LinkFree(w, path, |declared|) && w.Canon(declared).Some?
    requires forall i :: |declared| <= i < |path| ==> path[i] != DOTDOT
    requires |declared| <= k <= |path|
    ensures Canonicalize(w.tree, path[..k]) == Some(w.Canon(declared).value + path[|declared|..k])
    ensures k > |declared| ==> Canonicalize(w.tree, path[..k]).value in w.tree
    ensures k > |declared| ==>
              LStat(w.tree, path[..k]) == Some(w.tree[Canonicalize(w.tree, path[..k]).value])
    decreases k
  {
    if k == |declared| {
      assert path[..k] == declared && w.Canon(declared).value + path[|declared|..k] == w.Canon(declared).value;
    } else {
      SpellingUpTo(w, path, declared, k - 1);
      assert path[..k] == path[..k - 1] + [path[k - 1]];
      assert w.Seen(path[..k]).Some?;
      CanonicalizeSnoc(w.tree, path[..k - 1], path[k - 1]);
      var base := w.Canon(declared).value;
      assert base + path[|declared|..k] == (base + path[|declared|..k - 1]) + [path[k - 1]];
    }
  }

  /** With `..` below the root the spelling is not the place, though the place is still inside the root. */
  lemma ContainedAnyway(w: World, path: Path, declared: Path, roots: seq<Path>)
    requires Contained(w, path, declared, roots).Some?
    ensures exists r :: r in roots && w.Canon(declared) == Some(r) && r < Contained(w, path, declared, roots).value
  {
  }

  // ------------------------------------------------------------- 4: the pin marker

  predicate Pinned(w: World, path: Path, root: Path, marker: Name)
    requires root <= path
  {
    exists k :: |root| <= k <= |path| && w.Has(path[..k], marker)
  }

  method CheckPin(w: World, path: Path, root: Path, marker: Name) returns (verdict: Verdict)
    requires root <= path
    ensures verdict == if Pinned(w, path, root, marker) then Reject else Pass
  {
    var cur := path;
    while true
      invariant root <= cur <= path && cur == path[..|cur|]
      invariant forall k :: |cur| < k <= |path| ==> !w.Has(path[..k], marker)
      decreases |cur|
    {
      if w.Has(cur, marker) {
        return Reject;
      }
      if cur == root {
        break;
      }
      cur := Parent(cur);
      assert cur == path[..|cur|];
    }
    return Pass;
  }

  // ------------------------------------------------------------- 5: heartbeats

  predicate Overlaps(a: Path, b: Path) {
    a <= b || b <= a
  }

  /** `Path::file_name` */
  function FileName(p: Path): Option<Name> {
    if p == [] || Last(p) == DOTDOT then None else Some(Last(p))
  }

  predicate Claims(hb: Heartbeat, path: Path) {
    if hb.unreadable then hb.paths != [] || Some(hb.sessionId) == FileName(path)
    else Some(hb.sessionId) == FileName(path) || exists i :: 0 <= i < |hb.paths| && Overlaps(path, hb.paths[i])
  }

  function CheckHeartbeats(c: Candidate, ctx: GuardContext): Verdict {
    var hbs := ctx.heartbeats.entries;
    if exists i :: 0 <= i < |hbs| && hbs[i].IsLive(ctx.now, ctx.multiplier, ctx.pidAlive) && Claims(hbs[i], c.path)
    then Reject
    else if c.orphanedOnly && ctx.heartbeats.unreadable then Reject
    else Pass
  }

  // ------------------------------------------------------------- 6: git ignore

  /** The nearest directory at or above `path` with a `.git` entry. */
  function Worktree(w: World, path: Path): (r: Option<Path>)
    ensures r.Some? ==> r.value <= path && w.Has(r.value, ".git")
    ensures forall k :: (if r.Some? then |r.value| + 1 else 0) <= k <= |path| ==> !w.Has(path[..k], ".git")
  {
    if w.Has(path, ".git") then assert path[..|path|] == path; Some(path)
    else if path == [] then assert forall k :: 0 <= k <= 0 ==> path[..k] == path; None
    else
      var r := Worktree(w, Parent(path));
      assert forall k :: 0 <= k < |path| ==> Parent(path)[..k] == path[..k];
      assert path[..|path|] == path;
      r
  }

  method FindWorktree(w: World, path: Path) returns (r: Option<Path>)
    ensures r == Worktree(w, path)
  {
    var cur := path;
    while true
      invariant Worktree(w, path) == Worktree(w, cur)
      decreases |cur|
    {
      if w.Has(cur, ".git") {
        return Some(cur);
      }
      if cur == [] {
        return None;
      }
      cur := Parent(cur);
    }
  }

  function GitVerdict(w: World, path: Path, git: (Path, Path) -> IgnoreStatus): Verdict {
    match Worktree(w, path)
    case None => Skipped
    case Some(tree) => if git(tree, path) == Ignored then Pass else Reject
  }

  method CheckGit(w: World, path: Path, git: (Path, Path) -> IgnoreStatus) returns (verdict: Verdict)
    ensures verdict == GitVerdict(w, path, git)
  {
    var tree := FindWorktree(w, path);
    if tree.None? {
      return Skipped;
    }
    match git(tree.value, path)
    case Ignored => verdict := Pass;
    case NotIgnored => verdict := Reject;
    case Unknown => verdict := Reject;
  }

  // ------------------------------------------------------------- 8: process liveness

  predicate Holds(paths: seq<Path>, dir: Path) {
    exists i :: 0 <= i < |paths| && dir <= paths[i]
  }

  function CheckProcesses(path: Path, cwds: Option<seq<Path>>, open: Option<seq<Path>>): Verdict {
    if cwds.None? || Holds(cwds.value, path) then Reject
    else if open.None? || Holds(open.value, path) then Reject
    else Pass
  }

  // ------------------------------------------------------------- the stack

  /** All eight predicates, and the floor again on the resolved path. */
  predicate Selectable(c: Candidate, w: World, ctx: GuardContext) {
    && Floor(c.path, ctx.home) == Pass && UserDeny(c.path, ctx.deny) == Pass
    && Contained(w, c.path, c.root, ctx.roots).Some?
    && FloorAgain(c, Contained(w, c.path, c.root, ctx.roots).value, ctx) == Pass
    && c.depth <= c.depthCap
    && !Pinned(w, c.path, c.root, ctx.pinMarker)
    && CheckHeartbeats(c, ctx) != Reject
    && GitVerdict(w, c.path, ctx.git) != Reject
    && c.minIdle <= c.idle
    && CheckProcesses(c.path, ctx.liveCwds, ctx.openPaths) != Reject
  }

  function FloorAgain(c: Candidate, canonical: Path, ctx: GuardContext): Verdict {
    if canonical != c.path then Floor(canonical, ctx.home) else Pass
  }

  function Position(g: Guard): nat {
    match g
    case DenyFloor => 0 case Containment => 1 case Depth => 2 case PinMarker => 3
    case LiveHeartbeat => 4 case GitIgnore => 5 case IdleAge => 6 case ProcessLiveness => 7
  }

  predicate Earlier(a: GuardResult, b: GuardResult) {
    Position(a.guard) <= Position(b.guard)
  }

  predicate IsReject(r: GuardResult) {
    r.verdict == Reject
  }

  predicate HasRow(results: seq<GuardResult>, g: Guard) {
    exists i :: 0 <= i < |results| && results[i].guard == g
  }

  /** `results` holds a verdict of each of the first `n` guards and of no other. */
  ghost predicate RowsFor(results: seq<GuardResult>, n: nat) {
    && (forall r :: r in results ==> Position(r.guard) < n && r.verdict != NotReached)
    && (forall g :: Position(g) < n ==> HasRow(results, g))
  }

  /** A full table: in order, every guard in it, those past the first `n` not reached, and one rejection at most. */
  ghost predicate FullTable(d: Decision, n: nat) {
    && (forall i, j :: 0 <= i < j < |d.results| ==> Position(d.results[i].guard) <= Position(d.results[j].guard))
    && (forall g :: HasRow(d.results, g))
    && (forall r :: r in d.results ==> (r.verdict == NotReached <==> Position(r.guard) >= n))
    && Count(d.results, IsReject) == (if d.selected then 0 else 1)
    && (d.selected <==> d.rejectedBy.None?)
    && (d.rejectedBy.Some? ==> GuardResult(d.rejectedBy.value, Reject) in d.results)
    && (d.selected ==> n == |ORDER|)
    && (!d.selected ==> d.canonical.None?)
  }

  function FirstReject(results: seq<GuardResult>): (r: Option<Guard>)
    ensures r.Some? ==> GuardResult(r.value, Reject) in results && Count(results, IsReject) > 0
    ensures r.None? ==> Count(results, IsReject) == 0
  {
    if results == [] then None
    else if IsReject(results[0]) then Some(results[0].guard)
    else
      assert results == [results[0]] + results[1..];
      FirstReject(results[1..])
  }

  /** Rows of the first `n` guards, of which `g`, if any, rejected. */
  ghost predicate Table(rows: seq<GuardResult>, n: nat, g: Option<Guard>) {
    && RowsFor(rows, n) && n <= |ORDER|
    && FirstReject(rows) == g && Count(rows, IsReject) == if g.Some? then 1 else 0
  }

  /** Turns the rows collected into a decision: a row for every guard, in stack order. */
  method Finish(rows: seq<GuardResult>, canonical: Option<Path>, ghost n: nat, ghost g: Option<Guard>,
                ghost c: Candidate, ghost w: World, ghost ctx: GuardContext)
    returns (d: Decision)
    requires Judging(rows, n, g, c, w, ctx) && (g.None? ==> n == |ORDER|)
    ensures FullTable(d, n) && d.rejectedBy == g && d.selected == g.None?
    ensures d.selected ==> d.canonical == canonical
    ensures |d.results| == |rows| + |ORDER| - n
    ensures Truthful(d.results, c, w, ctx) && forall r :: r in d.results ==> RowMeans(r, c, w, ctx)
  {
    hide Filled, HasRow, RowsFor, SortBy, Count, Truthful, RowMeans;
    var results := rows;
    var rejected := FirstReject(results);
    FillStart(rows, n);
    for i := 0 to |ORDER|
      invariant Filled(rows, results, n, i)
    {
      FillStep(rows, results, n, i);
      if !HasRow(results, ORDER[i]) {
        results := results + [GuardResult(ORDER[i], NotReached)];
      }
    }
    FillDone(rows, results, n);
    var sorted := SortBy(results, Earlier);
    TruthfulTable(rows, n, g, sorted, c, w, ctx);
    RowsMean(sorted, c, w, ctx);
    match rejected
    case Some(guard) => d := Decision(false, sorted, Some(guard), None);
    case None => d := Decision(true, sorted, None, canonical);
  }

  /** The loop of `finish` after `i` guards: the rows it was given, and one row for each guard that lacked one. */
  ghost predicate Filled(rows: seq<GuardResult>, results: seq<GuardResult>, n: nat, i: nat) {
    && |results| == |rows| + (if i <= n then 0 else i - n)
    && (forall r :: r in rows ==> r in results)
    && (forall r :: r in results ==> r in rows || (r.verdict == NotReached && n <= Position(r.guard) < i))
    && (forall g :: Position(g) < i || Position(g) < n ==> HasRow(results, g))
    && Count(results, IsReject) == Count(rows, IsReject)
  }

  lemma FillStart(rows: seq<GuardResult>, n: nat)
    requires RowsFor(rows, n)
    ensures Filled(rows, rows, n, 0)
  {
  }

  lemma FillStep(rows: seq<GuardResult>, results: seq<GuardResult>, n: nat, i: nat)
    requires RowsFor(rows, n) && Filled(rows, results, n, i) && i < |ORDER|
    ensures Filled(rows, if HasRow(results, ORDER[i]) then results else results + [GuardResult(ORDER[i], NotReached)],
                   n, i + 1)
  {
    AtPosition(i);
    var row := GuardResult(ORDER[i], NotReached);
    CountConcat(results, [row], IsReject);
    RowsGrow(results, row);
    if HasRow(results, ORDER[i]) {
      var k :| 0 <= k < |results| && results[k].guard == ORDER[i];
      assert results[k] in results;
    }
  }

  lemma FillDone(rows: seq<GuardResult>, results: seq<GuardResult>, n: nat)
    requires RowsFor(rows, n) && n <= |ORDER| && Filled(rows, results, n, |ORDER|)
    ensures var sorted := SortBy(results, Earlier);
            && SortedBy(sorted, Earlier)
            && (forall g :: HasRow(sorted, g))
            && (forall r :: r in sorted ==> (r.verdict == NotReached <==> Position(r.guard) >= n))
            && (forall r :: r in rows ==> r in sorted)
            && (forall r :: r in sorted ==> r in rows || r.verdict == NotReached)
            && Count(sorted, IsReject) == Count(rows, IsReject)
            && |sorted| == |rows| + |ORDER| - n
  {
    EarlierPreorder();
    SortSorts(results, Earlier);
    SortMembers(results, Earlier);
    CountSort(results, Earlier, IsReject);
    SameRows(results, SortBy(results, Earlier));
  }

  lemma AtPosition(i: nat)
    requires i < |ORDER|
    ensures Position(ORDER[i]) == i && forall g :: Position(g) == i ==> g == ORDER[i]
  {
  }

  lemma RowsGrow(results: seq<GuardResult>, row: GuardResult)
    ensures HasRow(results + [row], row.guard)
    ensures forall g :: HasRow(results, g) ==> HasRow(results + [row], g)
  {
    assert (results + [row])[|results|] == row;
    forall g | HasRow(results, g) ensures HasRow(results + [row], g) {
      var i :| 0 <= i < |results| && results[i].guard == g;
      assert (results + [row])[i].guard == g;
    }
  }

  lemma SameRows(a: seq<GuardResult>, b: seq<GuardResult>)
    requires forall r :: r in b <==> r in a
    ensures forall g :: HasRow(a, g) ==> HasRow(b, g)
  {
    forall g | HasRow(a, g) ensures HasRow(b, g) {
      var i :| 0 <= i < |a| && a[i].guard == g;
      assert a[i] in b;
    }
  }

  lemma EarlierPreorder()
    ensures TotalPreorder(Earlier)
  {
  }

  lemma {:induction false} FirstRejectSnoc(results: seq<GuardResult>, row: GuardResult)
    requires Count(results, IsReject) == 0
    ensures FirstReject(results + [row]) == if IsReject(row) then Some(row.guard) else None
  {
    if results != [] {
      assert (results + [row])[1..] == results[1..] + [row];
      FirstRejectSnoc(results[1..], row);
    }
  }

  lemma PushRow(rows: seq<GuardResult>, n: nat, g: Guard, v: Verdict)
    requires Table(rows, n, None) && v != NotReached && Position(g) <= n < |ORDER|
    ensures Table(rows + [GuardResult(g, v)], if Position(g) == n then n + 1 else n,
            if v == Reject then Some(g) else None)
  {
    var row := GuardResult(g, v);
    CountConcat(rows, [row], IsReject);
    FirstRejectSnoc(rows, row);
    RowsGrow(rows, row);
    AtPosition(n);
  }

  function DepthVerdict(c: Candidate): Verdict {
    if c.depth > c.depthCap then Reject else Pass
  }

  function IdleVerdict(c: Candidate): Verdict {
    if c.idle < c.minIdle then Reject else Pass
  }

  /** The guard that decides against a candidate, and how many guards ran before the evaluation stopped. The floor on
      the resolved path runs second and answers under the first guard's name. */
  ghost function Stop(c: Candidate, w: World, ctx: GuardContext): (Option<Guard>, nat) {
    if Floor(c.path, ctx.home) == Reject || UserDeny(c.path, ctx.deny) == Reject then (Some(DenyFloor), 1)
    else if Contained(w, c.path, c.root, ctx.roots).None? then (Some(Containment), 2)
    else if FloorAgain(c, Contained(w, c.path, c.root, ctx.roots).value, ctx) == Reject then (Some(DenyFloor), 2)
    else if DepthVerdict(c) == Reject then (Some(Depth), 3)
    else if Pinned(w, c.path, c.root, ctx.pinMarker) then (Some(PinMarker), 4)
    else if CheckHeartbeats(c, ctx) == Reject then (Some(LiveHeartbeat), 5)
    else if GitVerdict(w, c.path, ctx.git) == Reject then (Some(GitIgnore), 6)
    else if IdleVerdict(c) == Reject then (Some(IdleAge), 7)
    else if CheckProcesses(c.path, ctx.liveCwds, ctx.openPaths) == Reject then (Some(ProcessLiveness), 8)
    else (None, 8)
  }

  lemma StopDecides(c: Candidate, w: World, ctx: GuardContext)
    ensures Selectable(c, w, ctx) <==> Stop(c, w, ctx).0.None?
  {
    hide Floor, UserDeny, Contained, Pinned, CheckHeartbeats, GitVerdict, CheckProcesses;
    FloorPassOrReject(c.path, ctx.home);
    var contained := Contained(w, c.path, c.root, ctx.roots);
    if contained.Some? { FloorPassOrReject(contained.value, ctx.home); }
    VerdictsEvaluated(c, w, ctx);
  }

  /** What each guard has to say of a candidate, the floor on the path as walked. */
  function VerdictOf(g: Guard, c: Candidate, w: World, ctx: GuardContext): Verdict {
    match g
    case DenyFloor => if Floor(c.path, ctx.home) == Pass then UserDeny(c.path, ctx.deny) else Floor(c.path, ctx.home)
    case Containment => if Contained(w, c.path, c.root, ctx.roots).Some? then Pass else Reject
    case Depth => DepthVerdict(c)
    case PinMarker => if c.root <= c.path && Pinned(w, c.path, c.root, ctx.pinMarker) then Reject else Pass
    case LiveHeartbeat => CheckHeartbeats(c, ctx)
    case GitIgnore => GitVerdict(w, c.path, ctx.git)
    case IdleAge => IdleVerdict(c)
    case ProcessLiveness => CheckProcesses(c.path, ctx.liveCwds, ctx.openPaths)
  }

  /** The floor rejects the place a candidate resolves to, though not the path it was walked by. */
  predicate FlooredInPlace(c: Candidate, w: World, ctx: GuardContext) {
    var canonical := Contained(w, c.path, c.root, ctx.roots);
    canonical.Some? && FloorAgain(c, canonical.value, ctx) == Reject
  }

  /** Every row of a guard that ran carries that guard's verdict, or is the floor's second, on the resolved path. */
  ghost predicate Truthful(rows: seq<GuardResult>, c: Candidate, w: World, ctx: GuardContext) {
    forall r :: r in rows ==>
      || r.verdict == NotReached
      || r.verdict == VerdictOf(r.guard, c, w, ctx)
      || (r == GuardResult(DenyFloor, Reject) && FlooredInPlace(c, w, ctx))
  }

  lemma TruthfulSnoc(rows: seq<GuardResult>, r: GuardResult, c: Candidate, w: World, ctx: GuardContext)
    requires Truthful(rows, c, w, ctx)
    requires || r.verdict == VerdictOf(r.guard, c, w, ctx)
             || (r == GuardResult(DenyFloor, Reject) && FlooredInPlace(c, w, ctx))
    ensures Truthful(rows + [r], c, w, ctx)
  {
  }

  /** The rows so far, of the first `n` guards, of which `g`, if any, rejected. */
  ghost predicate Judging(rows: seq<GuardResult>, n: nat, g: Option<Guard>, c: Candidate, w: World, ctx: GuardContext) {
    Table(rows, n, g) && Truthful(rows, c, w, ctx)
  }

  /** The next guard's row. */
  lemma PushNext(rows: seq<GuardResult>, n: nat, v: Verdict, c: Candidate, w: World, ctx: GuardContext)
    requires Judging(rows, n, None, c, w, ctx) && n < |ORDER| && v == VerdictOf(ORDER[n], c, w, ctx)
    ensures Judging(rows + [GuardResult(ORDER[n], v)], n + 1, if v == Reject then Some(ORDER[n]) else None, c, w, ctx)
  {
    hide Table, Truthful, VerdictOf, FlooredInPlace;
    AtPosition(n);
    Evaluated(ORDER[n], c, w, ctx);
    PushRow(rows, n, ORDER[n], v);
    TruthfulSnoc(rows, GuardResult(ORDER[n], v), c, w, ctx);
  }

  /** The floor's second row. */
  lemma PushFloor(rows: seq<GuardResult>, c: Candidate, w: World, ctx: GuardContext)
    requires Judging(rows, 2, None, c, w, ctx) && FlooredInPlace(c, w, ctx)
    ensures Judging(rows + [GuardResult(DenyFloor, Reject)], 2, Some(DenyFloor), c, w, ctx)
  {
    hide Table, Truthful, VerdictOf, FlooredInPlace;
    PushRow(rows, 2, DenyFloor, Reject);
    TruthfulSnoc(rows, GuardResult(DenyFloor, Reject), c, w, ctx);
  }

  lemma Evaluated(g: Guard, c: Candidate, w: World, ctx: GuardContext)
    ensures VerdictOf(g, c, w, ctx) != NotReached
  {
  }

  lemma TruthfulTable(rows: seq<GuardResult>, n: nat, g: Option<Guard>, results: seq<GuardResult>,
                      c: Candidate, w: World, ctx: GuardContext)
    requires Judging(rows, n, g, c, w, ctx) && forall r :: r in results ==> r in rows || r.verdict == NotReached
    ensures Truthful(results, c, w, ctx)
  {
  }

  // ------------------------------------------------------------- what the guards ask

  /** Where history or secrets are kept. */
  predicate Secret(n: Name) {
    n in {".git", ".ssh", ".gnupg", ".aws", ".kube", ".password-store"}
  }

  /** What a home directory holds of its owner's. */
  predicate OwnOfHome(n: Name) {
    n in {"Applications", "Desktop", "Documents", "Downloads", "Library", "Movies", "Music", "Pictures", "Public",
          ".config", ".local", ".ssh"}
  }

  /** Three plain components or more, none of them secret; and neither the home directory nor one of its own. */
  ghost predicate FloorAllows(p: Path, home: Option<Path>) {
    && |set k | 0 <= k < |p| && p[k] != ".."| >= 3
    && (forall k :: 0 <= k < |p| ==> !Secret(p[k]))
    && (home.Some? ==> p != home.value && forall n :: OwnOfHome(n) ==> p != home.value + [n])
  }

  /** Neither the floor nor a path the user named, at or above, forbids it. */
  ghost predicate Undenied(c: Candidate, ctx: GuardContext) {
    FloorAllows(c.path, ctx.home) && forall d :: d in ctx.deny ==> !(d <= c.path)
  }

  /** The root at `i` is the first strictly above `c`. */
  ghost predicate FirstAt(roots: seq<Path>, c: Path, i: int) {
    0 <= i < |roots| && roots[i] < c && forall j :: 0 <= j < i ==> !(roots[j] < c)
  }

  /** Something that can be examined and is no link. */
  ghost predicate NoLink(w: World, p: Path) {
    w.statable(p) && exists node :: LStat(w.tree, p) == Some(node) && !node.Symlink?
  }

  /** From below its declared root down to the candidate there are no links. */
  ghost predicate NoLinks(c: Candidate, w: World) {
    forall k :: |c.root| < k <= |c.path| ==> NoLink(w, c.path[..k])
  }

  /** It resolves to `place`, walked from its declared root through no link, and of the roots strictly above `place` the
      first is the one declared. */
  ghost predicate LiesAt(c: Candidate, w: World, ctx: GuardContext, place: Path) {
    && w.resolvable(c.path) && Canonicalize(w.tree, c.path) == Some(place) && c.root < c.path
    && NoLinks(c, w) && w.resolvable(c.root)
    && exists i :: FirstAt(ctx.roots, place, i) && Canonicalize(w.tree, c.root) == Some(ctx.roots[i])
  }

  /** Unreadable, or its process alive, or younger than its interval times the multiplier; a time in the future counts
      as no age at all. */
  ghost predicate StillLive(hb: Heartbeat, ctx: GuardContext) {
    || hb.unreadable
    || (exists pid :: hb.pid == Some(pid) && ctx.pidAlive(pid))
    || (hb.updatedAt <= ctx.now && ctx.now - hb.updatedAt < hb.interval as real * ctx.multiplier)
    || (ctx.now < hb.updatedAt && 0.0 < hb.interval as real * ctx.multiplier)
  }

  /** It is called like the candidate, or claims a path that is the candidate's, holds it or lies in it; and one that
      could not be read claims whatever it can if it names any path at all. */
  ghost predicate SpeaksFor(hb: Heartbeat, p: Path) {
    || (p != [] && p[|p| - 1] == hb.sessionId && hb.sessionId != "..")
    || (exists x :: x in hb.paths && (x <= p || p <= x))
    || (hb.unreadable && hb.paths != [])
  }

  ghost predicate Unclaimed(c: Candidate, ctx: GuardContext) {
    && (forall hb :: hb in ctx.heartbeats.entries ==> !(StillLive(hb, ctx) && SpeaksFor(hb, c.path)))
    && !(c.orphanedOnly && ctx.heartbeats.unreadable)
  }

  /** If there is a worktree, git ignores the candidate in the nearest one. */
  ghost predicate Ignorable(c: Candidate, w: World, ctx: GuardContext) {
    forall k | 0 <= k <= |c.path| && w.Has(c.path[..k], ".git")
               && forall j :: k < j <= |c.path| ==> !w.Has(c.path[..j], ".git") ::
      ctx.git(c.path[..k], c.path) == Ignored
  }

  /** Both questions were answered, and no process works in it or holds something in it open. */
  ghost predicate Unused(c: Candidate, ctx: GuardContext) {
    && ctx.liveCwds.Some? && (forall p :: p in ctx.liveCwds.value ==> !(c.path <= p))
    && ctx.openPaths.Some? && (forall p :: p in ctx.openPaths.value ==> !(c.path <= p))
  }

  ghost predicate Unpinned(c: Candidate, w: World, ctx: GuardContext) {
    forall k :: |c.root| <= k <= |c.path| ==> !w.Has(c.path[..k], ctx.pinMarker)
  }

  /** The guard that objects first, told from paths and times alone. */
  ghost function Objection(c: Candidate, w: World, ctx: GuardContext): Option<Guard> {
    if !Undenied(c, ctx) then Some(DenyFloor)
    else if !exists place :: LiesAt(c, w, ctx, place) then Some(Containment)
    else if exists place :: LiesAt(c, w, ctx, place) && !FloorAllows(place, ctx.home) then Some(DenyFloor)
    else if c.depthCap < c.depth then Some(Depth)
    else if !Unpinned(c, w, ctx) then Some(PinMarker)
    else if !Unclaimed(c, ctx) then Some(LiveHeartbeat)
    else if !Ignorable(c, w, ctx) then Some(GitIgnore)
    else if c.idle < c.minIdle then Some(IdleAge)
    else if !Unused(c, ctx) then Some(ProcessLiveness)
    else None
  }

  lemma {:induction false} PlainComponents(p: Path)
    ensures ComponentCount(p) == |set k | 0 <= k < |p| && p[k] != ".."|
  {
    var plain := (c: Name) => c != DOTDOT;
    var all := set k | 0 <= k < |p| && p[k] != "..";
    if p == [] {
      assert all == {};
    } else {
      var n := |p| - 1;
      var front := set k | 0 <= k < n && p[..n][k] != "..";
      PlainComponents(p[..n]);
      assert p == p[..n] + [p[n]];
      CountConcat(p[..n], [p[n]], plain);
      assert Count([p[n]], plain) == if p[n] != ".." then 1 else 0;
      assert front == set k | 0 <= k < |p[..n]| && p[..n][k] != "..";
      assert all == if p[n] != ".." then front + {n} else front;
    }
  }

  lemma FloorNames()
    ensures forall n :: n in FORBIDDEN_COMPONENTS <==> Secret(n)
    ensures !Secret("..")
    ensures forall p :: p in FORBIDDEN_EXACT ==> |p| <= 1
  {
  }

  lemma HomeNames(n: Name)
    ensures n in FORBIDDEN_IN_HOME <==> OwnOfHome(n)
  {
  }

  /** What the floor tests, without its lists of whole paths: each of those is too short anyway. */
  lemma ShortOnes(p: Path)
    requires p in FORBIDDEN_EXACT
    ensures ComponentCount(p) < MIN_COMPONENTS
  {
    hide FORBIDDEN_EXACT;
    FloorNames();
    CountBounded(p, (c: Name) => c != DOTDOT);
  }

  lemma {:induction false} CountBounded<T>(s: seq<T>, f: T -> bool)
    ensures Count(s, f) <= |s|
  {
    if s != [] { CountBounded(s[1..], f); }
  }

  lemma HomeMeans(p: Path, home: Path)
    ensures p != [] && Parent(p) == home && Last(p) in FORBIDDEN_IN_HOME <==>
              exists n :: OwnOfHome(n) && p == home + [n]
  {
    hide OwnOfHome;
    if p != [] && Parent(p) == home {
      var own := Last(p);
      assert p == home + [own];
      HomeNames(own);
      assert forall n :: home + [n] == p ==> n == (home + [n])[|home|] == own;
    } else {
      assert forall n :: Parent(home + [n]) == home;
    }
  }

  lemma FloorMeans(p: Path, home: Option<Path>)
    ensures Floor(p, home) == if FloorAllows(p, home) then Pass else Reject
  {
    hide ComponentCount, FORBIDDEN_COMPONENTS, FORBIDDEN_EXACT, FORBIDDEN_IN_HOME, Secret, OwnOfHome;
    PlainComponents(p);
    FloorNames();
    if p in FORBIDDEN_EXACT { ShortOnes(p); }
    if home.Some? { HomeMeans(p, home.value); }
  }

  lemma UserDenyMeans(p: Path, deny: seq<Path>)
    ensures UserDeny(p, deny) == if forall d :: d in deny ==> !(d <= p) then Pass else Reject
  {
    forall i | 0 <= i < |deny| ensures deny[i] in deny {
    }
    forall d | d in deny && d <= p ensures exists i :: 0 <= i < |deny| && deny[i] <= p {
      var i :| 0 <= i < |deny| && deny[i] == d;
    }
  }

  lemma ContainedMeans(c: Candidate, w: World, ctx: GuardContext, place: Path)
    ensures Contained(w, c.path, c.root, ctx.roots) == Some(place) <==> LiesAt(c, w, ctx, place)
  {
    if LiesAt(c, w, ctx, place) { LiesContained(c, w, ctx, place); }
    if Contained(w, c.path, c.root, ctx.roots) == Some(place) { ContainedLies(c, w, ctx, place); }
  }

  lemma LiesContained(c: Candidate, w: World, ctx: GuardContext, place: Path)
    requires LiesAt(c, w, ctx, place)
    ensures Contained(w, c.path, c.root, ctx.roots) == Some(place)
  {
    hide FirstHolding, LStat, Canonicalize, NoLinks, LinkFree;
    FirstAbove(ctx.roots, place);
    NoLinksMeans(c, w);
    var i :| FirstAt(ctx.roots, place, i) && Canonicalize(w.tree, c.root) == Some(ctx.roots[i]);
  }

  lemma ContainedLies(c: Candidate, w: World, ctx: GuardContext, place: Path)
    requires Contained(w, c.path, c.root, ctx.roots) == Some(place)
    ensures LiesAt(c, w, ctx, place)
  {
    hide FirstHolding, LStat, Canonicalize, NoLinks, LinkFree;
    FirstAbove(ctx.roots, place);
    NoLinksMeans(c, w);
    var i :| FirstAt(ctx.roots, place, i) && FirstHolding(ctx.roots, place) == Some(ctx.roots[i]);
  }

  lemma NoLinksMeans(c: Candidate, w: World)
    ensures LinkFree(w, c.path, |c.root|) <==> NoLinks(c, w)
  {
    hide LStat;
    forall p: Path ensures NoLink(w, p) <==> w.Seen(p).Some? && !w.Seen(p).value.Symlink? {
      if w.Seen(p).Some? { assert LStat(w.tree, p) == Some(w.Seen(p).value); }
    }
  }

  /** The first root above is the one at the first such place. */
  lemma FirstAbove(roots: seq<Path>, c: Path)
    ensures forall i :: FirstAt(roots, c, i) ==> FirstHolding(roots, c) == Some(roots[i])
    ensures FirstHolding(roots, c).Some? ==>
              exists i :: FirstAt(roots, c, i) && FirstHolding(roots, c) == Some(roots[i])
  {
    hide FirstHolding;
    assert forall l :: 0 <= l < |roots| ==> roots[l] in roots;
    if FirstHolding(roots, c).Some? {
      var i :| 0 <= i < |roots| && roots[i] == FirstHolding(roots, c).value
               && forall j :: 0 <= j < i ==> !(roots[j] < c);
      assert FirstAt(roots, c, i);
    }
  }

  lemma HeartbeatsMean(c: Candidate, ctx: GuardContext)
    ensures CheckHeartbeats(c, ctx) == if Unclaimed(c, ctx) then Pass else Reject
  {
    var hbs := ctx.heartbeats.entries;
    forall hb: Heartbeat ensures hb.IsLive(ctx.now, ctx.multiplier, ctx.pidAlive) <==> StillLive(hb, ctx) {
    }
    forall hb: Heartbeat ensures Claims(hb, c.path) <==> SpeaksFor(hb, c.path) {
      ClaimsMean(hb, c.path);
    }
    if !Unclaimed(c, ctx) && !(c.orphanedOnly && ctx.heartbeats.unreadable) {
      var hb :| hb in hbs && StillLive(hb, ctx) && SpeaksFor(hb, c.path);
      var i :| 0 <= i < |hbs| && hbs[i] == hb;
    }
  }

  lemma ClaimsMean(hb: Heartbeat, p: Path)
    ensures Claims(hb, p) <==> SpeaksFor(hb, p)
  {
    forall i | 0 <= i < |hb.paths| ensures hb.paths[i] in hb.paths {
    }
    forall x | x in hb.paths && (x <= p || p <= x) ensures exists i :: 0 <= i < |hb.paths| && Overlaps(p, hb.paths[i]) {
      var i :| 0 <= i < |hb.paths| && hb.paths[i] == x;
      assert Overlaps(p, hb.paths[i]);
    }
  }

  lemma GitMeans(c: Candidate, w: World, ctx: GuardContext)
    ensures GitVerdict(w, c.path, ctx.git) != Reject <==> Ignorable(c, w, ctx)
    ensures GitVerdict(w, c.path, ctx.git) == Skipped <==>
              forall k :: 0 <= k <= |c.path| ==> !w.Has(c.path[..k], ".git")
  {
    hide Worktree, World.Has;
    var p := c.path;
    var tree := Worktree(w, p);
    if tree.Some? {
      var k := |tree.value|;
      assert p[..k] == tree.value;
    }
  }

  lemma ProcessesMean(c: Candidate, ctx: GuardContext)
    ensures CheckProcesses(c.path, ctx.liveCwds, ctx.openPaths) == if Unused(c, ctx) then Pass else Reject
  {
    if ctx.liveCwds.Some? { HoldsMeans(ctx.liveCwds.value, c.path); }
    if ctx.openPaths.Some? { HoldsMeans(ctx.openPaths.value, c.path); }
  }

  lemma HoldsMeans(paths: seq<Path>, dir: Path)
    ensures Holds(paths, dir) <==> exists p :: p in paths && dir <= p
  {
    forall i | 0 <= i < |paths| ensures paths[i] in paths {
    }
    forall p | p in paths && dir <= p ensures exists i :: 0 <= i < |paths| && dir <= paths[i] {
      var i :| 0 <= i < |paths| && paths[i] == p;
    }
  }

  /** The stack objects as its guards do. */
  lemma StopMeans(c: Candidate, w: World, ctx: GuardContext)
    ensures Stop(c, w, ctx).0 == Objection(c, w, ctx)
    ensures forall place :: Contained(w, c.path, c.root, ctx.roots) == Some(place) <==> LiesAt(c, w, ctx, place)
  {
    hide Floor, UserDeny, Contained, CheckHeartbeats, GitVerdict, CheckProcesses, FloorAllows, LiesAt, Unclaimed,
      Ignorable, Unused, World.Has;
    FloorMeans(c.path, ctx.home);
    UserDenyMeans(c.path, ctx.deny);
    forall place ensures Contained(w, c.path, c.root, ctx.roots) == Some(place) <==> LiesAt(c, w, ctx, place) {
      ContainedMeans(c, w, ctx, place);
    }
    var contained := Contained(w, c.path, c.root, ctx.roots);
    if contained.Some? {
      FloorMeans(contained.value, ctx.home);
      ContainedBelow(w, c.path, c.root, ctx.roots);
    }
    HeartbeatsMean(c, ctx);
    GitMeans(c, w, ctx);
    ProcessesMean(c, ctx);
  }

  /** What a row's verdict says of its guard. */
  ghost predicate RowMeans(r: GuardResult, c: Candidate, w: World, ctx: GuardContext) {
    && (r.verdict == Pass ==> !ObjectsHere(r.guard, c, w, ctx))
    && (r.verdict == Skipped ==>
          r.guard == GitIgnore && forall k :: 0 <= k <= |c.path| ==> !w.Has(c.path[..k], ".git"))
    && (r.verdict == Reject ==>
          || ObjectsHere(r.guard, c, w, ctx)
          || (r.guard == DenyFloor && exists place :: LiesAt(c, w, ctx, place) && !FloorAllows(place, ctx.home)))
    && ((forall k :: 0 <= k <= |c.path| ==> !w.Has(c.path[..k], ".git")) ==>
          r.guard == GitIgnore ==> r.verdict in {Skipped, NotReached})
  }

  /** The guard objects to the candidate as walked. */
  ghost predicate ObjectsHere(g: Guard, c: Candidate, w: World, ctx: GuardContext) {
    match g
    case DenyFloor => !Undenied(c, ctx)
    case Containment => !exists place :: LiesAt(c, w, ctx, place)
    case Depth => c.depthCap < c.depth
    case PinMarker => c.root <= c.path && !Unpinned(c, w, ctx)
    case LiveHeartbeat => !Unclaimed(c, ctx)
    case GitIgnore => !Ignorable(c, w, ctx)
    case IdleAge => c.idle < c.minIdle
    case ProcessLiveness => !Unused(c, ctx)
  }

  lemma VerdictMeans(g: Guard, c: Candidate, w: World, ctx: GuardContext)
    ensures VerdictOf(g, c, w, ctx) == Reject <==> ObjectsHere(g, c, w, ctx)
    ensures VerdictOf(g, c, w, ctx) == Skipped <==>
              g == GitIgnore && forall k :: 0 <= k <= |c.path| ==> !w.Has(c.path[..k], ".git")
  {
    hide Floor, UserDeny, Contained, CheckHeartbeats, GitVerdict, CheckProcesses, FloorAllows, LiesAt, Unclaimed,
      Ignorable, Unused, World.Has;
    FloorMeans(c.path, ctx.home);
    UserDenyMeans(c.path, ctx.deny);
    forall place ensures Contained(w, c.path, c.root, ctx.roots) == Some(place) <==> LiesAt(c, w, ctx, place) {
      ContainedMeans(c, w, ctx, place);
    }
    HeartbeatsMean(c, ctx);
    GitMeans(c, w, ctx);
    ProcessesMean(c, ctx);
  }

  lemma RowsMean(rows: seq<GuardResult>, c: Candidate, w: World, ctx: GuardContext)
    requires Truthful(rows, c, w, ctx)
    ensures forall r :: r in rows ==> RowMeans(r, c, w, ctx)
  {
    hide VerdictOf, ObjectsHere, FloorAllows, LiesAt, Contained, Floor, World.Has;
    forall r | r in rows ensures RowMeans(r, c, w, ctx) {
      VerdictMeans(r.guard, c, w, ctx);
      Evaluated(r.guard, c, w, ctx);
      var contained := Contained(w, c.path, c.root, ctx.roots);
      if contained.Some? {
        ContainedMeans(c, w, ctx, contained.value);
        FloorMeans(contained.value, ctx.home);
      }
    }
  }

  method Evaluate(c: Candidate, w: World, ctx: GuardContext) returns (d: Decision)
    // In terms of paths and times: which guard objects first, if any; and what every row says.
    ensures d.rejectedBy == Objection(c, w, ctx) && (d.selected <==> Objection(c, w, ctx).None?)
    ensures d.selected ==> d.canonical.Some? && LiesAt(c, w, ctx, d.canonical.value)
    ensures forall r :: r in d.results ==> RowMeans(r, c, w, ctx)
    // Selected exactly when everything holds, and then with the canonical path.
    ensures d.selected <==> Selectable(c, w, ctx)
    ensures d.selected ==> d.canonical == Contained(w, c.path, c.root, ctx.roots) && d.canonical.Some?
    // Otherwise the first guard to fail is named, and is the one rejection in the table.
    ensures d.rejectedBy == Stop(c, w, ctx).0
    ensures FullTable(d, Stop(c, w, ctx).1)
    // Each row says what its guard says.
    ensures Truthful(d.results, c, w, ctx)
    ensures |d.results| == if d.rejectedBy == Some(DenyFloor) && Stop(c, w, ctx).1 == 2 then 9 else 8
  {
    hide Table, FullTable, Contained, Floor, UserDeny, Pinned, CheckHeartbeats, GitVerdict,
      CheckProcesses, Selectable, DepthVerdict, IdleVerdict, Truthful, Judging, Objection, LiesAt, RowMeans;
    StopDecides(c, w, ctx);
    StopMeans(c, w, ctx);
    var results: seq<GuardResult> := [];
    NoRows(c, w, ctx);

    var floor := Floor(c.path, ctx.home);
    FloorPassOrReject(c.path, ctx.home);
    if floor == Pass {
      floor := UserDeny(c.path, ctx.deny);
    }
    PushNext(results, 0, floor, c, w, ctx);
    results := results + [GuardResult(DenyFloor, floor)];
    if floor == Reject {
      d := Finish(results, None, 1, Some(DenyFloor), c, w, ctx);
      return;
    }

    var contained, canonical := CheckContainment(w, c.path, c.root, ctx.roots);
    PushNext(results, 1, contained, c, w, ctx);
    results := results + [GuardResult(Containment, contained)];
    if contained == Reject {
      d := Finish(results, None, 2, Some(Containment), c, w, ctx);
      return;
    }
    // The floor again, now on the place the path leads to.
    if canonical.value != c.path {
      FloorPassOrReject(canonical.value, ctx.home);
      if Floor(canonical.value, ctx.home) == Reject {
        PushFloor(results, c, w, ctx);
        results := results + [GuardResult(DenyFloor, Reject)];
        d := Finish(results, None, 2, Some(DenyFloor), c, w, ctx);
        return;
      }
    }

    PushNext(results, 2, DepthVerdict(c), c, w, ctx);
    results := results + [GuardResult(Depth, DepthVerdict(c))];
    if DepthVerdict(c) == Reject {
      d := Finish(results, canonical, 3, Some(Depth), c, w, ctx);
      return;
    }

    assert c.root <= c.path by { ContainedBelow(w, c.path, c.root, ctx.roots); }
    var pin := CheckPin(w, c.path, c.root, ctx.pinMarker);
    PushNext(results, 3, pin, c, w, ctx);
    results := results + [GuardResult(PinMarker, pin)];
    if pin == Reject {
      d := Finish(results, canonical, 4, Some(PinMarker), c, w, ctx);
      return;
    }

    var hb := CheckHeartbeats(c, ctx);
    PushNext(results, 4, hb, c, w, ctx);
    results := results + [GuardResult(LiveHeartbeat, hb)];
    if hb == Reject {
      d := Finish(results, canonical, 5, Some(LiveHeartbeat), c, w, ctx);
      return;
    }

    var git := CheckGit(w, c.path, ctx.git);
    PushNext(results, 5, git, c, w, ctx);
    results := results + [GuardResult(GitIgnore, git)];
    if git == Reject {
      d := Finish(results, canonical, 6, Some(GitIgnore), c, w, ctx);
      return;
    }

    PushNext(results, 6, IdleVerdict(c), c, w, ctx);
    results := results + [GuardResult(IdleAge, IdleVerdict(c))];
    if IdleVerdict(c) == Reject {
      d := Finish(results, canonical, 7, Some(IdleAge), c, w, ctx);
      return;
    }

    var live := CheckProcesses(c.path, ctx.liveCwds, ctx.openPaths);
    PushNext(results, 7, live, c, w, ctx);
    results := results + [GuardResult(ProcessLiveness, live)];
    d := Finish(results, canonical, 8, if live == Reject then Some(ProcessLiveness) else None, c, w, ctx);
  }

  lemma NoRows(c: Candidate, w: World, ctx: GuardContext)
    ensures Judging([], 0, None, c, w, ctx)
  {
  }

  lemma FloorPassOrReject(p: Path, home: Option<Path>)
    ensures Floor(p, home) == Pass || Floor(p, home) == Reject
  {
  }

  lemma ContainedBelow(w: World, path: Path, declared: Path, roots: seq<Path>)
    requires Contained(w, path, declared, roots).Some?
    ensures declared < path
  {
  }

  lemma VerdictsEvaluated(c: Candidate, w: World, ctx: GuardContext)
    ensures CheckHeartbeats(c, ctx) != NotReached && GitVerdict(w, c.path, ctx.git) != NotReached
    ensures CheckProcesses(c.path, ctx.liveCwds, ctx.openPaths) != NotReached
    ensures DepthVerdict(c) != NotReached && IdleVerdict(c) != NotReached
    ensures UserDeny(c.path, ctx.deny) == Pass || UserDeny(c.path, ctx.deny) == Reject
  {
  }

  // ------------------------------------------------------------- what the stack promises

  /** `more` adds deny paths, heartbeats and busy paths to `ctx`, or loses the answer to a question. */
  ghost predicate Stricter(ctx: GuardContext, more: GuardContext) {
    && more.home == ctx.home && more.pinMarker == ctx.pinMarker && more.multiplier == ctx.multiplier
    && more.now == ctx.now && more.pidAlive == ctx.pidAlive && more.git == ctx.git && more.roots == ctx.roots
    && (forall d :: d in ctx.deny ==> d in more.deny)
    && (forall hb :: hb in ctx.heartbeats.entries ==> hb in more.heartbeats.entries)
    && (ctx.heartbeats.unreadable ==> more.heartbeats.unreadable)
    && (more.liveCwds.Some? ==> ctx.liveCwds.Some? && forall p :: p in ctx.liveCwds.value ==> p in more.liveCwds.value)
    && (more.openPaths.Some? ==>
          ctx.openPaths.Some? && forall p :: p in ctx.openPaths.value ==> p in more.openPaths.value)
  }

  /** More evidence against a candidate never turns a rejection into a selection. */
  lemma MoreEvidenceNeverSelects(c: Candidate, w: World, ctx: GuardContext, more: GuardContext)
    requires Stricter(ctx, more) && Selectable(c, w, more)
    ensures Selectable(c, w, ctx)
  {
    hide Floor, Contained, Pinned, GitVerdict;
    forall i | 0 <= i < |ctx.deny| ensures !(ctx.deny[i] <= c.path) { assert ctx.deny[i] in ctx.deny; }
    var hbs := ctx.heartbeats.entries;
    forall i | 0 <= i < |hbs| && hbs[i].IsLive(ctx.now, ctx.multiplier, ctx.pidAlive) ensures !Claims(hbs[i], c.path) {
      assert hbs[i] in hbs;
    }
    HoldsMore(ctx.liveCwds, more.liveCwds, c.path);
    HoldsMore(ctx.openPaths, more.openPaths, c.path);
  }

  lemma HoldsMore(a: Option<seq<Path>>, b: Option<seq<Path>>, dir: Path)
    requires b.Some? ==> a.Some? && forall p :: p in a.value ==> p in b.value
    ensures b.Some? && !Holds(b.value, dir) ==> a.Some? && !Holds(a.value, dir)
  {
    if b.Some? && Holds(a.value, dir) {
      var i :| 0 <= i < |a.value| && dir <= a.value[i];
      assert a.value[i] in a.value;
    }
  }

  /** A marker anywhere from the root down to the candidate rejects it, whatever else holds. */
  lemma AnyPinRejects(c: Candidate, w: World, ctx: GuardContext, k: nat)
    requires c.root <= c.path && |c.root| <= k <= |c.path| && w.Has(c.path[..k], ctx.pinMarker)
    ensures !Selectable(c, w, ctx)
  {
  }

  /** `v` is `w` with entries of this name added to its tree. */
  ghost predicate MoreMarkers(w: World, v: World, marker: Name) {
    && WellFormed(w.tree) && WellFormed(v.tree) && v == w.(tree := v.tree)
    && (forall p :: p in w.tree ==> p in v.tree && v.tree[p] == w.tree[p])
    && (forall p {:trigger Last(p)} :: p in v.tree && p != [] && Last(p) != marker ==> p in w.tree)
  }

  /** What resolved still does, to the same place. */
  lemma MarkersKeep(w: World, v: World, marker: Name, p: Path)
    requires MoreMarkers(w, v, marker) && Canonicalize(w.tree, p).Some?
    ensures Canonicalize(v.tree, p) == Canonicalize(w.tree, p)
    ensures Canonicalize(w.tree, p).value in w.tree
  {
    WalkBacked(w.tree, w.tree, [], p, MAX_LINKS);
    WalkKept(w.tree, v.tree, [], p, MAX_LINKS);
    WalkEndsInTree(w.tree, [], p, MAX_LINKS);
  }

  /** A directory that resolves has the entries it had, and no others but markers. */
  lemma MarkersAdd(w: World, v: World, marker: Name, p: Path, n: Name)
    requires MoreMarkers(w, v, marker) && Canonicalize(w.tree, p).Some?
    ensures LStat(w.tree, p + [n]).Some? || n != marker ==> LStat(v.tree, p + [n]) == LStat(w.tree, p + [n])
  {
    hide Walk;
    MarkersKeep(w, v, marker, p);
    assert Parent(p + [n]) == p;
    if n != DOTDOT {
      LStatEntry(w.tree, p, n);
      LStatEntry(v.tree, p, n);
      assert Last(Canonicalize(w.tree, p).value + [n]) == n;
    }
  }

  /** Down from the root, an unpinned path that is walked in `v` is walked in `w`, through the same places. */
  lemma {:induction false} UnpinnedWalk(w: World, v: World, marker: Name, path: Path, root: Path, k: nat)
    requires MoreMarkers(w, v, marker) && root <= path && Canonicalize(w.tree, root).Some?
    requires |root| <= k <= |path| && LinkFree(v, path, |root|) && !Pinned(v, path, root, marker)
    ensures Canonicalize(w.tree, path[..k]).Some? && Canonicalize(v.tree, path[..k]) == Canonicalize(w.tree, path[..k])
    ensures k > |root| ==> LStat(w.tree, path[..k]) == LStat(v.tree, path[..k])
    decreases k
  {
    hide Walk;
    if k == |root| {
      assert path[..k] == root;
    } else {
      UnpinnedWalk(w, v, marker, path, root, k - 1);
      var d, n := path[..k - 1], path[k - 1];
      assert path[..k] == d + [n] && v.Seen(path[..k]).Some?;
      assert n != marker by { assert !v.Has(d, marker); }
      MarkersAdd(w, v, marker, d, n);
      StepResolves(w.tree, d, n);
    }
    MarkersKeep(w, v, marker, path[..k]);
  }

  lemma StepResolves(t: Tree, d: Path, n: Name)
    requires WellFormed(t) && Canonicalize(t, d).Some?
    requires LStat(t, d + [n]).Some? && !LStat(t, d + [n]).value.Symlink?
    ensures Canonicalize(t, d + [n]).Some?
  {
    assert Parent(d + [n]) == d;
    WalkConcat(t, [], d, [n], MAX_LINKS);
  }

  /** The nearest `.git` is where it was, unless markers are called so. */
  lemma {:induction false} SameWorktree(w: World, v: World, path: Path)
    requires forall k :: 0 <= k <= |path| ==> v.Has(path[..k], ".git") == w.Has(path[..k], ".git")
    ensures Worktree(v, path) == Worktree(w, path)
    decreases |path|
  {
    assert path[..|path|] == path;
    if path != [] {
      assert forall k :: 0 <= k < |path| ==> Parent(path)[..k] == path[..k];
      assert Parent(path) == path[..|path| - 1];
      SameWorktree(w, v, Parent(path));
    }
  }

  /** More pin markers never turn a rejection into a selection, unless markers are called `.git`: one above the root is
      then a worktree, and the git guard may pass where it rejected. */
  lemma MorePinsNeverSelect(c: Candidate, w: World, v: World, ctx: GuardContext)
    requires MoreMarkers(w, v, ctx.pinMarker) && w.Canon(c.root).Some? && Selectable(c, v, ctx)
    ensures Selectable(c, w, ctx) <==> GitVerdict(w, c.path, ctx.git) != Reject
    ensures ctx.pinMarker != ".git" ==> Selectable(c, w, ctx)
  {
    hide Floor, LStat, Canonicalize, Worktree;
    var n := |c.path|;
    assert c.path[..n] == c.path && c.path[..|c.root|] == c.root;
    forall k | |c.root| <= k <= n
      ensures Canonicalize(w.tree, c.path[..k]).Some?
              && Canonicalize(v.tree, c.path[..k]) == Canonicalize(w.tree, c.path[..k])
      ensures k > |c.root| ==> LStat(w.tree, c.path[..k]) == LStat(v.tree, c.path[..k])
      ensures !w.Has(c.path[..k], ctx.pinMarker)
    {
      UnpinnedWalk(w, v, ctx.pinMarker, c.path, c.root, k);
      MarkersAdd(w, v, ctx.pinMarker, c.path[..k], ctx.pinMarker);
      assert !v.Has(c.path[..k], ctx.pinMarker);
    }
    assert Contained(w, c.path, c.root, ctx.roots) == Contained(v, c.path, c.root, ctx.roots);
    if ctx.pinMarker != ".git" {
      forall k | 0 <= k <= n ensures v.Has(c.path[..k], ".git") == w.Has(c.path[..k], ".git") {
        if k < |c.root| {
          assert c.path[..k] == c.root[..k];
          PrefixWay(w.tree, c.root, k);
        }
        MarkersAdd(w, v, ctx.pinMarker, c.path[..k], ".git");
      }
      SameWorktree(w, v, c.path);
    }
  }

  /** A path walked from its root by plain components. */
  predicate PlainBelow(root: Path, path: Path) {
    root < path && forall k :: |root| <= k < |path| ==> path[k] != DOTDOT
  }

  lemma SelectableContained(c: Candidate, w: World, ctx: GuardContext)
    requires Selectable(c, w, ctx)
    ensures Contained(w, c.path, c.root, ctx.roots).Some?
    ensures w.Canon(c.root) == FirstHolding(ctx.roots, Contained(w, c.path, c.root, ctx.roots).value)
  {
  }

  /** Even with nested or overlapping roots, no canonical path is selected twice. */
  lemma SelectedOnce(a: Candidate, b: Candidate, w: World, ctx: GuardContext)
    requires Selectable(a, w, ctx) && Selectable(b, w, ctx)
    requires PlainBelow(a.root, a.path) && PlainBelow(b.root, b.path)
    requires w.Canon(a.root) == w.Canon(b.root) ==> a.root == b.root
    requires Contained(w, a.path, a.root, ctx.roots) == Contained(w, b.path, b.root, ctx.roots)
    ensures a.root == b.root && a.path == b.path
  {
    hide Selectable, Contained;
    SelectableContained(a, w, ctx);
    SelectableContained(b, w, ctx);
    ContainedSpelling(w, a.path, a.root, ctx.roots);
    ContainedSpelling(w, b.path, b.root, ctx.roots);
    var base := w.Canon(a.root).value;
    var ra, rb := a.path[|a.root|..], b.path[|b.root|..];
    assert (base + ra)[|base|..] == ra && (base + rb)[|base|..] == rb;
    assert a.path == a.root + ra && b.path == b.root + rb;
  }
}

/** Recursive removal with an explicit stack (`remove_tree`). */
module Removal {
  import opened Paths
  import opened FileSystem
  import opened Disks

  datatype Step = ReadStep | StatStep | UnlinkStep | RmdirStep

  datatype RemoveError = RemoveError(step: Step, path: Path)

  datatype RemoveStats = RemoveStats(files: nat, dirs: nat, errors: seq<RemoveError>)

  ghost function ErrorPaths(errors: seq<RemoveError>): set<Path> {
    set i | 0 <= i < |errors| :: errors[i].path
  }

  /** Changes to nodes at or below `top` only, and no attempt at or below a path already attempted: children first. */
  ghost predicate PostOrder(log: seq<Event>, top: Path) {
    && (forall i :: 0 <= i < |log| ==> (log[i].call.RmDir? || log[i].call.Unlink?) && top <= log[i].call.path)
    && (forall i, j :: 0 <= i < j < |log| ==> !(log[i].call.path <= log[j].call.path))
  }

  /** `r` is `t` with some nodes at or below `top` gone. */
  ghost predicate Pruned(t: Tree, r: Tree, top: Path) {
    && (forall p :: p in r ==> p in t && r[p] == t[p])
    && (forall p :: p in t && !(top <= p) ==> p in r)
  }

  // ------------------------------------------------------------- the loop's progress

  /** A stack entry is a path with whether its children are already queued. */
  type Work = (Path, bool)

  /** Where the loop stands: the tree, the attempts so far, the stack, and what became of the nodes reached:
      removed, survived with an error (`failed`), or waiting on the stack for their children (`open`). */
  datatype Progress = Progress(
    tree: Tree, log: seq<Event>, stack: seq<Work>, reached: set<Path>, failed: set<Path>, open: set<Path>)
  {
    ghost function Top(): (p: Path)
      requires stack != []
      ensures p == stack[|stack| - 1].0
    {
      stack[|stack| - 1].0
    }
  }

  function Pending(kids: seq<Path>): seq<Work> {
    seq(|kids|, i requires 0 <= i < |kids| => (kids[i], false))
  }

  ghost predicate StackOrder(stack: seq<Work>) {
    forall i, j :: 0 <= i < j < |stack| ==>
      && !(stack[j].0 <= stack[i].0)
      && (!stack[i].1 ==> !(stack[i].0 <= stack[j].0))
  }

  ghost predicate StackOk(top: Path, g: Progress) {
    && StackOrder(g.stack)
    && (forall i :: 0 <= i < |g.stack| ==> top <= g.stack[i].0 && g.stack[i].0 in g.tree)
    && (forall i :: 0 <= i < |g.stack| && g.stack[i].1 ==> g.stack[i].0 in g.open)
    && (forall i, x :: 0 <= i < |g.stack| && !g.stack[i].1 && g.stack[i].0 <= x ==> x !in g.reached)
    && (forall x :: x in g.open ==> (x, true) in g.stack)
  }

  ghost predicate NodesOk(t0: Tree, top: Path, g: Progress) {
    && Pruned(t0, g.tree, top)
    && (forall x :: x in g.reached ==> x in t0 && top <= x && (x in g.tree <==> x in g.failed || x in g.open))
    && (forall x :: x in t0 && x !in g.tree ==> x in g.reached)
    && (forall x :: x in g.failed ==> x in g.reached && x !in g.open)
    && (forall x :: x in g.open ==> x in g.reached && g.tree[x] == Dir)
    && (top in g.reached || g.stack == [(top, false)])
  }

  ghost predicate LogOk(top: Path, g: Progress) {
    && PostOrder(g.log, top)
    && (forall i :: 0 <= i < |g.log| ==> g.log[i].call.path in g.reached)
    && (forall i, j :: 0 <= i < |g.log| && 0 <= j < |g.stack| ==> !(g.log[i].call.path <= g.stack[j].0))
  }

  ghost predicate Underway(t0: Tree, top: Path, g: Progress) {
    StackOk(top, g) && NodesOk(t0, top, g) && LogOk(top, g)
  }

  /** The entry at `i` is still to be visited, and `x` lies at or below it. */
  predicate Waits(stack: seq<Work>, i: int, x: Path) {
    0 <= i < |stack| && !stack[i].1 && stack[i].0 <= x
  }

  /** Without faults, every node left is still going to be visited. */
  ghost predicate AllCovered(g: Progress, top: Path) {
    && g.failed == {}
    && forall x :: x in g.tree && top <= x ==> x in g.open || exists i :: Waits(g.stack, i, x)
  }

  /** Nothing on the stack lies at or below the top entry but that entry, and nothing waiting lies above it. */
  lemma TopStandsOut(top: Path, g: Progress, i: nat)
    requires StackOk(top, g) && i < |g.stack| - 1
    ensures !(g.Top() <= g.stack[i].0) && (!g.stack[i].1 ==> !(g.stack[i].0 <= g.Top()))
  {
  }

  lemma OpenIsStacked(top: Path, g: Progress, x: Path)
    requires StackOk(top, g) && g.stack != [] && x in g.open
    ensures x == g.Top() || !(g.Top() <= x)
  {
  }

  lemma NothingWaits(top: Path, g: Progress, i: int, x: Path)
    requires StackOk(top, g) && g.stack != [] && g.stack[|g.stack| - 1].1 && x != [] && Parent(x) == g.Top()
    ensures !Waits(g.stack, i, x)
  {
  }

  /** A directory that comes back to the top with nothing lost below it is empty. */
  lemma RmdirPermitted(top: Path, g: Progress)
    requires WellFormed(g.tree) && StackOk(top, g)
    requires g.stack != [] && g.stack[|g.stack| - 1].1 && g.Top() != []
    requires g.Top() in g.tree && g.tree[g.Top()] == Dir && top <= g.Top()
    requires AllCovered(g, top)
    ensures Permits(g.tree, RmDir(g.Top()))
  {
    hide StackOk, WellFormed;
    var p := g.Top();
    forall x | x in g.tree && x != [] ensures Parent(x) != p {
      if Parent(x) == p {
        assert p < x && top <= x;
        if x in g.open { OpenIsStacked(top, g, x); }
        forall i ensures !Waits(g.stack, i, x) { NothingWaits(top, g, i, x); }
        assert false;
      }
    }
    ChildlessByChildren(g.tree, p);
    InsideSomething(g.tree, p);
  }

  lemma InsideSomething(t: Tree, p: Path)
    requires WellFormed(t) && p in t && p != []
    ensures InDir(t, p)
  {
  }

  /** From `g` to `h` the top entry was dealt with: removed, or kept with an error. */
  ghost predicate Settles(g: Progress, h: Progress) {
    && g.stack != []
    && h.stack == g.stack[..|g.stack| - 1]
    && h.reached == g.reached + {g.Top()}
    && h.open == g.open - {g.Top()}
    && (if g.Top() in h.tree then h.tree == g.tree && h.failed == g.failed + {g.Top()}
        else h.tree == g.tree - {g.Top()} && h.failed == g.failed)
    && (h.log == g.log || exists e: Event ::
          (e.call.RmDir? || e.call.Unlink?) && e.call.path == g.Top() && h.log == g.log + [e])
  }

  lemma SettledStack(top: Path, g: Progress, h: Progress)
    requires StackOk(top, g) && Settles(g, h)
    ensures StackOk(top, h)
  {
  }

  lemma SettledNodes(t0: Tree, top: Path, g: Progress, h: Progress)
    requires StackOk(top, g) && NodesOk(t0, top, g) && Settles(g, h)
    requires g.Top() !in g.failed
    ensures NodesOk(t0, top, h)
  {
  }

  lemma SettledLog(top: Path, g: Progress, h: Progress)
    requires LogOk(top, g) && StackOrder(g.stack) && Settles(g, h) && top <= g.Top()
    ensures LogOk(top, h)
  {
  }

  lemma Settled(t0: Tree, top: Path, g: Progress, h: Progress)
    requires Underway(t0, top, g) && Settles(g, h)
    ensures Underway(t0, top, h)
  {
    SettledStack(top, g, h);
    SettledNodes(t0, top, g, h);
    SettledLog(top, g, h);
  }

  lemma SettledCovered(top: Path, g: Progress, h: Progress)
    requires AllCovered(g, top) && Settles(g, h) && g.Top() !in h.tree && WellFormed(h.tree)
    ensures AllCovered(h, top)
  {
    forall x | x in h.tree && top <= x && x !in h.open ensures exists i :: Waits(h.stack, i, x) {
      var i :| Waits(g.stack, i, x);
      if g.stack[i].0 == g.Top() {
        assert x != g.Top();
        AncestorIsDir(h.tree, g.Top(), x);
      }
      assert Waits(h.stack, i, x);
    }
  }

  /** From `g` to `h` the top entry, a directory, was queued again under the children that were listed. */
  ghost predicate Opens(g: Progress, h: Progress, kids: seq<Path>) {
    && g.stack != [] && !g.stack[|g.stack| - 1].1
    && g.Top() in g.tree && g.tree[g.Top()] == Dir
    && IsListing(g.tree, g.Top(), kids)
    && h == g.(reached := g.reached + {g.Top()}, open := g.open + {g.Top()},
               stack := g.stack[..|g.stack| - 1] + [(g.Top(), true)] + Pending(kids))
  }

  lemma OpenedStack(top: Path, g: Progress, h: Progress, kids: seq<Path>)
    requires StackOk(top, g) && Opens(g, h, kids)
    ensures StackOk(top, h)
  {
    hide StackOrder;
    var p, n := g.Top(), |g.stack|;
    assert h.stack[n - 1] == (p, true);
    assert forall i :: 0 <= i < n - 1 ==> h.stack[i] == g.stack[i];
    assert forall i :: n <= i < |h.stack| ==> h.stack[i] == (kids[i - n], false);
    assert forall i :: n <= i < |h.stack| ==> p < h.stack[i].0;
    forall i | 0 <= i < n - 1 ensures !(p <= g.stack[i].0) && (!g.stack[i].1 ==> !(g.stack[i].0 <= p)) {
      TopStandsOut(top, g, i);
    }
    OpenedOrder(g.tree, g.stack, p, kids);
  }

  /** The children of a directory go above it on the stack, apart from one another. */
  lemma OpenedOrder(t: Tree, stack: seq<Work>, p: Path, kids: seq<Path>)
    requires StackOrder(stack) && stack != [] && stack[|stack| - 1] == (p, false) && IsListing(t, p, kids)
    ensures StackOrder(stack[..|stack| - 1] + [(p, true)] + Pending(kids))
  {
    var n := |stack|;
    var more := stack[..n - 1] + [(p, true)] + Pending(kids);
    forall i, j | 0 <= i < j < |more|
      ensures !(more[j].0 <= more[i].0) && (!more[i].1 ==> !(more[i].0 <= more[j].0))
    {
      if j >= n {
        var kid := kids[j - n];
        assert more[j] == (kid, false) && p < kid;
        if i >= n {
          SiblingsApart(p, kids[i - n], kid);
        } else if i < n - 1 {
          assert !(p <= stack[i].0) && (!stack[i].1 ==> !(stack[i].0 <= p));
          ChildOfTop(stack[i].0, kid);
        }
      }
    }
  }

  lemma ChildOfTop(a: Path, kid: Path)
    requires kid != [] && !(Parent(kid) <= a)
    ensures !(kid <= a) && (a <= kid ==> a <= Parent(kid))
  {
    assert Parent(kid) <= kid;
    if a < kid { StrictPrefixOfParent(a, kid); }
  }

  lemma OpenedNodes(t0: Tree, top: Path, g: Progress, h: Progress, kids: seq<Path>)
    requires StackOk(top, g) && NodesOk(t0, top, g) && Opens(g, h, kids)
    ensures NodesOk(t0, top, h)
  {
  }

  lemma OpenedLog(top: Path, g: Progress, h: Progress, kids: seq<Path>)
    requires StackOk(top, g) && LogOk(top, g) && Opens(g, h, kids)
    ensures LogOk(top, h)
  {
  }

  lemma Opened(t0: Tree, top: Path, g: Progress, h: Progress, kids: seq<Path>)
    requires Underway(t0, top, g) && Opens(g, h, kids)
    ensures Underway(t0, top, h)
  {
    OpenedStack(top, g, h, kids);
    OpenedNodes(t0, top, g, h, kids);
    OpenedLog(top, g, h, kids);
  }

  lemma OpenedCovered(top: Path, g: Progress, h: Progress, kids: seq<Path>)
    requires AllCovered(g, top) && Opens(g, h, kids) && WellFormed(g.tree)
    requires forall x :: x in g.tree && x != [] && Parent(x) == g.Top() ==> x in kids
    ensures AllCovered(h, top)
  {
    hide WellFormed;
    forall x | x in h.tree && top <= x && x !in h.open ensures exists i :: Waits(h.stack, i, x) {
      var i :| Waits(g.stack, i, x);
      OpenedWaits(g, h, kids, x, i);
    }
  }

  lemma OpenedWaits(g: Progress, h: Progress, kids: seq<Path>, x: Path, i: nat)
    requires Opens(g, h, kids) && WellFormed(g.tree) && x in g.tree && x !in h.open && Waits(g.stack, i, x)
    requires forall c :: c in g.tree && c != [] && Parent(c) == g.Top() ==> c in kids
    ensures exists j :: Waits(h.stack, j, x)
  {
    hide WellFormed, IsListing;
    var p, n := g.Top(), |g.stack|;
    if i < n - 1 {
      assert Waits(h.stack, i, x);
    } else {
      assert x != p;
      var c := ChildTowards(g.tree, p, x);
      var k :| 0 <= k < |kids| && kids[k] == c;
      assert h.stack[n + k] == Pending(kids)[k];
      assert Waits(h.stack, n + k, x);
    }
  }

  /** The counters agree with the nodes: one count, or one error, for each. */
  ghost predicate Tallied(g: Progress, stats: RemoveStats) {
    && stats.files + stats.dirs + |g.failed| + |g.open| == |g.reached|
    && g.failed == ErrorPaths(stats.errors) && |g.failed| == |stats.errors|
  }

  predicate RemovesDir(e: Event) { e.ok && e.call.RmDir? }
  predicate RemovesFile(e: Event) { e.ok && e.call.Unlink? }

  ghost predicate FailsToRemove(e: Event) {
    !e.ok && (e.call.RmDir? || e.call.Unlink?)
  }

  /** What is said of a removal that failed. */
  ghost function Blame(e: Event): RemoveError {
    RemoveError(if e.call.RmDir? then RmdirStep else UnlinkStep, e.call.path)
  }

  /** Directories are counted as directories, and everything else as files; and no removal that failed goes unsaid. */
  ghost predicate Classed(log: seq<Event>, stats: RemoveStats) {
    && stats.dirs == Count(log, RemovesDir) && stats.files == Count(log, RemovesFile)
    && forall e :: e in log && FailsToRemove(e) ==> Blame(e) in stats.errors
  }

  ghost predicate Adds(e: Event, was: RemoveStats, now: RemoveStats) {
    && now.dirs == was.dirs + (if RemovesDir(e) then 1 else 0)
    && now.files == was.files + (if RemovesFile(e) then 1 else 0)
    && now.errors == was.errors + if FailsToRemove(e) then [Blame(e)] else []
  }

  lemma ClassedSnoc(log: seq<Event>, e: Event, was: RemoveStats, now: RemoveStats)
    requires Classed(log, was) && Adds(e, was, now)
    ensures Classed(log + [e], now)
  {
    CountConcat(log, [e], RemovesDir);
    CountConcat(log, [e], RemovesFile);
  }

  /** The loop invariant; `clean` while no fault has struck. */
  ghost predicate Loop(t0: Tree, top: Path, g: Progress, stats: RemoveStats, clean: bool) {
    && WellFormed(t0) && WellFormed(g.tree) && top != []
    && g.tree == Replay(t0, g.log) && Honest(t0, g.log) && Classed(g.log, stats)
    && if top in t0 then Underway(t0, top, g) && Tallied(g, stats) && (clean ==> AllCovered(g, top))
       else Nothing(t0, top, g, stats) && (clean ==> stats.errors == [])
  }

  /** What the loop keeps when there is no tree to remove. */
  ghost predicate Nothing(t0: Tree, top: Path, g: Progress, stats: RemoveStats) {
    && g.tree == t0 && g.log == [] && g.reached == {} && stats.files == stats.dirs == 0
    && (g.stack == [] || (g.stack == [(top, false)] && stats.errors == []))
  }

  lemma ErrorPathsSnoc(errors: seq<RemoveError>, e: RemoveError)
    ensures ErrorPaths(errors + [e]) == ErrorPaths(errors) + {e.path}
  {
    var r := errors + [e];
    assert r[|errors|] == e;
    assert forall i :: 0 <= i < |errors| ==> r[i] == errors[i];
  }

  /** One count more, or one error more, for the entry just settled. */
  ghost predicate Counted(p: Path, gone: bool, was: RemoveStats, now: RemoveStats) {
    if gone then now.files + now.dirs == was.files + was.dirs + 1 && now.errors == was.errors
    else
      && now.files + now.dirs == was.files + was.dirs
      && exists e: RemoveError :: e.path == p && now.errors == was.errors + [e]
  }

  lemma SettledTally(g: Progress, h: Progress, was: RemoveStats, now: RemoveStats)
    requires Tallied(g, was) && Settles(g, h) && Counted(g.Top(), g.Top() !in h.tree, was, now)
    requires g.Top() in g.open <==> g.Top() in g.reached
    requires g.Top() !in g.failed
    ensures Tallied(h, now)
  {
    var p := g.Top();
    if p in g.open {
      assert h.reached == g.reached && |h.open| == |g.open| - 1;
    } else {
      assert h.open == g.open && |h.reached| == |g.reached| + 1;
    }
    if p in h.tree {
      var e: RemoveError :| e.path == p && now.errors == was.errors + [e];
      ErrorPathsSnoc(was.errors, e);
    }
  }

  lemma TopFresh(t0: Tree, top: Path, g: Progress)
    requires StackOk(top, g) && NodesOk(t0, top, g) && g.stack != []
    ensures g.Top() in g.open <==> g.Top() in g.reached
    ensures g.Top() in g.open <==> g.stack[|g.stack| - 1].1
    ensures g.Top() !in g.failed
  {
  }

  ghost function Popped(g: Progress): (h: Progress)
    requires g.stack != []
    ensures h.stack == g.stack[..|g.stack| - 1] && h.tree == g.tree && h.log == g.log && h.reached == g.reached
  {
    g.(stack := g.stack[..|g.stack| - 1])
  }

  /** The top entry after an attempt to remove it, which left the tree `t`. */
  ghost function Taken(g: Progress, e: Event, t: Tree): (h: Progress)
    requires g.stack != []
    ensures h.stack == g.stack[..|g.stack| - 1] && h.tree == t && h.log == g.log + [e]
    ensures h.reached == g.reached + {g.Top()}
  {
    Popped(g).(tree := t, log := g.log + [e], reached := g.reached + {g.Top()}, open := g.open - {g.Top()},
               failed := if e.ok then g.failed else g.failed + {g.Top()})
  }

  /** The top entry after it could not be examined or listed. */
  ghost function GivenUp(t0: Tree, top: Path, g: Progress): (h: Progress)
    requires g.stack != []
    ensures h.stack == g.stack[..|g.stack| - 1] && h.tree == g.tree && h.log == g.log
    ensures h.reached == if top in t0 then g.reached + {g.Top()} else g.reached
  {
    if top in t0 then Popped(g).(reached := g.reached + {g.Top()}, failed := g.failed + {g.Top()}) else Popped(g)
  }

  ghost function Requeued(g: Progress, kids: seq<Path>): (h: Progress)
    requires g.stack != []
    ensures h.stack == g.stack[..|g.stack| - 1] + [(g.Top(), true)] + Pending(kids)
    ensures h.tree == g.tree && h.log == g.log && h.reached == g.reached + {g.Top()}
  {
    g.(stack := g.stack[..|g.stack| - 1] + [(g.Top(), true)] + Pending(kids),
       reached := g.reached + {g.Top()}, open := g.open + {g.Top()})
  }

  lemma TakenLoop(t0: Tree, top: Path, g: Progress, e: Event, t: Tree, was: RemoveStats, now: RemoveStats,
                  before: bool, clean: bool)
    requires Loop(t0, top, g, was, before) && g.stack != [] && g.Top() in g.tree
    requires (e.call.RmDir? || e.call.Unlink?) && e.call.path == g.Top() && e.ok == (g.Top() !in t)
    requires WellFormed(t) && t == Apply(g.tree, e) == if e.ok then g.tree - {g.Top()} else g.tree
    requires Counted(g.Top(), e.ok, was, now) && Adds(e, was, now)
    requires clean ==> before && e.ok
    ensures Loop(t0, top, Taken(g, e, t), now, clean)
  {
    var h := Taken(g, e, t);
    ReplaySnoc(t0, g.log, e);
    HonestSnoc(t0, g.log, e);
    ClassedSnoc(g.log, e, was, now);
    TopFresh(t0, top, g);
    Settled(t0, top, g, h);
    SettledTally(g, h, was, now);
    if clean { SettledCovered(top, g, h); }
  }

  lemma GivenUpLoop(t0: Tree, top: Path, g: Progress, was: RemoveStats, now: RemoveStats, step: Step, before: bool)
    requires Loop(t0, top, g, was, before) && g.stack != [] && !g.stack[|g.stack| - 1].1
    requires now == was.(errors := was.errors + [RemoveError(step, g.Top())])
    ensures Loop(t0, top, GivenUp(t0, top, g), now, false)
  {
    if top in t0 {
      TopFresh(t0, top, g);
      Settled(t0, top, g, GivenUp(t0, top, g));
      SettledTally(g, GivenUp(t0, top, g), was, now);
    }
  }

  lemma RequeuedLoop(t0: Tree, top: Path, g: Progress, kids: seq<Path>, stats: RemoveStats,
                     before: bool, clean: bool)
    requires Loop(t0, top, g, stats, before) && g.stack != [] && !g.stack[|g.stack| - 1].1
    requires g.Top() in g.tree && g.tree[g.Top()] == Dir && IsListing(g.tree, g.Top(), kids)
    requires clean ==> before && forall x :: x in g.tree && x != [] && Parent(x) == g.Top() ==> x in kids
    ensures Loop(t0, top, Requeued(g, kids), stats, clean)
  {
    var h := Requeued(g, kids);
    TopFresh(t0, top, g);
    Opened(t0, top, g, h, kids);
    if clean { OpenedCovered(top, g, h, kids); }
  }

  lemma Started(t0: Tree, top: Path)
    requires WellFormed(t0) && top != []
    ensures Loop(t0, top, Progress(t0, [], [(top, false)], {}, {}, {}), RemoveStats(0, 0, []), true)
  {
    var g := Progress(t0, [], [(top, false)], {}, {}, {});
    assert g.stack[0] == (top, false);
    forall x | x in t0 && top <= x ensures exists i :: Waits(g.stack, i, x) { assert Waits(g.stack, 0, x); }
    if top in t0 { assert AllCovered(g, top); }
  }

  /** What the loop may rely on when it pops an entry. */
  lemma Peek(t0: Tree, top: Path, g: Progress, stats: RemoveStats, clean: bool)
    requires Loop(t0, top, g, stats, clean) && g.stack != []
    ensures g.Top() != []
    ensures if top in t0 then g.Top() in g.tree && g.Top() in t0 && top <= g.Top()
            else g.Top() !in g.tree && !g.stack[|g.stack| - 1].1
    ensures g.stack[|g.stack| - 1].1 ==>
              g.reached + {g.Top()} == g.reached && (clean ==> Permits(g.tree, RmDir(g.Top())))
    ensures !g.stack[|g.stack| - 1].1 ==> g.Top() !in g.reached
  {
    if top in t0 {
      TopFresh(t0, top, g);
      if clean && g.stack[|g.stack| - 1].1 { RmdirPermitted(top, g); }
    }
  }

  lemma GoneLoop(t0: Tree, top: Path, g: Progress, stats: RemoveStats, before: bool, clean: bool)
    requires Loop(t0, top, g, stats, before) && g.stack != [] && top !in t0
    requires clean ==> before
    ensures Loop(t0, top, Popped(g), stats, clean)
  {
  }

  /** What `remove_tree` promises about the tree it was given and the tree it leaves. */
  ghost predicate Outcome(t0: Tree, t: Tree, top: Path, log: seq<Event>, stats: RemoveStats, reached: set<Path>) {
    // Only the lexical subtree is touched, children before parents, and nothing is added.
    && Pruned(t0, t, top) && PostOrder(log, top) && t == Replay(t0, log) && Honest(t0, log)
    // The counters are those of the calls that took effect.
    && Classed(log, stats)
    // Each reached node is counted once: as a file, as a directory, or by exactly one error if it survives.
    && (forall x :: x in reached ==> x in t0 && top <= x)
    && (forall x :: x in t0 && x !in t ==> x in reached)
    && (top in t0 ==>
          && top in reached
          && stats.files + stats.dirs + |stats.errors| == |reached|
          && |ErrorPaths(stats.errors)| == |stats.errors|
          && ErrorPaths(stats.errors) == set x | x in reached && x in t)
    // Nothing there, nothing done.
    && (top !in t0 ==> stats.files == stats.dirs == 0 && log == [])
    // No errors means no tree.
    && (stats.errors == [] ==> forall x :: x in t ==> !(top <= x))
  }

  lemma Finished(t0: Tree, top: Path, g: Progress, stats: RemoveStats, clean: bool)
    requires Loop(t0, top, g, stats, clean) && g.stack == []
    ensures Outcome(t0, g.tree, top, g.log, stats, g.reached)
    ensures clean ==> stats.errors == []
  {
    if top in t0 {
      assert forall x :: x in g.open ==> (x, true) in g.stack;
      assert g.open == {};
      if stats.errors == [] {
        assert top !in g.tree;
        NothingBelow(g.tree, top);
      }
    } else {
      NothingBelow(t0, top);
    }
  }

  // ------------------------------------------------------------- the loop

  /** One `rmdir` or `unlink`, counted or reported. */
  method Take(disk: Disk, c: Call, was: RemoveStats) returns (now: RemoveStats)
    requires WellFormed(disk.tree) && (c.RmDir? || c.Unlink?) && c.path in disk.tree && c.path != []
    modifies disk
    ensures WellFormed(disk.tree) && old(disk.faults) <= disk.faults
    ensures disk.tree == if c.path !in disk.tree then old(disk.tree) - {c.path} else old(disk.tree)
    ensures disk.log == old(disk.log) + [Event(c, c.path !in disk.tree)]
    ensures disk.tree == Apply(old(disk.tree), Event(c, c.path !in disk.tree))
    ensures Counted(c.path, c.path !in disk.tree, was, now) && Adds(Event(c, c.path !in disk.tree), was, now)
    ensures disk.faults == old(disk.faults) && c.RmDir? && Permits(old(disk.tree), c) ==> c.path !in disk.tree
    ensures disk.faults == old(disk.faults) && c.Unlink? && old(disk.tree[c.path]) != Dir ==> c.path !in disk.tree
  {
    var ok := disk.Attempt(c);
    if !ok {
      now := was.(errors := was.errors + [RemoveError(if c.RmDir? then RmdirStep else UnlinkStep, c.path)]);
    } else if c.RmDir? {
      now := was.(dirs := was.dirs + 1);
    } else {
      now := was.(files := was.files + 1);
    }
  }

  /** One entry, just popped from the stack of `g`: removed, queued again under its children, or given up. */
  method Visit(disk: Disk, p: Path, queued: bool, rest: seq<Work>, was: RemoveStats,
               ghost t0: Tree, ghost top: Path, ghost log0: seq<Event>, ghost g: Progress, ghost clean: bool)
    returns (stack: seq<Work>, stats: RemoveStats, ghost h: Progress)
    requires WellFormed(disk.tree) && disk.tree == g.tree && disk.log == log0 + g.log
    requires Loop(t0, top, g, was, clean)
    requires g.stack != [] && g.stack[|g.stack| - 1] == (p, queued) && rest == g.stack[..|g.stack| - 1]
    modifies disk
    ensures WellFormed(disk.tree) && disk.tree == h.tree && disk.log == log0 + h.log && stack == h.stack
    ensures old(disk.faults) <= disk.faults
    ensures Loop(t0, top, h, stats, clean && disk.faults == old(disk.faults))
    // Each step ends an entry or reaches a node of the tree it had not reached.
    ensures g.reached <= h.reached
    ensures stack == rest || (p in t0 && top <= p && p !in g.reached && p in h.reached)
  {
    hide *;
    Peek(t0, top, g, was, clean);
    stack, stats := rest, was;
    if queued {
      stats := Take(disk, RmDir(p), stats);
      ghost var e := Event(RmDir(p), p !in disk.tree);
      h := Taken(g, e, disk.tree);
      assert disk.log == log0 + (g.log + [e]);
      TakenLoop(t0, top, g, e, disk.tree, was, stats, clean, clean && disk.faults == old(disk.faults));
      return;
    }
    var md := disk.Stat(p);
    if md.Missing? {
      h := Popped(g);
      GoneLoop(t0, top, g, was, clean, clean && disk.faults == old(disk.faults));
    } else if md.Refused? {
      stats := stats.(errors := stats.errors + [RemoveError(StatStep, p)]);
      h := GivenUp(t0, top, g);
      GivenUpLoop(t0, top, g, was, stats, StatStep, clean);
    } else if md.node != Dir {
      // Unlink the link itself, whatever it points at.
      stats := Take(disk, Unlink(p), stats);
      ghost var e := Event(Unlink(p), p !in disk.tree);
      h := Taken(g, e, disk.tree);
      assert disk.log == log0 + (g.log + [e]);
      TakenLoop(t0, top, g, e, disk.tree, was, stats, clean, clean && disk.faults == old(disk.faults));
    } else {
      var entries := disk.List(p);
      if entries.None? {
        stats := stats.(errors := stats.errors + [RemoveError(ReadStep, p)]);
        h := GivenUp(t0, top, g);
        GivenUpLoop(t0, top, g, was, stats, ReadStep, clean);
      } else {
        stack := stack + [(p, true)];
        stack := stack + Pending(entries.value);
        h := Requeued(g, entries.value);
        RequeuedLoop(t0, top, g, entries.value, was, clean, clean && disk.faults == old(disk.faults));
      }
    }
  }

  method RemoveTree(disk: Disk, top: Path) returns (stats: RemoveStats, ghost reached: set<Path>)
    requires WellFormed(disk.tree) && top != []
    modifies disk
    ensures WellFormed(disk.tree) && old(disk.log) <= disk.log && old(disk.faults) <= disk.faults
    ensures Outcome(old(disk.tree), disk.tree, top, Since(old(disk.log), disk.log), stats, reached)
    // Only a fault can leave an error.
    ensures disk.faults == old(disk.faults) ==> stats.errors == []
  {
    hide *;
    stats := RemoveStats(0, 0, []);
    ghost var t0, log0 := disk.tree, disk.log;
    ghost var nodes := set x | x in t0 && top <= x;
    ghost var g := Progress(t0, [], [(top, false)], {}, {}, {});
    var stack: seq<Work> := [(top, false)];
    Started(t0, top);

    while stack != []
      invariant WellFormed(disk.tree) && old(disk.faults) <= disk.faults
      invariant stack == g.stack && disk.tree == g.tree && disk.log == log0 + g.log
      invariant Loop(t0, top, g, stats, disk.faults == old(disk.faults))
      decreases nodes - g.reached, |stack|
    {
      ghost var h;
      var (p, queued) := stack[|stack| - 1];
      stack := stack[..|stack| - 1];
      stack, stats, h := Visit(disk, p, queued, stack, stats, t0, top, log0, g, disk.faults == old(disk.faults));
      assert p !in g.reached && p in nodes && p in h.reached ==> p in nodes - g.reached && p !in nodes - h.reached;
      g := h;
    }
    reached := g.reached;
    SinceConcat(log0, g.log);
    Finished(t0, top, g, stats, disk.faults == old(disk.faults));
  }
}

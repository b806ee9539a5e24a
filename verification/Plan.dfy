/** The planner: a depth-capped pre-order walk of each root that cuts a branch at the first hit. */
module Plans {
  import opened Paths
  import opened FileSystem
  import opened Options
  import opened Resolve
  import opened Worlds
  import opened Rules

  // ------------------------------------------------------------- the declarative plan

  /** What one root is planned with. */
  datatype Scope = Scope(w: World, cfg: Config, rules: seq<Rule>, root: Root)

  ghost function HitAt(s: Scope, p: Path): Option<Rule>
    requires s.root.path < p
  {
    FirstHit(s.w, s.cfg, s.rules, s.root, p)
  }

  /** A real directory that can be listed. */
  ghost predicate Open(w: World, p: Path) {
    w.Seen(p) == Some(Dir) && w.readable(p)
  }

  ghost predicate PlainTail(root: Path, p: Path) {
    root <= p && forall k :: |root| <= k < |p| ==> p[k] != DOTDOT
  }

  /** Every directory from the root down to `p`'s parent is open, and none below the root is hit. */
  ghost predicate Reached(s: Scope, p: Path) {
    && PlainTail(s.root.path, p)
    && (forall k :: |s.root.path| <= k < |p| ==> Open(s.w, p[..k]))
    && (forall k :: |s.root.path| < k < |p| ==> HitAt(s, p[..k]).None?)
  }

  /** The directories a plan is to propose for this root. */
  ghost predicate Proposed(s: Scope, p: Path) {
    && s.root.path < p && Reached(s, p) && s.w.Seen(p) == Some(Dir)
    && HitAt(s, p).Some?
  }

  ghost predicate Walked(w: World, root: Root) {
    w.Seen(root.path) == Some(Dir)
  }

  ghost function Chosen(s: Scope, p: Path): Candidate
    requires s.root.path < p && HitAt(s, p).Some?
  {
    MakeCandidate(s.w, HitAt(s, p).value, s.root, p)
  }

  lemma AboveUnhit(s: Scope, a: Path, b: Path)
    requires s.root.path < a < b && Reached(s, b)
    ensures HitAt(s, a).None?
  {
    assert a == b[..|a|];
  }

  lemma ReachedBelow(s: Scope, p: Path)
    requires Reached(s, p)
    ensures s.root.path <= p
  {
  }

  lemma AboveOpen(s: Scope, a: Path, p: Path)
    requires s.root.path <= a < p && Reached(s, p)
    ensures Open(s.w, a)
  {
    assert a == p[..|a|];
  }

  /** No proposal of a root lies inside another. */
  lemma ProposalsApart(s: Scope, a: Path, b: Path)
    requires Proposed(s, a) && Proposed(s, b) && a != b
    ensures Apart(a, b)
  {
    if a < b { AboveUnhit(s, a, b); }
    if b < a { AboveUnhit(s, b, a); }
  }

  // ------------------------------------------------------------- where a walked path is

  ghost function Base(s: Scope): Path
    requires Canonicalize(s.w.tree, s.root.path).Some?
  {
    Canonicalize(s.w.tree, s.root.path).value
  }

  function NodeAt(t: Tree, c: Path): Option<Node> {
    if c in t then Some(t[c]) else None
  }

  /** A path reached through real directories is the root's own place followed by the components walked. */
  lemma {:induction false} WalkedSpelling(s: Scope, p: Path, k: nat)
    requires WellFormed(s.w.tree) && Walked(s.w, s.root)
    requires PlainTail(s.root.path, p) && |s.root.path| <= k <= |p|
    requires forall i :: |s.root.path| <= i < k ==> s.w.Seen(p[..i]) == Some(Dir)
    ensures Canonicalize(s.w.tree, s.root.path).Some?
    ensures k < |p| && s.w.Seen(p[..k]) == Some(Dir) ==>
              LStat(s.w.tree, p[..k + 1]) == NodeAt(s.w.tree, Base(s) + p[|s.root.path|..k + 1])
    ensures s.w.Seen(p[..k]) == Some(Dir) ==>
              Canonicalize(s.w.tree, p[..k]) == Some(Base(s) + p[|s.root.path|..k])
    decreases k
  {
    var t, r := s.w.tree, s.root.path;
    RealDirResolves(t, r);
    if k == |r| {
      assert p[..k] == r && Base(s) + p[|r|..k] == Base(s);
    } else {
      WalkedSpelling(s, p, k - 1);
      assert p[..k] == p[..k - 1] + [p[k - 1]];
      if s.w.Seen(p[..k]) == Some(Dir) {
        CanonicalizeSnoc(t, p[..k - 1], p[k - 1]);
        assert Base(s) + p[|r|..k] == (Base(s) + p[|r|..k - 1]) + [p[k - 1]];
      }
    }
    if k < |p| && s.w.Seen(p[..k]) == Some(Dir) {
      assert p[..k + 1] == p[..k] + [p[k]];
      LStatEntry(t, p[..k], p[k]);
      assert Base(s) + p[|r|..k + 1] == (Base(s) + p[|r|..k]) + [p[k]];
    }
  }

  /** So what `symlink_metadata` says of it is what the tree holds there. */
  lemma ReachedNode(s: Scope, p: Path)
    requires WellFormed(s.w.tree) && Walked(s.w, s.root)
    requires PlainTail(s.root.path, p) && s.root.path < p
    requires forall i :: |s.root.path| <= i < |p| ==> s.w.Seen(p[..i]) == Some(Dir)
    ensures Canonicalize(s.w.tree, s.root.path).Some?
    ensures LStat(s.w.tree, p) == NodeAt(s.w.tree, Base(s) + p[|s.root.path|..])
    ensures Canonicalize(s.w.tree, Parent(p)) == Some(Base(s) + Parent(p)[|s.root.path|..])
  {
    var k := |p| - 1;
    WalkedSpelling(s, p, k);
    assert p[..k + 1] == p && p[|s.root.path|..k + 1] == p[|s.root.path|..];
    assert p[..k] == Parent(p) && p[|s.root.path|..k] == Parent(p)[|s.root.path|..];
  }

  // ------------------------------------------------------------- the walker

  /** What the directory iterator yields: an entry with its own type, or an error. */
  datatype Step = Entry(path: Path, node: Node) | Failed(path: Path)

  /** The names in the directory a path leads to. */
  function NamesIn(w: World, p: Path): set<Name> {
    match Canonicalize(w.tree, p)
    case None => {}
    case Some(d) => set x | x in w.tree && x != [] && Parent(x) == d :: Last(x)
  }

  function StepFor(w: World, p: Path): Step {
    if w.Seen(p).Some? then Entry(p, w.Seen(p).value) else Failed(p)
  }

  /** The steps a directory entry is expanded into, in file-name order. */
  ghost predicate Expands(w: World, step: Step, deeper: bool, kids: seq<Step>) {
    if step.Failed? || step.node != Dir || !deeper then kids == []
    else if !w.readable(step.path) then kids == [Failed(step.path)]
    else
      && Listing(w, step.path, kids)
      && (forall i, j :: 0 <= i < j < |kids| ==> PathLess(kids[i].path, kids[j].path))
  }

  ghost predicate IsChild(w: World, p: Path, kid: Step) {
    exists n :: n in NamesIn(w, p) && kid == StepFor(w, p + [n])
  }

  /** `WalkDir`: pre-order, sorted by file name, links not followed, no deeper than `maxDepth` below the start. */
  class Walker {
    const w: World
    const start: Path
    const maxDepth: nat
    /** Steps still to be yielded, the next one first. */
    var pending: seq<Step>
    /** How many of them lie directly under the entry just yielded. */
    var below: nat

    constructor (w: World, start: Path, maxDepth: nat)
      ensures this.w == w && this.start == start && this.maxDepth == maxDepth
      ensures pending == [StepFor(w, start)] && below == 0
    {
      this.w, this.start, this.maxDepth := w, start, maxDepth;
      pending, below := [StepFor(w, start)], 0;
    }

    method Next() returns (r: Option<Step>)
      modifies this
      ensures old(pending) == [] ==> r.None? && pending == [] && below == 0
      ensures old(pending) != [] ==>
                && r == Some(old(pending)[0]) && below <= |pending|
                && pending == pending[..below] + old(pending)[1..]
                && Expands(w, old(pending)[0], |old(pending)[0].path| - |start| < maxDepth, pending[..below])
    {
      if pending == [] {
        below := 0;
        return None;
      }
      var step := pending[0];
      var kids: seq<Step> := [];
      if step.Entry? && step.node == Dir && |step.path| - |start| < maxDepth {
        if w.readable(step.path) {
          kids := ListSorted(w, step.path);
        } else {
          kids := [Failed(step.path)];
        }
      }
      pending := kids + pending[1..];
      below := |kids|;
      assert pending[..below] == kids;
      r := Some(step);
    }

    /** Drops what lies below the entry just yielded. */
    method SkipCurrentDir()
      requires below <= |pending|
      modifies this
      ensures pending == old(pending)[old(below)..] && below == 0
    {
      pending, below := pending[below..], 0;
    }
  }

  predicate StepLeq(a: Step, b: Step) {
    PathLeq(a.path, b.path)
  }

  method ListSorted(w: World, p: Path) returns (kids: seq<Step>)
    ensures Listing(w, p, kids)
    ensures forall i, j :: 0 <= i < j < |kids| ==> PathLess(kids[i].path, kids[j].path)
  {
    hide SortBy, PathLess, PathLeq, NamesIn;
    var listed: seq<Step> := [];
    var todo := NamesIn(w, p);
    while todo != {}
      invariant todo <= NamesIn(w, p)
      invariant forall i :: 0 <= i < |listed| ==> IsChild(w, p, listed[i]) && Last(listed[i].path) !in todo
      invariant forall i, j :: 0 <= i < j < |listed| ==> listed[i].path != listed[j].path
      invariant forall n :: n in NamesIn(w, p) ==> n in todo || StepFor(w, p + [n]) in listed
    {
      var n: Name :| n in todo;
      ghost var step := StepFor(w, p + [n]);
      assert Last(step.path) == n;
      assert step in listed + [step];
      todo := todo - {n};
      listed := listed + [StepFor(w, p + [n])];
    }
    kids := SortBy(listed, StepLeq);
    SortedListing(w, p, listed);
  }

  /** Every entry of the directory, as a step. */
  ghost predicate Listing(w: World, p: Path, kids: seq<Step>) {
    && (forall i :: 0 <= i < |kids| ==> IsChild(w, p, kids[i]))
    && (forall n :: n in NamesIn(w, p) ==> StepFor(w, p + [n]) in kids)
  }

  lemma SortedListing(w: World, p: Path, listed: seq<Step>)
    requires Listing(w, p, listed)
    requires forall i, j :: 0 <= i < j < |listed| ==> listed[i].path != listed[j].path
    ensures Listing(w, p, SortBy(listed, StepLeq))
    ensures forall i, j :: 0 <= i < j < |listed| ==>
              PathLess(SortBy(listed, StepLeq)[i].path, SortBy(listed, StepLeq)[j].path)
  {
    hide SortBy, PathLess, PathLeq, IsChild, NamesIn, StepFor;
    var kids := SortBy(listed, StepLeq);
    SortMembers(listed, StepLeq);
    StepLeqPreorder();
    SortSorts(listed, StepLeq);
    SortDistinct(listed, StepLeq);
    forall i, j | 0 <= i < j < |kids| ensures PathLess(kids[i].path, kids[j].path) {
      assert kids[i] in listed && kids[j] in listed && StepLeq(kids[i], kids[j]);
      LeqNotEqual(kids[i].path, kids[j].path);
    }
    forall i | 0 <= i < |kids| ensures IsChild(w, p, kids[i]) { assert kids[i] in listed; }
  }

  lemma StepLeqPreorder()
    ensures TotalPreorder(StepLeq)
  {
    hide PathLeq;
    PathLeqTotalPreorder();
  }

  // ------------------------------------------------------------- walking one root

  /** The largest cap of any rule, and the root's own if there is none. */
  function WalkDepth(rules: seq<Rule>, rootCap: nat): (d: nat)
    ensures forall r :: r in rules ==> DepthCap(r, rootCap) <= d
    ensures if rules == [] then d == rootCap else exists r :: r in rules && d == DepthCap(r, rootCap)
  {
    if rules == [] then rootCap
    else
      assert rules == [rules[0]] + rules[1..];
      var cap := DepthCap(rules[0], rootCap);
      if |rules| == 1 then cap
      else
        var rest := WalkDepth(rules[1..], rootCap);
        if cap < rest then rest else cap
  }

  /** Where a walk stands: steps to come, entries yielded, directories proposed. */
  datatype Progress = Progress(pending: seq<Step>, seen: set<Path>, done: set<Path>)

  ghost predicate PendingOk(s: Scope, g: Progress) {
    && (forall i :: 0 <= i < |g.pending| && g.pending[i].Entry? ==>
          Reached(s, g.pending[i].path) && s.w.Seen(g.pending[i].path) == Some(g.pending[i].node))
    && (forall i, x :: 0 <= i < |g.pending| && g.pending[i].Entry? && x in g.seen ==> !(g.pending[i].path <= x))
    && (forall i, j :: 0 <= i < j < |g.pending| && g.pending[i].Entry? && g.pending[j].Entry? ==>
          Apart(g.pending[i].path, g.pending[j].path))
  }

  ghost predicate DoneOk(s: Scope, g: Progress) {
    forall p :: p in g.done ==> Proposed(s, p) && p in g.seen
  }

  /** Nothing to be proposed is lost: it is done, or at or below a step to come. */
  ghost predicate Covered(s: Scope, g: Progress) {
    forall p :: Proposed(s, p) ==> p in g.done || exists i :: Covers(g.pending, i, p)
  }

  predicate Covers(pending: seq<Step>, i: int, p: Path) {
    0 <= i < |pending| && pending[i].Entry? && pending[i].path <= p
  }

  ghost predicate Walking(s: Scope, g: Progress) {
    PendingOk(s, g) && DoneOk(s, g) && Covered(s, g)
  }

  /** The next step yields nothing below it: an error, a file, a link, or a hit. */
  ghost function Dropped(g: Progress, hit: bool): Progress
    requires g.pending != []
  {
    var e := g.pending[0];
    Progress(g.pending[1..], if e.Entry? then g.seen + {e.path} else g.seen, if hit then g.done + {e.path} else g.done)
  }

  /** Nothing is to be proposed at or below `d`. */
  ghost predicate Barren(s: Scope, d: Path) {
    forall p :: Proposed(s, p) ==> !(d <= p)
  }

  lemma BarrenFile(s: Scope, d: Path)
    requires s.root.path <= d && s.w.Seen(d) != Some(Dir)
    ensures Barren(s, d)
  {
    forall p | Proposed(s, p) ensures !(d <= p) {
      if d <= p && d != p { AboveOpen(s, d, p); }
    }
  }

  lemma BarrenUnread(s: Scope, d: Path)
    requires s.root.path <= d && !s.w.readable(d) && (d == s.root.path || HitAt(s, d).None?)
    ensures Barren(s, d)
  {
    forall p | Proposed(s, p) ensures !(d <= p) {
      if d <= p && d != p { AboveOpen(s, d, p); }
    }
  }

  lemma BarrenDepth(s: Scope, d: Path)
    requires s.root.path <= d && |d| - |s.root.path| >= WalkDepth(s.rules, s.root.maxDepth)
    requires d == s.root.path || HitAt(s, d).None?
    ensures Barren(s, d)
  {
    forall p | Proposed(s, p) ensures !(d <= p) {
      assert DepthCap(HitAt(s, p).value, s.root.maxDepth) <= WalkDepth(s.rules, s.root.maxDepth);
      assert d == p || !(d <= p) || |d| < |p|;
    }
  }

  lemma DropStep(s: Scope, g: Progress, hit: bool)
    requires Walking(s, g) && g.pending != []
    requires if hit then g.pending[0].Entry? && Proposed(s, g.pending[0].path)
             else g.pending[0].Failed? || Barren(s, g.pending[0].path)
    ensures Walking(s, Dropped(g, hit))
  {
    var e, h := g.pending[0], Dropped(g, hit);
    assert forall i :: 0 <= i < |h.pending| ==> h.pending[i] == g.pending[i + 1];
    forall p | Proposed(s, p) && p !in h.done ensures exists i :: Covers(h.pending, i, p) {
      var i :| Covers(g.pending, i, p);
      if i == 0 {
        if e.path != p && hit { AboveUnhit(s, e.path, p); }
        assert false;
      }
      assert Covers(h.pending, i - 1, p);
    }
  }

  /** An error to be yielded changes nothing. */
  lemma AddError(s: Scope, g: Progress, p: Path)
    requires Walking(s, g)
    ensures Walking(s, g.(pending := [Failed(p)] + g.pending))
  {
    hide Reached, Proposed;
    var h := g.(pending := [Failed(p)] + g.pending);
    assert forall i :: 1 <= i < |h.pending| ==> h.pending[i] == g.pending[i - 1];
    forall x | Proposed(s, x) && x !in h.done ensures exists i :: Covers(h.pending, i, x) {
      var i :| Covers(g.pending, i, x);
      assert Covers(h.pending, i + 1, x);
    }
  }

  /** The next step is a directory to descend into. */
  ghost function Descended(g: Progress, kids: seq<Step>): Progress
    requires g.pending != []
  {
    Progress(kids + g.pending[1..], g.seen + {g.pending[0].path}, g.done)
  }

  lemma DescendPending(s: Scope, g: Progress, kids: seq<Step>)
    requires PendingOk(s, g) && g.pending != [] && WellFormed(s.w.tree)
    requires var e := g.pending[0]; e.Entry? && e.node == Dir && s.w.readable(e.path) && Listing(s.w, e.path, kids)
    requires forall i, j :: 0 <= i < j < |kids| ==> PathLess(kids[i].path, kids[j].path)
    requires g.pending[0].path == s.root.path || HitAt(s, g.pending[0].path).None?
    ensures PendingOk(s, Descended(g, kids))
  {
    hide HitAt, PathLess, IsChild, Reached;
    var e, h := g.pending[0], Descended(g, kids);
    var n := |kids|;
    ReachedBelow(s, e.path);
    assert forall i :: 0 <= i < n ==> h.pending[i] == kids[i];
    assert forall i :: n <= i < |h.pending| ==> h.pending[i] == g.pending[i - n + 1];
    forall i | 0 <= i < n
      ensures Parent2(kids[i].path, e.path)
      ensures kids[i].Entry? ==> Reached(s, kids[i].path) && s.w.Seen(kids[i].path) == Some(kids[i].node)
    {
      KidReached(s, e.path, kids[i]);
    }
    forall i, j | 0 <= i < |h.pending| && j in h.seen && h.pending[i].Entry? ensures !(h.pending[i].path <= j) {
      if i < n { ChildBelow(e.path, kids[i].path); }
    }
    forall i, j | 0 <= i < j < |h.pending| && h.pending[i].Entry? && h.pending[j].Entry?
      ensures Apart(h.pending[i].path, h.pending[j].path)
    {
      if i < n {
        if j < n {
          LessDiffers(kids[i].path, kids[j].path);
          SiblingsApart(e.path, kids[i].path, kids[j].path);
        } else {
          ChildApart(e.path, kids[i].path, h.pending[j].path);
        }
      }
    }
  }

  lemma ChildBelow(d: Path, p: Path)
    requires Parent2(p, d)
    ensures d < p
  {
  }

  lemma LessDiffers(p: Path, q: Path)
    requires PathLess(p, q)
    ensures p != q
  {
    PathOrderStrict();
  }

  lemma ChildApart(d: Path, p: Path, q: Path)
    requires Parent2(p, d) && Apart(d, q)
    ensures Apart(p, q)
  {
  }

  /** `p` is an entry of `d`. */
  predicate Parent2(p: Path, d: Path) {
    p != [] && Parent(p) == d
  }

  lemma KidReached(s: Scope, p: Path, kid: Step)
    requires Reached(s, p) && Open(s.w, p) && IsChild(s.w, p, kid) && WellFormed(s.w.tree)
    requires p == s.root.path || (s.root.path < p && HitAt(s, p).None?)
    ensures Parent2(kid.path, p)
    ensures kid.Entry? ==> Reached(s, kid.path) && s.w.Seen(kid.path) == Some(kid.node)
  {
    hide FirstHit, LStat, Canonicalize;
    var n :| n in NamesIn(s.w, p) && kid == StepFor(s.w, p + [n]);
    var c := p + [n];
    PlainNamesIn(s.w, p, n);
    forall k | 0 <= k <= |p| ensures c[..k] == p[..k] {}
    assert c[..|p|] == p == p[..|p|];
    assert forall k :: 0 <= k < |p| ==> c[k] == p[k];
  }

  lemma PlainNamesIn(w: World, p: Path, n: Name)
    requires WellFormed(w.tree) && n in NamesIn(w, p)
    ensures n != DOTDOT
  {
  }

  lemma DescendCovered(s: Scope, g: Progress, kids: seq<Step>)
    requires PendingOk(s, g) && Covered(s, g) && g.pending != [] && WellFormed(s.w.tree)
    requires g.pending[0].Entry? && Listing(s.w, g.pending[0].path, kids) && s.root.path <= g.pending[0].path
    requires g.pending[0].path == s.root.path || HitAt(s, g.pending[0].path).None?
    ensures Covered(s, Descended(g, kids))
  {
    hide Reached, HitAt, NamesIn, PendingOk;
    var e, h := g.pending[0], Descended(g, kids);
    forall p | Proposed(s, p) && p !in h.done ensures exists i :: Covers(h.pending, i, p) {
      var i :| Covers(g.pending, i, p);
      if i > 0 {
        assert h.pending[|kids| + i - 1] == g.pending[i];
        assert Covers(h.pending, |kids| + i - 1, p);
      } else {
        assert e.path != p;
        NextKid(s, e.path, p);
        PrefixSnoc(e.path, p);
        var k :| 0 <= k < |kids| && kids[k] == StepFor(s.w, e.path + [p[|e.path|]]);
        assert Covers(h.pending, k, p);
      }
    }
  }

  /** The listing of a directory on the way to one that is reached shows the next directory on the way. */
  lemma NextKid(s: Scope, d: Path, p: Path)
    requires WellFormed(s.w.tree) && Reached(s, p) && s.w.Seen(p) == Some(Dir) && s.root.path <= d < p
    ensures p[|d|] in NamesIn(s.w, d) && StepFor(s.w, d + [p[|d|]]).Entry?
  {
    hide FirstHit;
    var n := p[|d|];
    var c := d + [n];
    PrefixSnoc(d, p);
    if c != p { AboveOpen(s, c, p); }
    LStatEntry(s.w.tree, d, n);
    var x := Canonicalize(s.w.tree, d).value + [n];
    assert Parent(x) == Canonicalize(s.w.tree, d).value && Last(x) == n;
  }

  /** Every walked path names a node below the root's own place, so the walk ends. */
  ghost function Spellings(s: Scope): set<Path>
    requires Canonicalize(s.w.tree, s.root.path).Some?
  {
    set x | x in s.w.tree && Base(s) <= x :: s.root.path + x[|Base(s)|..]
  }

  lemma WalkedIsSpelling(s: Scope, p: Path)
    requires WellFormed(s.w.tree) && Walked(s.w, s.root) && Reached(s, p) && s.w.Seen(p).Some?
    ensures Canonicalize(s.w.tree, s.root.path).Some? && p in Spellings(s)
  {
    hide FirstHit;
    var r := s.root.path;
    RealDirResolves(s.w.tree, r);
    var x := Base(s) + p[|r|..];
    if p == r {
      assert x == Base(s);
    } else {
      ReachedNode(s, p);
    }
    assert p == r + x[|Base(s)|..];
  }

  /** The candidates so far are exactly the proposals done, each once. */
  ghost predicate Emitted(s: Scope, cands: seq<Candidate>, done: set<Path>) {
    && (forall p :: p in done ==> Proposed(s, p) && Chosen(s, p) in cands)
    && (forall i :: 0 <= i < |cands| ==> cands[i].path in done && cands[i] == Chosen(s, cands[i].path))
    && (forall i, j :: 0 <= i < j < |cands| ==> cands[i].path != cands[j].path)
  }

  lemma EmitOne(s: Scope, cands: seq<Candidate>, done: set<Path>, p: Path)
    requires Emitted(s, cands, done) && Proposed(s, p) && p !in done
    ensures Emitted(s, cands + [Chosen(s, p)], done + {p})
  {
    hide Reached, HitAt;
    var more := cands + [Chosen(s, p)];
    assert more[|cands|] == Chosen(s, p);
    forall x | x in done + {p} ensures Chosen(s, x) in more {
      if x in done { assert Chosen(s, x) in cands; }
    }
  }

  /** What one step of the walk may rely on. */
  lemma NextStep(s: Scope, g: Progress)
    requires Walking(s, g) && g.pending != [] && g.pending[0].Entry?
    requires WellFormed(s.w.tree) && Walked(s.w, s.root)
    ensures var p := g.pending[0].path;
            && s.root.path <= p && p !in g.seen && p !in g.done && Reached(s, p)
            && s.w.Seen(p) == Some(g.pending[0].node)
            && Canonicalize(s.w.tree, s.root.path).Some? && p in Spellings(s)
  {
    WalkedIsSpelling(s, g.pending[0].path);
  }

  lemma WalkEnds(s: Scope, g: Progress, cands: seq<Candidate>)
    requires Walking(s, g) && g.pending == [] && Emitted(s, cands, g.done)
    ensures forall p :: Proposed(s, p) ==> Chosen(s, p) in cands
    ensures forall i :: 0 <= i < |cands| ==> Proposed(s, cands[i].path)
  {
  }

  lemma WalkStarts(s: Scope)
    requires Walked(s.w, s.root) && WellFormed(s.w.tree)
    ensures Walking(s, Progress([StepFor(s.w, s.root.path)], {}, {})) && Emitted(s, [], {})
    ensures Canonicalize(s.w.tree, s.root.path).Some?
  {
    hide HitAt;
    RealDirResolves(s.w.tree, s.root.path);
    var pending := [StepFor(s.w, s.root.path)];
    forall p | Proposed(s, p) ensures exists i :: Covers(pending, i, p) { assert Covers(pending, 0, p); }
  }

  /** A directory entry that is not hit: descended into, if it can be listed and the walk goes deeper. */
  ghost function Passed(s: Scope, g: Progress, deeper: bool, kids: seq<Step>): Progress
    requires g.pending != [] && g.pending[0].Entry?
  {
    var e := g.pending[0];
    if e.node == Dir && deeper && s.w.readable(e.path) then Descended(g, kids)
    else Dropped(g, false).(pending := kids + g.pending[1..])
  }

  lemma PassedPending(s: Scope, g: Progress, deeper: bool, kids: seq<Step>)
    requires g.pending != [] && g.pending[0].Entry?
    ensures Passed(s, g, deeper, kids).pending == kids + g.pending[1..]
  {
  }

  lemma PassStep(s: Scope, g: Progress, kids: seq<Step>)
    requires Walking(s, g) && g.pending != [] && g.pending[0].Entry?
    requires WellFormed(s.w.tree) && Walked(s.w, s.root)
    requires g.pending[0].path == s.root.path
             || g.pending[0].node != Dir || (s.root.path < g.pending[0].path && HitAt(s, g.pending[0].path).None?)
    requires Expands(s.w, g.pending[0], |g.pending[0].path| - |s.root.path| < WalkDepth(s.rules, s.root.maxDepth), kids)
    ensures var deeper := |g.pending[0].path| - |s.root.path| < WalkDepth(s.rules, s.root.maxDepth);
            Walking(s, Passed(s, g, deeper, kids))
  {
    hide Reached, HitAt, Listing, Covered, Proposed, LStat;
    var e := g.pending[0];
    var deeper := |e.path| - |s.root.path| < WalkDepth(s.rules, s.root.maxDepth);
    NextStep(s, g);
    if e.node != Dir {
      BarrenFile(s, e.path);
      DropStep(s, g, false);
      assert kids + g.pending[1..] == g.pending[1..];
    } else if !deeper {
      BarrenDepth(s, e.path);
      DropStep(s, g, false);
      assert kids + g.pending[1..] == g.pending[1..];
    } else if !s.w.readable(e.path) {
      BarrenUnread(s, e.path);
      DropStep(s, g, false);
      AddError(s, Dropped(g, false), e.path);
    } else {
      DescendPending(s, g, kids);
      DescendCovered(s, g, kids);
    }
  }

  // ------------------------------------------------------------- what the walk cannot read

  /** A directory the walk goes into. */
  ghost predicate Entered(s: Scope, d: Path) {
    && Reached(s, d) && s.w.Seen(d) == Some(Dir) && (d == s.root.path || HitAt(s, d).None?)
    && |d| - |s.root.path| < WalkDepth(s.rules, s.root.maxDepth)
  }

  /** The directory that a path leads to has an entry by this name. */
  ghost predicate EntryOf(t: Tree, p: Path, n: Name) {
    exists d :: Canonicalize(t, p) == Some(d) && d + [n] in t
  }

  lemma EntryNamed(w: World, p: Path, n: Name)
    ensures n in NamesIn(w, p) <==> EntryOf(w.tree, p, n)
  {
    hide Canonicalize;
    forall d: Path ensures Parent(d + [n]) == d && Last(d + [n]) == n {
    }
    forall x: Path | x != [] ensures x == Parent(x) + [Last(x)] {
    }
  }

  /** A directory the walk goes into and cannot list, or an entry of one that it cannot examine. */
  ghost predicate Broken(s: Scope, p: Path) {
    || (Entered(s, p) && !s.w.readable(p))
    || (s.root.path < p && Entered(s, Parent(p)) && s.w.readable(Parent(p))
        && EntryOf(s.w.tree, Parent(p), Last(p)) && s.w.Seen(p).None?)
  }

  /** Every error is one the walk must meet, and none is lost: it is noted, or at or below a step to come. */
  ghost predicate Noted(s: Scope, pending: seq<Step>, errors: seq<Path>) {
    && (forall p :: p in errors ==> Broken(s, p))
    && (forall i :: 0 <= i < |pending| && pending[i].Failed? ==> Broken(s, pending[i].path))
    && (forall p :: Broken(s, p) ==> p in errors || Failed(p) in pending || exists i :: Covers(pending, i, p))
  }

  lemma NotedStarts(s: Scope)
    requires Walked(s.w, s.root)
    ensures Noted(s, [StepFor(s.w, s.root.path)], [])
  {
    hide HitAt;
    var pending := [StepFor(s.w, s.root.path)];
    forall p | Broken(s, p) ensures Covers(pending, 0, p) {}
  }

  lemma NoteFailed(s: Scope, pending: seq<Step>, errors: seq<Path>)
    requires Noted(s, pending, errors) && pending != [] && pending[0].Failed?
    ensures Noted(s, pending[1..], errors + [pending[0].path])
  {
    hide Broken;
    var rest := pending[1..];
    assert pending == [pending[0]] + rest;
    forall p | Broken(s, p) && p !in errors && p != pending[0].path
      ensures Failed(p) in rest || exists i :: Covers(rest, i, p)
    {
      if i :| Covers(pending, i, p) { assert Covers(rest, i - 1, p); }
    }
  }

  /** The next step is replaced by others that hold every error at or below it. */
  lemma NoteReplaced(s: Scope, pending: seq<Step>, errors: seq<Path>, kids: seq<Step>)
    requires Noted(s, pending, errors) && pending != [] && pending[0].Entry?
    requires forall i :: 0 <= i < |kids| && kids[i].Failed? ==> Broken(s, kids[i].path)
    requires forall p :: Broken(s, p) && pending[0].path <= p ==> Failed(p) in kids || exists i :: Covers(kids, i, p)
    ensures Noted(s, kids + pending[1..], errors)
  {
    hide Broken;
    var more := kids + pending[1..];
    assert forall i :: 0 <= i < |kids| ==> more[i] == kids[i];
    assert forall i :: |kids| <= i < |more| ==> more[i] == pending[i - |kids| + 1];
    forall p | Broken(s, p) && p !in errors ensures Failed(p) in more || exists i :: Covers(more, i, p) {
      if pending[0].path <= p {
        if i :| Covers(kids, i, p) { assert Covers(more, i, p); }
      } else if i :| Covers(pending, i, p) {
        assert Covers(more, |kids| + i - 1, p);
      } else {
        assert pending == [pending[0]] + pending[1..];
      }
    }
  }

  lemma EnteredBelow(s: Scope, d: Path, p: Path)
    requires Broken(s, p) && s.root.path <= d < p
    ensures Open(s.w, d) && (d == s.root.path || HitAt(s, d).None?)
    ensures |d| - |s.root.path| < WalkDepth(s.rules, s.root.maxDepth)
  {
    hide FirstHit;
    var e := if Entered(s, p) && !s.w.readable(p) then p else Parent(p);
    if e != p { StrictPrefixOfParent(d, p); }
    if d != e {
      AboveOpen(s, d, e);
      if d != s.root.path { AboveUnhit(s, d, e); }
    }
  }

  /** Of a directory that the walk goes into and lists, the steps it expands into hold every error at or below it. */
  lemma KidsNote(s: Scope, d: Path, kids: seq<Step>)
    requires WellFormed(s.w.tree) && Entered(s, d) && s.w.readable(d) && Listing(s.w, d, kids)
    ensures forall i :: 0 <= i < |kids| && kids[i].Failed? ==> Broken(s, kids[i].path)
    ensures forall p :: Broken(s, p) && d <= p ==> Failed(p) in kids || exists i :: Covers(kids, i, p)
  {
    hide HitAt, NamesIn, EntryOf, Reached;
    EnteredRooted(s, d);
    forall i | 0 <= i < |kids| && kids[i].Failed? ensures Broken(s, kids[i].path) {
      var n :| n in NamesIn(s.w, d) && kids[i] == StepFor(s.w, d + [n]);
      EntryNamed(s.w, d, n);
      assert Parent(d + [n]) == d && Last(d + [n]) == n;
    }
    forall p | Broken(s, p) && d <= p ensures Failed(p) in kids || exists i :: Covers(kids, i, p) {
      if d != p { KidNotes(s, d, kids, p); }
    }
  }

  lemma EnteredRooted(s: Scope, d: Path)
    requires Entered(s, d)
    ensures s.root.path <= d
  {
  }

  lemma KidNotes(s: Scope, d: Path, kids: seq<Step>, p: Path)
    requires WellFormed(s.w.tree) && s.root.path <= d < p && Listing(s.w, d, kids) && Broken(s, p)
    ensures Failed(p) in kids || exists i :: Covers(kids, i, p)
  {
    hide HitAt, NamesIn, EntryOf, Reached;
    PrefixSnoc(d, p);
    if !Entered(s, p) && Parent(p) == d {
      assert p == d + [Last(p)];
      EntryNamed(s.w, d, Last(p));
      assert StepFor(s.w, d + [Last(p)]) in kids;
    } else {
      var e := if Entered(s, p) then p else Parent(p);
      StrictPrefixOfParent(d, p);
      assert e[|d|] == p[|d|];
      NextKid(s, d, e);
      assert StepFor(s.w, d + [p[|d|]]) in kids;
      var k :| 0 <= k < |kids| && kids[k] == StepFor(s.w, d + [p[|d|]]);
      assert Covers(kids, k, p);
    }
  }

  /** Going past the next step, an entry that is no hit, loses no error. */
  lemma NotePassed(s: Scope, g: Progress, errors: seq<Path>, kids: seq<Step>)
    requires Noted(s, g.pending, errors) && Walking(s, g) && g.pending != [] && g.pending[0].Entry?
    requires WellFormed(s.w.tree) && Walked(s.w, s.root)
    requires g.pending[0].path == s.root.path
             || g.pending[0].node != Dir || (s.root.path < g.pending[0].path && HitAt(s, g.pending[0].path).None?)
    requires Expands(s.w, g.pending[0], |g.pending[0].path| - |s.root.path| < WalkDepth(s.rules, s.root.maxDepth), kids)
    ensures Noted(s, kids + g.pending[1..], errors)
  {
    hide HitAt, Listing, LStat, Walking, Reached, Noted, WalkDepth, Broken;
    var e := g.pending[0];
    NextStep(s, g);
    var deeper := |e.path| - |s.root.path| < WalkDepth(s.rules, s.root.maxDepth);
    if e.node == Dir && deeper && s.w.readable(e.path) {
      KidsNote(s, e.path, kids);
    } else {
      forall p | Broken(s, p) && e.path < p ensures false { EnteredBelow(s, e.path, p); }
      BrokenHere(s, e.path);
      assert Broken(s, e.path) ==> Failed(e.path) in kids;
      forall p | Broken(s, p) && e.path <= p ensures Failed(p) in kids { assert p == e.path; }
      forall i | 0 <= i < |kids| && kids[i].Failed? ensures Broken(s, kids[i].path) {
        assert kids == [Failed(e.path)];
        assert Entered(s, e.path);
      }
    }
    NoteReplaced(s, g.pending, errors, kids);
  }

  lemma BrokenHere(s: Scope, d: Path)
    requires s.w.Seen(d).Some?
    ensures Broken(s, d) <==> Entered(s, d) && !s.w.readable(d)
  {
  }

  /** Nor does skipping what lies below a hit. */
  lemma NoteSkipped(s: Scope, pending: seq<Step>, errors: seq<Path>)
    requires Noted(s, pending, errors) && pending != [] && pending[0].Entry?
    requires s.root.path < pending[0].path && HitAt(s, pending[0].path).Some? && s.w.Seen(pending[0].path).Some?
    ensures Noted(s, pending[1..], errors)
  {
    hide HitAt, Noted, Reached, Broken;
    var d := pending[0].path;
    forall p | Broken(s, p) && d <= p ensures false {
      if d != p { EnteredBelow(s, d, p); }
      BrokenHere(s, d);
    }
    NoteReplaced(s, pending, errors, []);
    assert [] + pending[1..] == pending[1..];
  }

  method PlanRoot(s: Scope) returns (cands: seq<Candidate>, errors: seq<Path>)
    requires WellFormed(s.w.tree) && Walked(s.w, s.root)
    ensures forall i :: 0 <= i < |cands| ==> Proposed(s, cands[i].path) && cands[i] == Chosen(s, cands[i].path)
    ensures forall p :: Proposed(s, p) ==> Chosen(s, p) in cands
    ensures forall i, j :: 0 <= i < j < |cands| ==> cands[i].path != cands[j].path
    // What a candidate carries is what one of the rules says, and what is measured where it lies.
    ensures forall c :: c in cands ==> exists rule :: rule in s.rules && Carries(s.w, rule, s.root, c)
    ensures forall p :: p in errors <==> Broken(s, p)
  {
    hide WellFormed, FirstHit, LStat, Canonicalize, Reached, Spellings, Walking, Expands, WalkDepth, Noted, Broken;
    cands, errors := [], [];
    var walker := new Walker(s.w, s.root.path, WalkDepth(s.rules, s.root.maxDepth));
    ghost var g := Progress(walker.pending, {}, {});
    WalkStarts(s);
    NotedStarts(s);
    while true
      invariant walker.w == s.w && walker.start == s.root.path
      invariant walker.maxDepth == WalkDepth(s.rules, s.root.maxDepth)
      invariant walker.pending == g.pending && Walking(s, g) && Emitted(s, cands, g.done)
      invariant Noted(s, g.pending, errors)
      decreases Spellings(s) - g.seen, |walker.pending|
    {
      var step := walker.Next();
      if step.None? {
        break;
      }
      var e := step.value;
      if e.Failed? {
        NoteFailed(s, g.pending, errors);
        errors := errors + [e.path];
        FailedStep(s, g, |e.path| - |s.root.path| < walker.maxDepth, walker.pending[..walker.below]);
        g := Dropped(g, false);
        continue;
      }
      NextStep(s, g);
      assert e.path in Spellings(s) - g.seen;
      ghost var kids := walker.pending[..walker.below];
      if e.path == s.root.path || e.node != Dir {
        PassStep(s, g, kids);
        NotePassed(s, g, errors, kids);
        PassedPending(s, g, |e.path| - |s.root.path| < walker.maxDepth, kids);
        g := Passed(s, g, |e.path| - |s.root.path| < walker.maxDepth, kids);
        continue;
      }
      var hit := FindHit(s.w, s.cfg, s.rules, s.root, e.path);
      if hit.None? {
        PassStep(s, g, kids);
        NotePassed(s, g, errors, kids);
        PassedPending(s, g, |e.path| - |s.root.path| < walker.maxDepth, kids);
        g := Passed(s, g, |e.path| - |s.root.path| < walker.maxDepth, kids);
        continue;
      }
      EmitOne(s, cands, g.done, e.path);
      cands := cands + [MakeCandidate(s.w, hit.value, s.root, e.path)];
      // Nothing below a proposal is looked at.
      walker.SkipCurrentDir();
      NoteSkipped(s, g.pending, errors);
      DropStep(s, g, true);
      g := Dropped(g, true);
    }
    WalkEnds(s, g, cands);
    NotedEnds(s, errors);
    forall c | c in cands ensures exists rule :: rule in s.rules && Carries(s.w, rule, s.root, c) {
      ChosenCarries(s, c.path);
    }
  }

  lemma ChosenCarries(s: Scope, p: Path)
    requires Proposed(s, p)
    ensures exists rule :: rule in s.rules && Carries(s.w, rule, s.root, Chosen(s, p))
  {
    hide Reached;
    CarriesMade(s.w, HitAt(s, p).value, s.root, p);
  }

  lemma NotedEnds(s: Scope, errors: seq<Path>)
    requires Noted(s, [], errors)
    ensures forall p :: p in errors <==> Broken(s, p)
  {
    hide Broken;
    forall p, i ensures !Covers([], i, p) {}
  }

  lemma FailedStep(s: Scope, g: Progress, deeper: bool, kids: seq<Step>)
    requires Walking(s, g) && g.pending != [] && g.pending[0].Failed?
    requires Expands(s.w, g.pending[0], deeper, kids)
    ensures kids + g.pending[1..] == g.pending[1..] && Walking(s, Dropped(g, false))
  {
    DropStep(s, g, false);
  }

  // ------------------------------------------------------------- the whole plan

  datatype CommandCandidate = CommandCandidate(rule: string, tier: nat, argv: seq<string>)

  datatype Plan = Plan(
    candidates: seq<Candidate>, commands: seq<CommandCandidate>, skippedRoots: seq<Path>,
    unmatchedRules: seq<string>, walkErrors: seq<Path>)

  function ScopeOf(w: World, cfg: Config, os: string, maxTier: nat, root: Root): Scope {
    Scope(w, cfg, PathRules(cfg.rules, os, maxTier), root)
  }

  /** `c` is what the plan holds for a directory to be proposed under one of the configured roots. */
  ghost predicate Belongs(w: World, cfg: Config, os: string, maxTier: nat, root: Root, c: Candidate) {
    var s := ScopeOf(w, cfg, os, maxTier, root);
    Walked(w, root) && Proposed(s, c.path) && c == Chosen(s, c.path)
  }

  ghost predicate Justified(w: World, cfg: Config, os: string, maxTier: nat, roots: seq<Root>, c: Candidate) {
    exists r :: r in roots && Belongs(w, cfg, os, maxTier, r, c)
  }

  /** Every proposal of the root is among the candidates. */
  ghost predicate Complete(w: World, cfg: Config, os: string, maxTier: nat, root: Root, cands: seq<Candidate>) {
    Walked(w, root) ==>
      forall p :: Proposed(ScopeOf(w, cfg, os, maxTier, root), p) ==>
        Chosen(ScopeOf(w, cfg, os, maxTier, root), p) in cands
  }

  /** The candidates are the proposals of the given roots, each once. */
  ghost predicate PlannedFor(w: World, cfg: Config, os: string, maxTier: nat, roots: seq<Root>, cands: seq<Candidate>) {
    && (forall c :: c in cands ==> Justified(w, cfg, os, maxTier, roots, c))
    && (forall r :: r in roots ==> Complete(w, cfg, os, maxTier, r, cands))
    && OnceEach(cands)
  }

  ghost predicate OnceEach(cands: seq<Candidate>) {
    forall i, j :: 0 <= i < j < |cands| ==> (cands[i].root, cands[i].path) != (cands[j].root, cands[j].path)
  }

  function RuleNames(cands: seq<Candidate>): set<string> {
    set c | c in cands :: c.rule
  }

  predicate ByPath(a: Candidate, b: Candidate) {
    PathLeq(a.path, b.path)
  }

  ghost predicate RootsDistinct(roots: seq<Root>) {
    forall i, j :: 0 <= i < j < |roots| ==> roots[i].path != roots[j].path
  }

  ghost predicate IsCommand(rule: Rule, os: string, maxTier: nat) {
    rule.kind == CommandRule && rule.tier <= maxTier && (rule.os == [] || os in rule.os)
  }

  /** At these places of the file stand the command rules of this platform and tier, and each is listed with its name,
      its tier and its command line. */
  ghost predicate CommandsAt(rules: seq<Rule>, os: string, maxTier: nat, places: seq<nat>, out: seq<CommandCandidate>) {
    && Increasing(places) && |places| == |out|
    && (forall i: nat :: i in places <==> i < |rules| && IsCommand(rules[i], os, maxTier))
    && (forall k :: 0 <= k < |out| ==>
          && places[k] in places
          && out[k] == CommandCandidate(rules[places[k]].name, rules[places[k]].tier, rules[places[k]].command))
  }

  method Commands(rules: seq<Rule>, os: string, maxTier: nat) returns (out: seq<CommandCandidate>)
    ensures exists places :: CommandsAt(rules, os, maxTier, places, out)
  {
    out := [];
    ghost var places: seq<nat> := [];
    for i := 0 to |rules|
      invariant CommandsAt(rules[..i], os, maxTier, places, out)
    {
      var r := rules[i];
      if r.AppliesTo(os) && r.kind == CommandRule && r.tier <= maxTier {
        NextPlace(places, i);
        out, places := out + [CommandCandidate(r.name, r.tier, r.command)], places + [i];
      }
    }
    assert rules[..|rules|] == rules;
  }

  function Unmatched(rules: seq<Rule>, matched: set<string>): (r: seq<string>)
    ensures forall n :: n in r <==> n !in matched && exists x :: x in rules && x.name == n
  {
    if rules == [] then []
    else
      assert rules == [rules[0]] + rules[1..];
      (if rules[0].name in matched then [] else [rules[0].name]) + Unmatched(rules[1..], matched)
  }

  /** At these places of the file stand the path rules in scope whose names no candidate carries. */
  ghost predicate UnmatchedAt(rules: seq<Rule>, os: string, maxTier: nat, cands: seq<Candidate>, places: seq<nat>,
                              out: seq<string>) {
    && Increasing(places) && |places| == |out|
    && (forall i: nat :: i in places <==>
                           && i < |rules| && Eligible(rules[i], os, maxTier)
                           && forall c :: c in cands ==> c.rule != rules[i].name)
    && (forall k :: 0 <= k < |out| ==> places[k] in places && out[k] == rules[places[k]].name)
  }

  lemma {:induction false} UnmatchedPlaces(rules: seq<Rule>, os: string, maxTier: nat, cands: seq<Candidate>)
    returns (places: seq<nat>)
    ensures UnmatchedAt(rules, os, maxTier, cands, places, Unmatched(PathRules(rules, os, maxTier), RuleNames(cands)))
  {
    hide *;
    var matched := RuleNames(cands);
    if rules == [] {
      NoneUnmatched(os, maxTier, cands);
      places := [];
    } else {
      var before, last := rules[..|rules| - 1], rules[|rules| - 1];
      places := UnmatchedPlaces(before, os, maxTier, cands);
      UnmatchedSnoc(before, last, os, maxTier, matched);
      NextUnmatched(before, last, os, maxTier, cands, places, Unmatched(PathRules(before, os, maxTier), matched));
      assert rules == before + [last];
      places := places + if Eligible(last, os, maxTier) && last.name !in matched then [|rules| - 1] else [];
    }
  }

  lemma NoneUnmatched(os: string, maxTier: nat, cands: seq<Candidate>)
    ensures UnmatchedAt([], os, maxTier, cands, [], Unmatched(PathRules([], os, maxTier), RuleNames(cands)))
  {
  }

  lemma UnmatchedSnoc(rules: seq<Rule>, rule: Rule, os: string, maxTier: nat, matched: set<string>)
    ensures Unmatched(PathRules(rules + [rule], os, maxTier), matched)
            == Unmatched(PathRules(rules, os, maxTier), matched)
               + if Eligible(rule, os, maxTier) && rule.name !in matched then [rule.name] else []
  {
    hide *;
    PathRulesConcat(rules, [rule], os, maxTier);
    UnmatchedConcat(PathRules(rules, os, maxTier), PathRules([rule], os, maxTier), matched);
    LastUnmatched(rule, os, maxTier, matched);
  }

  lemma LastUnmatched(rule: Rule, os: string, maxTier: nat, matched: set<string>)
    ensures Unmatched(PathRules([rule], os, maxTier), matched)
            == if Eligible(rule, os, maxTier) && rule.name !in matched then [rule.name] else []
  {
    assert PathRules([rule], os, maxTier) == if InScope(rule, os, maxTier) then [rule] else [];
  }

  lemma NextUnmatched(rules: seq<Rule>, rule: Rule, os: string, maxTier: nat, cands: seq<Candidate>, places: seq<nat>,
                      out: seq<string>)
    requires UnmatchedAt(rules, os, maxTier, cands, places, out)
    ensures var more := Eligible(rule, os, maxTier) && rule.name !in RuleNames(cands);
            UnmatchedAt(rules + [rule], os, maxTier, cands, places + if more then [|rules|] else [],
                        out + if more then [rule.name] else [])
  {
    hide Eligible;
    NextPlace(places, |rules|);
    assert places + [] == places && out + [] == out;
  }

  lemma {:induction false} PathRulesConcat(a: seq<Rule>, b: seq<Rule>, os: string, maxTier: nat)
    ensures PathRules(a + b, os, maxTier) == PathRules(a, os, maxTier) + PathRules(b, os, maxTier)
  {
    if a == [] {
      assert a + b == b;
    } else {
      assert (a + b)[1..] == a[1..] + b;
      PathRulesConcat(a[1..], b, os, maxTier);
    }
  }

  lemma {:induction false} UnmatchedConcat(a: seq<Rule>, b: seq<Rule>, matched: set<string>)
    ensures Unmatched(a + b, matched) == Unmatched(a, matched) + Unmatched(b, matched)
  {
    if a == [] {
      assert a + b == b;
    } else {
      assert (a + b)[1..] == a[1..] + b;
      UnmatchedConcat(a[1..], b, matched);
    }
  }

  /** The walk of this root is to propose `p`: a directory reached by plain names through open ones, found by some rule,
      where no rule finds a directory on the way. */
  ghost predicate ToPropose(w: World, cfg: Config, os: string, maxTier: nat, root: Root, p: Path) {
    && w.Seen(root.path) == Some(Dir) && root.path < p && w.Seen(p) == Some(Dir)
    && (forall k :: |root.path| <= k < |p| ==> p[k] != ".." && w.Seen(p[..k]) == Some(Dir) && w.readable(p[..k]))
    && (exists rule :: rule in cfg.rules && Finds(w, cfg, os, maxTier, root, rule, p))
    && (forall k, rule :: |root.path| < k < |p| && rule in cfg.rules ==>
          !Finds(w, cfg, os, maxTier, root, rule, p[..k]))
  }

  /** `c` is what the first rule of the file to find the directory makes of it. */
  ghost predicate TracedTo(w: World, cfg: Config, os: string, maxTier: nat, root: Root, c: Candidate) {
    && ToPropose(w, cfg, os, maxTier, root, c.path)
    && exists i :: FindsFirst(w, cfg, cfg.rules, os, maxTier, root, c.path, i) && Carries(w, cfg.rules[i], root, c)
  }

  lemma HitAtMeans(w: World, cfg: Config, os: string, maxTier: nat, root: Root, p: Path)
    requires root.path < p
    ensures HitAt(ScopeOf(w, cfg, os, maxTier, root), p).Some? <==>
              exists rule :: rule in cfg.rules && Finds(w, cfg, os, maxTier, root, rule, p)
  {
    hide Finds, FirstHit;
    FirstHitMeans(w, cfg, os, maxTier, cfg.rules, root, p);
  }

  lemma ProposedMeans(w: World, cfg: Config, os: string, maxTier: nat, root: Root, p: Path)
    requires Walked(w, root)
    ensures Proposed(ScopeOf(w, cfg, os, maxTier, root), p) <==> ToPropose(w, cfg, os, maxTier, root, p)
  {
    hide Finds, HitAt;
    if root.path < p {
      HitAtMeans(w, cfg, os, maxTier, root, p);
      forall k | |root.path| < k < |p|
        ensures root.path < p[..k]
        ensures HitAt(ScopeOf(w, cfg, os, maxTier, root), p[..k]).Some? <==>
                  exists rule :: rule in cfg.rules && Finds(w, cfg, os, maxTier, root, rule, p[..k])
      {
        HitAtMeans(w, cfg, os, maxTier, root, p[..k]);
      }
    }
  }

  /** A plan's candidates are what its rules and roots say and its measurements show. */
  lemma PlannedMeans(w: World, cfg: Config, os: string, maxTier: nat, cands: seq<Candidate>)
    requires PlannedFor(w, cfg, os, maxTier, cfg.roots, cands)
    ensures forall c :: c in cands ==> exists root :: root in cfg.roots && TracedTo(w, cfg, os, maxTier, root, c)
    ensures forall root, p :: root in cfg.roots && ToPropose(w, cfg, os, maxTier, root, p) ==>
              exists c :: c in cands && c.root == root.path && c.path == p
  {
    hide ToPropose, Proposed, Chosen, FindsFirst, Carries;
    forall c | c in cands ensures exists root :: root in cfg.roots && TracedTo(w, cfg, os, maxTier, root, c) {
      var root :| root in cfg.roots && Belongs(w, cfg, os, maxTier, root, c);
      BelongsTraced(w, cfg, os, maxTier, root, c);
    }
    forall root, p | root in cfg.roots && ToPropose(w, cfg, os, maxTier, root, p)
      ensures exists c :: c in cands && c.root == root.path && c.path == p
    {
      ToProposeChosen(w, cfg, os, maxTier, root, p);
      assert Complete(w, cfg, os, maxTier, root, cands);
    }
  }

  lemma ToProposeChosen(w: World, cfg: Config, os: string, maxTier: nat, root: Root, p: Path)
    requires ToPropose(w, cfg, os, maxTier, root, p)
    ensures Walked(w, root) && Proposed(ScopeOf(w, cfg, os, maxTier, root), p)
    ensures var c := Chosen(ScopeOf(w, cfg, os, maxTier, root), p); c.root == root.path && c.path == p
  {
    hide FirstHit, Finds;
    ProposedMeans(w, cfg, os, maxTier, root, p);
  }

  lemma BelongsTraced(w: World, cfg: Config, os: string, maxTier: nat, root: Root, c: Candidate)
    requires Belongs(w, cfg, os, maxTier, root, c)
    ensures TracedTo(w, cfg, os, maxTier, root, c)
  {
    hide Finds, FirstHit, Reached, Carries;
    ProposedMeans(w, cfg, os, maxTier, root, c.path);
    FirstHitMeans(w, cfg, os, maxTier, cfg.rules, root, c.path);
    var rule := HitAt(ScopeOf(w, cfg, os, maxTier, root), c.path).value;
    CarriesMade(w, rule, root, c.path);
  }

  /** At these places stand the roots that are no directories, or links to one. */
  ghost predicate SkippedAt(w: World, roots: seq<Root>, places: seq<nat>, out: seq<Path>) {
    && Increasing(places) && |places| == |out|
    && (forall i: nat :: i in places <==> i < |roots| && w.Seen(roots[i].path) != Some(Dir))
    && (forall k :: 0 <= k < |out| ==> places[k] in places && out[k] == roots[places[k]].path)
  }

  lemma NoneSkipped(w: World)
    ensures SkippedAt(w, [], [], []) && InRootOrder([], [])
  {
  }

  lemma NextSkipped(w: World, roots: seq<Root>, root: Root, places: seq<nat>, out: seq<Path>)
    requires SkippedAt(w, roots, places, out)
    ensures w.Seen(root.path) != Some(Dir) ==>
              SkippedAt(w, roots + [root], places + [|roots|], out + [root.path])
    ensures w.Seen(root.path) == Some(Dir) ==> SkippedAt(w, roots + [root], places, out)
  {
    NextPlace(places, |roots|);
  }

  ghost predicate Listed(roots: seq<Root>, a: Path, b: Path) {
    exists k, l :: 0 <= k < l < |roots| && roots[k].path == a && roots[l].path == b
  }

  /** Not after one another by their paths, and with one path, in the order of their roots. */
  ghost predicate InPlanOrder(roots: seq<Root>, a: Candidate, b: Candidate) {
    !PathBefore(b.path, a.path) && (a.path == b.path ==> Listed(roots, a.root, b.root))
  }

  ghost predicate Declared(roots: seq<Root>, a: Path) {
    exists k :: 0 <= k < |roots| && roots[k].path == a
  }

  lemma ListedMore(some: seq<Root>, all: seq<Root>, a: Path, b: Path)
    requires some <= all
    ensures Declared(some, a) ==> Declared(all, a)
    ensures Listed(some, a, b) ==> Listed(all, a, b)
  {
    if Declared(some, a) {
      var k :| 0 <= k < |some| && some[k].path == a;
      assert all[k] == some[k];
    }
    if Listed(some, a, b) {
      var k, l :| 0 <= k < l < |some| && some[k].path == a && some[l].path == b;
      assert all[k] == some[k] && all[l] == some[l];
    }
  }

  lemma ListedLast(roots: seq<Root>, root: Root, a: Path)
    ensures Declared(roots + [root], root.path)
    ensures Declared(roots, a) ==> Listed(roots + [root], a, root.path)
  {
    var more := roots + [root];
    assert more[|roots|] == root;
    if Declared(roots, a) {
      var k :| 0 <= k < |roots| && roots[k].path == a;
      assert more[k] == roots[k];
    }
  }

  ghost predicate InRootOrder(roots: seq<Root>, cands: seq<Candidate>) {
    && (forall i :: 0 <= i < |cands| ==> Declared(roots, cands[i].root))
    && (forall i, j :: 0 <= i < j < |cands| && cands[i].root != cands[j].root ==>
          Listed(roots, cands[i].root, cands[j].root))
  }

  lemma RootOrderMore(roots: seq<Root>, root: Root, cands: seq<Candidate>, more: seq<Candidate>)
    requires InRootOrder(roots, cands) && forall c :: c in more ==> c.root == root.path
    ensures InRootOrder(roots + [root], cands + more)
  {
    hide Listed, Declared;
    var all, longer := cands + more, roots + [root];
    assert forall j :: |cands| <= j < |all| ==> all[j] in more;
    forall i | 0 <= i < |all| ensures Declared(longer, all[i].root) {
      if i < |cands| {
        ListedMore(roots, longer, all[i].root, all[i].root);
      } else {
        ListedLast(roots, root, root.path);
      }
    }
    forall i, j | 0 <= i < j < |all| && all[i].root != all[j].root ensures Listed(longer, all[i].root, all[j].root) {
      if j < |cands| {
        ListedMore(roots, longer, all[i].root, all[j].root);
      } else {
        assert i < |cands|;
        ListedLast(roots, root, all[i].root);
      }
    }
  }

  lemma RootOrderAll(some: seq<Root>, all: seq<Root>, cands: seq<Candidate>)
    requires InRootOrder(some, cands) && some <= all
    ensures InRootOrder(all, cands)
  {
    hide Listed, Declared;
    forall i | 0 <= i < |cands| ensures Declared(all, cands[i].root) {
      ListedMore(some, all, cands[i].root, cands[i].root);
    }
    forall i, j | 0 <= i < j < |cands| && cands[i].root != cands[j].root
      ensures Listed(all, cands[i].root, cands[j].root)
    {
      ListedMore(some, all, cands[i].root, cands[j].root);
    }
  }

  lemma PlannedOnce(w: World, cfg: Config, os: string, maxTier: nat, cands: seq<Candidate>)
    requires PlannedFor(w, cfg, os, maxTier, cfg.roots, cands)
    ensures OnceEach(cands)
  {
  }

  lemma PlanOrdered(roots: seq<Root>, cands: seq<Candidate>)
    requires InRootOrder(roots, cands)
    requires OnceEach(cands)
    ensures var sorted := SortBy(cands, ByPath);
            forall i, j :: 0 <= i < j < |sorted| ==> InPlanOrder(roots, sorted[i], sorted[j])
  {
    hide SortBy, PathLess, PathBefore, Listed;
    var sorted := SortBy(cands, ByPath);
    PathLeqTotalPreorder();
    assert TotalPreorder(ByPath);
    SortSorts(cands, ByPath);
    forall i, j | 0 <= i < j < |sorted| ensures InPlanOrder(roots, sorted[i], sorted[j]) {
      assert ByPath(sorted[i], sorted[j]);
      PathOrderMeans(sorted[j].path, sorted[i].path);
      if sorted[i].path == sorted[j].path {
        SortStable(cands, ByPath, i, j);
        var k, l :| 0 <= k < l < |cands| && cands[k] == sorted[i] && cands[l] == sorted[j];
      }
    }
  }

  method MakePlan(w: World, cfg: Config, os: string, maxTier: nat) returns (out: Plan)
    requires WellFormed(w.tree) && RootsDistinct(cfg.roots)
    ensures PlannedFor(w, cfg, os, maxTier, cfg.roots, out.candidates) && SortedBy(out.candidates, ByPath)
    // A rule is reported as matching nothing exactly when no candidate carries its name.
    ensures forall n :: n in out.unmatchedRules <==>
              && (forall c :: c in out.candidates ==> c.rule != n)
              && exists x :: x in PathRules(cfg.rules, os, maxTier) && x.name == n
    ensures if PathRules(cfg.rules, os, maxTier) == [] then out.skippedRoots == []
            else exists places :: SkippedAt(w, cfg.roots, places, out.skippedRoots)
    ensures exists places :: UnmatchedAt(cfg.rules, os, maxTier, out.candidates, places, out.unmatchedRules)
    // In terms of rules, roots and measurements.
    ensures forall c :: c in out.candidates ==>
              exists root :: root in cfg.roots && TracedTo(w, cfg, os, maxTier, root, c)
    ensures forall root, p :: root in cfg.roots && ToPropose(w, cfg, os, maxTier, root, p) ==>
              exists c :: c in out.candidates && c.root == root.path && c.path == p
    // In the order of paths, and where roots nest, of the roots they were found from.
    ensures forall i, j :: 0 <= i < j < |out.candidates| ==>
              InPlanOrder(cfg.roots, out.candidates[i], out.candidates[j])
    ensures exists places :: CommandsAt(cfg.rules, os, maxTier, places, out.commands)
    // Every place that some walk could not read, and nothing else; without rules there is no walk.
    ensures PathRules(cfg.rules, os, maxTier) != [] ==>
              forall p :: p in out.walkErrors <==>
                            exists r :: r in cfg.roots && Walked(w, r) && Broken(ScopeOf(w, cfg, os, maxTier, r), p)
    ensures PathRules(cfg.rules, os, maxTier) == [] ==> out.walkErrors == []
  {
    hide WellFormed, Justified, PlannedFor, SortBy, PathLeq, Broken, ToPropose, TracedTo, CommandsAt, UnmatchedAt,
      SkippedAt, InRootOrder, InPlanOrder;
    var rules := PathRules(cfg.rules, os, maxTier);
    var cands: seq<Candidate> := [];
    var matched: set<string> := {};
    var skipped: seq<Path> := [];
    ghost var skips: seq<nat> := [];
    NoneSkipped(w);
    var errors: seq<Path> := [];
    PlannedForNone(w, cfg, os, maxTier);
    assert cfg.roots[..|cfg.roots|] == cfg.roots;
    for i := 0 to |cfg.roots|
      invariant PlannedFor(w, cfg, os, maxTier, cfg.roots[..i], cands)
      invariant matched == RuleNames(cands)
      invariant SkippedAt(w, cfg.roots[..i], skips, skipped) && InRootOrder(cfg.roots[..i], cands)
      invariant rules == [] ==> errors == [] && skipped == []
      invariant rules != [] ==>
                  forall p :: p in errors <==>
                                exists r :: r in cfg.roots[..i] && Walked(w, r)
                                  && Broken(ScopeOf(w, cfg, os, maxTier, r), p)
    {
      if rules == [] {
        NoRulesNoPlan(w, cfg, os, maxTier, cfg.roots[..i], cfg.roots, cands);
        RootOrderAll(cfg.roots[..i], cfg.roots, cands);
        break;
      }
      var root := cfg.roots[i];
      assert cfg.roots[..i + 1] == cfg.roots[..i] + [root];
      NextSkipped(w, cfg.roots[..i], root, skips, skipped);
      if w.Seen(root.path) != Some(Dir) {
        skipped, skips := skipped + [root.path], skips + [i];
        RootOrderMore(cfg.roots[..i], root, cands, []);
        assert cands + [] == cands;
        SkipRoot(w, cfg, os, maxTier, cfg.roots[..i], root, cands);
        continue;
      }
      var s := Scope(w, cfg, rules, root);
      var more, errs := PlanRoot(s);
      errors := errors + errs;
      PlanOneMore(w, cfg, os, maxTier, cfg.roots[..i], root, cands, more);
      RootOrderMore(cfg.roots[..i], root, cands, more);
      matched := matched + RuleNames(more);
      cands := cands + more;
    }
    SortPlan(w, cfg, os, maxTier, cfg.roots, cands);
    assert OnceEach(cands) by { PlannedOnce(w, cfg, os, maxTier, cands); }
    PlanOrdered(cfg.roots, cands);
    PlannedMeans(w, cfg, os, maxTier, SortBy(cands, ByPath));
    ghost var unmatched := UnmatchedPlaces(cfg.rules, os, maxTier, SortBy(cands, ByPath));
    var commands := Commands(cfg.rules, os, maxTier);
    out := Plan(SortBy(cands, ByPath), commands, skipped, Unmatched(rules, matched), errors);
  }

  lemma PlannedForNone(w: World, cfg: Config, os: string, maxTier: nat)
    ensures PlannedFor(w, cfg, os, maxTier, [], [])
  {
  }

  lemma NoRulesNoPlan(w: World, cfg: Config, os: string, maxTier: nat, some: seq<Root>,
                     all: seq<Root>, cands: seq<Candidate>)
    requires PlannedFor(w, cfg, os, maxTier, some, cands) && PathRules(cfg.rules, os, maxTier) == []
    ensures PlannedFor(w, cfg, os, maxTier, all, cands) && cands == []
  {
    forall c ensures c !in cands { NotJustified(w, cfg, os, maxTier, some, c); }
    SomeMember(cands);
    forall r | r in all ensures Complete(w, cfg, os, maxTier, r, cands) {
      forall p ensures !Proposed(ScopeOf(w, cfg, os, maxTier, r), p) { NotBelonging(w, cfg, os, maxTier, r, p); }
    }
  }

  lemma SomeMember<T>(s: seq<T>)
    ensures s == [] || exists x :: x in s
  {
    if s != [] { assert s[0] in s; }
  }

  lemma NotBelonging(w: World, cfg: Config, os: string, maxTier: nat, root: Root, p: Path)
    requires PathRules(cfg.rules, os, maxTier) == []
    ensures !Proposed(ScopeOf(w, cfg, os, maxTier, root), p)
  {
  }

  lemma NotJustified(w: World, cfg: Config, os: string, maxTier: nat, roots: seq<Root>, c: Candidate)
    requires PathRules(cfg.rules, os, maxTier) == []
    ensures !Justified(w, cfg, os, maxTier, roots, c)
  {
  }

  lemma MoreRoots(w: World, cfg: Config, os: string, maxTier: nat, roots: seq<Root>, root: Root, c: Candidate)
    requires Justified(w, cfg, os, maxTier, roots, c)
    ensures Justified(w, cfg, os, maxTier, roots + [root], c)
  {
  }

  lemma SkipRoot(w: World, cfg: Config, os: string, maxTier: nat, roots: seq<Root>, root: Root, cands: seq<Candidate>)
    requires PlannedFor(w, cfg, os, maxTier, roots, cands) && !Walked(w, root)
    ensures PlannedFor(w, cfg, os, maxTier, roots + [root], cands)
  {
  }

  lemma PlanOneMore(w: World, cfg: Config, os: string, maxTier: nat, roots: seq<Root>, root: Root,
                    cands: seq<Candidate>, more: seq<Candidate>)
    requires PlannedFor(w, cfg, os, maxTier, roots, cands) && Walked(w, root)
    requires forall r :: r in roots ==> r.path != root.path
    requires var s := ScopeOf(w, cfg, os, maxTier, root);
             && (forall i :: 0 <= i < |more| ==> Proposed(s, more[i].path) && more[i] == Chosen(s, more[i].path))
             && (forall p :: Proposed(s, p) ==> Chosen(s, p) in more)
             && (forall i, j :: 0 <= i < j < |more| ==> more[i].path != more[j].path)
    ensures PlannedFor(w, cfg, os, maxTier, roots + [root], cands + more)
  {
    var all := cands + more;
    forall c | c in more ensures c.root == root.path && Belongs(w, cfg, os, maxTier, root, c) {
      hide Proposed;
    }
    hide Proposed, Chosen, Justified;
    forall c | c in cands ensures c.root != root.path { OtherRoot(w, cfg, os, maxTier, roots, root, c); }
    forall c | c in all ensures Justified(w, cfg, os, maxTier, roots + [root], c) {
      if c in cands { MoreRoots(w, cfg, os, maxTier, roots, root, c); }
      else { JustifiedBy(w, cfg, os, maxTier, roots + [root], root, c); }
    }
    forall r | r in roots + [root] ensures Complete(w, cfg, os, maxTier, r, all) {
    }
    forall i, j | 0 <= i < j < |all| ensures (all[i].root, all[i].path) != (all[j].root, all[j].path) {
      if i < |cands| <= j { assert cands[i] in cands && more[j - |cands|] in more; }
    }
  }

  lemma JustifiedBy(w: World, cfg: Config, os: string, maxTier: nat, roots: seq<Root>, root: Root, c: Candidate)
    requires root in roots && Belongs(w, cfg, os, maxTier, root, c)
    ensures Justified(w, cfg, os, maxTier, roots, c)
  {
  }

  lemma OtherRoot(w: World, cfg: Config, os: string, maxTier: nat, roots: seq<Root>, root: Root, c: Candidate)
    requires Justified(w, cfg, os, maxTier, roots, c) && forall r :: r in roots ==> r.path != root.path
    ensures c.root != root.path
  {
  }

  lemma SortPlan(w: World, cfg: Config, os: string, maxTier: nat, roots: seq<Root>, cands: seq<Candidate>)
    requires PlannedFor(w, cfg, os, maxTier, roots, cands)
    ensures PlannedFor(w, cfg, os, maxTier, roots, SortBy(cands, ByPath)) && SortedBy(SortBy(cands, ByPath), ByPath)
    ensures RuleNames(SortBy(cands, ByPath)) == RuleNames(cands)
  {
    hide SortBy, Justified, Proposed, Chosen, PathLeq;
    var sorted := SortBy(cands, ByPath);
    SortMembers(cands, ByPath);
    PathLeqTotalPreorder();
    assert TotalPreorder(ByPath);
    SortSorts(cands, ByPath);
    SortDistinct(cands, ByPath);
    forall i, j | 0 <= i < j < |sorted| ensures (sorted[i].root, sorted[i].path) != (sorted[j].root, sorted[j].path) {
      assert sorted[i] in cands && sorted[j] in cands && sorted[i] != sorted[j];
    }
  }

  // ------------------------------------------------------------- raising the tier

  /** Whatever is proposed at one tier lies in something proposed at any higher tier. */
  lemma HigherTierCovers(w: World, cfg: Config, os: string, low: nat, high: nat, root: Root, p: Path)
    requires low <= high && Proposed(ScopeOf(w, cfg, os, low, root), p)
    ensures exists k :: |root.path| < k <= |p| && Proposed(ScopeOf(w, cfg, os, high, root), p[..k])
  {
    hide FirstHit, HitAt, Reached;
    MoreRulesHit(w, cfg, os, low, high, root, p);
    assert p[..|p|] == p;
    ReachedBelow(ScopeOf(w, cfg, os, low, root), p);
    var k := FirstHitAlong(ScopeOf(w, cfg, os, high, root), p, |root.path| + 1);
    PrefixProposed(ScopeOf(w, cfg, os, low, root), ScopeOf(w, cfg, os, high, root), p, k);
  }

  lemma PrefixProposed(s: Scope, t: Scope, p: Path, k: nat)
    requires s.w == t.w && s.root == t.root && Proposed(s, p) && |s.root.path| < k <= |p|
    requires s.root.path < p[..k] && HitAt(t, p[..k]).Some?
    requires forall i :: |s.root.path| < i < k ==> s.root.path < p[..i] && HitAt(t, p[..i]).None?
    ensures Proposed(t, p[..k])
  {
    hide HitAt;
    var d := p[..k];
    assert forall i :: 0 <= i <= k ==> d[..i] == p[..i];
    assert forall i :: 0 <= i < k ==> d[i] == p[i];
    if k < |p| { assert Open(s.w, p[..k]); } else { assert d == p; }
  }

  lemma MoreRulesHit(w: World, cfg: Config, os: string, low: nat, high: nat, root: Root, p: Path)
    requires low <= high && root.path < p && HitAt(ScopeOf(w, cfg, os, low, root), p).Some?
    ensures HitAt(ScopeOf(w, cfg, os, high, root), p).Some?
  {
  }

  /** The shortest prefix of `p` past the root, from length `from` on, that is hit. */
  lemma {:induction false} FirstHitAlong(s: Scope, p: Path, from: nat) returns (k: nat)
    requires s.root.path < p && |s.root.path| < from <= |p| && HitAt(s, p).Some?
    requires forall i :: |s.root.path| < i < from ==> s.root.path < p[..i] && HitAt(s, p[..i]).None?
    ensures from <= k <= |p| && s.root.path < p[..k] && HitAt(s, p[..k]).Some?
    ensures forall i :: |s.root.path| < i < k ==> s.root.path < p[..i] && HitAt(s, p[..i]).None?
    decreases |p| - from
  {
    assert s.root.path < p[..from];
    if HitAt(s, p[..from]).Some? {
      k := from;
    } else {
      assert p[..|p|] == p;
      k := FirstHitAlong(s, p, from + 1);
    }
  }
}

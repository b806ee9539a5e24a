/** Sweeping again: what the second plan holds and selects, told from what was seen before the first. */
module Idempotence {
  import opened Paths
  import opened FileSystem
  import opened Options
  import opened Resolve
  import opened Worlds
  import opened Rules
  import opened Plans
  import opened Guards
  import opened Sweeps
  import opened Replanning
  import CrashSafety
  import Disks
  import Quarantine

  // ------------------------------------------------------------- what was staged

  /** What a run plans and judges with. */
  datatype Terms = Terms(cfg: Config, os: string, maxTier: nat, ctx: GuardContext)

  /** The same on a tree seen later: the canonical roots are computed anew. */
  function Reloaded(m: Terms, v: World): Terms {
    m.(ctx := m.ctx.(roots := CanonicalRoots(v, m.cfg.roots)))
  }

  function ScopeAt(w: World, m: Terms, root: Root): Scope {
    ScopeOf(w, m.cfg, m.os, m.maxTier, root)
  }

  ghost predicate Disjoint(w: World, x: Root, y: Root) {
    Canonicalize(w.tree, x.path).Some? && Canonicalize(w.tree, y.path).Some? ==>
      Apart(Canonicalize(w.tree, x.path).value, Canonicalize(w.tree, y.path).value)
  }

  /** Roots resolve to places apart from one another and from quarantine. */
  ghost predicate BasesApart(w: World, roots: seq<Root>, q: Path) {
    && (forall x :: x in roots && Canonicalize(w.tree, x.path).Some? ==> Apart(Canonicalize(w.tree, x.path).value, q))
    && (forall x, y :: x in roots && y in roots && x != y ==> Disjoint(w, x, y))
  }

  ghost predicate Selected(w: World, m: Terms, root: Root, p: Path) {
    var s := ScopeAt(w, m, root);
    Proposed(s, p) && Selectable(Chosen(s, p), w, m.ctx)
  }

  /** `d` is where a selected proposal of `root` was staged from. */
  ghost predicate IsTop(w: World, m: Terms, root: Root, p: Path, d: Path) {
    && root in m.cfg.roots && Walked(w, root) && Selected(w, m, root, p)
    && Contained(w, p, root.path, m.ctx.roots) == Some(d)
  }

  /** The sweep staged all that was selected and nothing else. */
  ghost predicate AllTaken(a: Sweep, m: Terms) {
    forall d :: d in a.tops <==> exists root, p :: IsTop(a.w, m, root, p, d)
  }

  lemma TopIsPlace(w: World, m: Terms, root: Root, p: Path, d: Path)
    requires IsTop(w, m, root, p, d)
    ensures root.path < p && PlainTail(root.path, p)
    ensures Canonicalize(w.tree, root.path).Some? && d == PlaceIn(ScopeAt(w, m, root), p)
  {
    ContainedSpelling(w, p, root.path, m.ctx.roots);
  }

  lemma PlaceSplits(s: Scope, e: Path, p: Path)
    requires Canonicalize(s.w.tree, s.root.path).Some? && s.root.path <= e && s.root.path <= p
    ensures PlaceIn(s, e) <= PlaceIn(s, p) ==> e <= p
    ensures PlaceIn(s, e) == PlaceIn(s, p) ==> e == p
  {
    var b, n := Base(s), |s.root.path|;
    assert (b + e[n..])[|b|..] == e[n..] && (b + p[n..])[|b|..] == p[n..];
    assert e == s.root.path + e[n..] && p == s.root.path + p[n..];
    if PlaceIn(s, e) <= PlaceIn(s, p) {
      assert e[n..] == (b + p[n..])[..|b + e[n..]|][|b|..];
      assert e[n..] <= p[n..];
    }
  }

  /** Whatever was staged at or above a place below a root is a selected proposal of that root. */
  lemma TopAbove(a: Sweep, m: Terms, root: Root, p: Path, d: Path) returns (e: Path)
    requires AllTaken(a, m) && BasesApart(a.w, m.cfg.roots, a.q) && root in m.cfg.roots && root.path <= p
    requires Canonicalize(a.w.tree, root.path).Some?
    requires d in a.tops && d <= PlaceIn(ScopeAt(a.w, m, root), p)
    ensures IsTop(a.w, m, root, e, d) && d == PlaceIn(ScopeAt(a.w, m, root), e) && root.path < e && e <= p
  {
    hide Selected, Contained, Walked, Canonicalize;
    var other;
    other, e :| IsTop(a.w, m, other, e, d);
    TopIsPlace(a.w, m, other, e, d);
    var s := ScopeAt(a.w, m, root);
    assert Base(ScopeAt(a.w, m, other)) <= d && Base(s) <= PlaceIn(s, p);
    if other != root {
      PrefixesCompare(Base(ScopeAt(a.w, m, other)), Base(s), PlaceIn(s, p));
      assert false;
    }
    PlaceSplits(s, e, p);
  }

  /** A proposal survives exactly if it was not selected. */
  lemma SurvivesUnselected(a: Sweep, m: Terms, root: Root, p: Path)
    requires AllTaken(a, m) && BasesApart(a.w, m.cfg.roots, a.q) && root in m.cfg.roots && Walked(a.w, root)
    requires Proposed(ScopeAt(a.w, m, root), p) && Canonicalize(a.w.tree, root.path).Some?
    ensures a.Survives(PlaceIn(ScopeAt(a.w, m, root), p)) <==> !Selected(a.w, m, root, p)
  {
    hide Contained, Canonicalize, Reached, HitAt, BasesApart, LStat;
    var s := ScopeAt(a.w, m, root);
    if Selected(a.w, m, root, p) {
      SelectedContained(a.w, m, root, p);
      var d := Contained(a.w, p, root.path, m.ctx.roots).value;
      assert IsTop(a.w, m, root, p, d);
      TopIsPlace(a.w, m, root, p, d);
      assert d in a.tops && d <= PlaceIn(s, p);
    } else {
      forall d | d in a.tops ensures !(d <= PlaceIn(s, p)) {
        if d <= PlaceIn(s, p) {
          var e := TopAbove(a, m, root, p, d);
          if e != p { ProposalsApart(s, e, p); }
          assert false;
        }
      }
    }
  }

  lemma SelectedContained(w: World, m: Terms, root: Root, p: Path)
    requires Selected(w, m, root, p)
    ensures Contained(w, p, root.path, m.ctx.roots).Some?
  {
  }

  // ------------------------------------------------------------- the guards after

  /** A missing component of quarantine's own path is not `.git`. */
  predicate NoGitMade(a: Sweep) {
    forall i :: 0 <= i < |a.q| && a.q[..i + 1] !in a.w.tree ==> a.q[i] != ".git"
  }

  /** Roots lie apart from one another and from quarantine, which resolving them does not look at. They may be missing,
      be links, or be reached through links. */
  ghost predicate WellPlaced(a: Sweep, m: Terms) {
    BasesApart(a.w, m.cfg.roots, a.q) && NoGitMade(a) && forall r :: r in m.cfg.roots ==> Clears(a, r.path)
  }

  /** All that was selected, and only that, is staged. */
  ghost predicate Swept(a: Sweep, m: Terms) {
    a.Valid() && WellPlaced(a, m) && AllTaken(a, m) && m == Reloaded(m, a.w)
  }

  lemma ScopesAgain(a: Sweep, m: Terms, root: Root)
    requires Swept(a, m) && root in m.cfg.roots && Walked(a.w, root) && WayIntact(a.w, a.tops, root.path)
    ensures SameScope(a, ScopeAt(a.w, m, root), ScopeAt(a.Next(), m, root))
    ensures Canonicalize(a.w.tree, root.path).Some? && Apart(Base(ScopeAt(a.w, m, root)), a.q)
    ensures Canonicalize(a.after, root.path).Some?
  {
    hide Sweep.Valid, AllTaken, Canonicalize, Way;
    Bases(a, ScopeAt(a.w, m, root), ScopeAt(a.Next(), m, root));
  }

  /** A directory walked below a root that is still there after the sweep. */
  ghost predicate StillThere(a: Sweep, m: Terms, root: Root, p: Path) {
    && root in m.cfg.roots && Walked(a.w, root) && WayIntact(a.w, a.tops, root.path)
    && root.path < p && PlainTail(root.path, p)
    && DirsDown(a.w, root.path, p, |p|) && DirsDown(a.Next(), root.path, p, |p|)
    && a.w.Seen(p) == Some(Dir) == a.Next().Seen(p)
  }

  /** Every directory from the root down to it resolves as before. */
  lemma AlikeDown(a: Sweep, m: Terms, root: Root, p: Path, k: nat)
    requires Swept(a, m) && StillThere(a, m, root, p) && |root.path| <= k <= |p|
    ensures Canonicalize(a.w.tree, root.path).Some? && Alike(a, p[..k])
    ensures Canonicalize(a.w.tree, p[..k]) == Some(PlaceIn(ScopeAt(a.w, m, root), p[..k]))
  {
    hide AllTaken, Sweep.Survives, LStat, Canonicalize;
    var s, next := ScopeAt(a.w, m, root), ScopeAt(a.Next(), m, root);
    ScopesAgain(a, m, root);
    assert p[..|p|] == p;
    AlikeAt(a, s, next, p, k);
  }

  /** No pin marker that holds back a surviving candidate is ever staged itself: it would have held itself back. */
  lemma PinsStay(a: Sweep, m: Terms, root: Root, p: Path, k: nat)
    requires Swept(a, m) && StillThere(a, m, root, p) && |root.path| <= k <= |p|
    ensures a.Next().Has(p[..k], m.ctx.pinMarker) == a.w.Has(p[..k], m.ctx.pinMarker)
  {
    hide HitAt, Sweep.Survives, LStat, Canonicalize, Contained, Sweep.Valid, Way;
    AlikeDown(a, m, root, p, k);
    if m.ctx.pinMarker != DOTDOT {
      PinNotStaged(a, m, root, p[..k]);
      ScopesAgain(a, m, root);
      NotAbove(Base(ScopeAt(a.w, m, root)), a.q, PlaceIn(ScopeAt(a.w, m, root), p[..k]), m.ctx.pinMarker);
    }
    HasStays(a, p[..k], m.ctx.pinMarker);
  }

  lemma PinNotStaged(a: Sweep, m: Terms, root: Root, dir: Path)
    requires AllTaken(a, m) && BasesApart(a.w, m.cfg.roots, a.q) && root in m.cfg.roots && root.path <= dir
    requires Canonicalize(a.w.tree, root.path).Some?
    ensures PlaceIn(ScopeAt(a.w, m, root), dir) + [m.ctx.pinMarker] !in a.tops
  {
    hide Selected, Contained, BasesApart, Canonicalize, AllTaken;
    var s, pin := ScopeAt(a.w, m, root), dir + [m.ctx.pinMarker];
    var d := PlaceIn(s, dir) + [m.ctx.pinMarker];
    assert PlaceIn(s, pin) == d && Last(pin) == m.ctx.pinMarker;
    if d in a.tops {
      var e := TopAbove(a, m, root, pin, d);
      PlaceSplits(s, e, pin);
      MarkerPinned(a.w, m, root, pin, |dir|);
      assert false;
    }
  }

  /** A directory that is itself a pin marker is held back by itself. */
  lemma MarkerPinned(w: World, m: Terms, root: Root, pin: Path, k: nat)
    requires |root.path| <= k && |pin| == k + 1 && Last(pin) == m.ctx.pinMarker
    ensures !Selected(w, m, root, pin)
  {
    var s := ScopeAt(w, m, root);
    if Proposed(s, pin) {
      assert pin == pin[..k] + [m.ctx.pinMarker];
      assert w.Has(pin[..k], m.ctx.pinMarker);
      AnyPinRejects(Chosen(s, pin), w, m.ctx, k);
    }
  }

  /** The floor never lets a `.git` entry be staged. */
  lemma NoGitStaged(a: Sweep, m: Terms, c: Path)
    requires AllTaken(a, m)
    ensures c + [".git"] !in a.tops
  {
    var d := c + [".git"];
    forall root, p ensures !IsTop(a.w, m, root, p, d) {
      GitNotTop(a.w, m, root, p, c);
    }
  }

  lemma GitNotTop(w: World, m: Terms, root: Root, p: Path, c: Path)
    ensures !IsTop(w, m, root, p, c + [".git"])
  {
    hide Contained, Proposed, Floor;
    GitFloored(c, m.ctx.home);
  }

  lemma GitFloored(c: Path, home: Option<Path>)
    ensures Floor(c + [".git"], home) == Reject
  {
    var d := c + [".git"];
    assert d[|c|] == ".git" && ".git" == FORBIDDEN_COMPONENTS[0];
  }

  lemma GitStays(a: Sweep, m: Terms, root: Root, p: Path, k: nat)
    requires Swept(a, m) && StillThere(a, m, root, p) && k <= |p|
    ensures a.Next().Has(p[..k], ".git") == a.w.Has(p[..k], ".git")
  {
    hide HitAt, Sweep.Survives, LStat, Canonicalize, BasesApart, Sweep.Valid, AllTaken;
    if k < |root.path| {
      assert p[..k] == root.path[..k];
      ScopesAgain(a, m, root);
      PrefixAgain(a, root.path, k);
    } else {
      AlikeDown(a, m, root, p, k);
    }
    if Canonicalize(a.w.tree, p[..k]).Some? {
      var c := Canonicalize(a.w.tree, p[..k]).value;
      NoGitStaged(a, m, c);
      GitNotMade(a, c);
    }
    HasStays(a, p[..k], ".git");
  }

  lemma GitNotMade(a: Sweep, c: Path)
    requires NoGitMade(a)
    ensures c + [".git"] <= a.q ==> c + [".git"] in a.w.tree
  {
    if c + [".git"] <= a.q {
      assert a.q[..|c| + 1] == c + [".git"] && (c + [".git"])[|c|] == a.q[|c|];
    }
  }

  /** Of roots apart from one another only one can hold a path. */
  lemma OnlyHolder(v: World, roots: seq<Root>, root: Root, base: Path, c: Path)
    requires root in roots && v.Canon(root.path) == Some(base) && base < c
    requires forall y :: y in roots && y != root && v.Canon(y.path).Some? ==> Apart(v.Canon(y.path).value, base)
    ensures FirstHolding(CanonicalRoots(v, roots), c) == Some(base)
  {
    hide FirstHolding, CanonicalRoots, World.Canon;
    var held := FirstHolding(CanonicalRoots(v, roots), c);
    assert base in CanonicalRoots(v, roots);
    var y :| y in roots && v.Canon(y.path) == Some(held.value);
    if y != root { PrefixesCompare(held.value, base, c); }
  }

  lemma RootHolds(a: Sweep, m: Terms, root: Root, c: Path)
    requires Swept(a, m) && root in m.cfg.roots && WayIntact(a.w, a.tops, root.path) && a.w.Canon(root.path).Some?
    requires a.w.Canon(root.path).value < c
    ensures FirstHolding(m.ctx.roots, c) == a.w.Canon(root.path) == a.Next().Canon(root.path)
    ensures FirstHolding(CanonicalRoots(a.Next(), m.cfg.roots), c) == a.w.Canon(root.path)
  {
    hide FirstHolding, CanonicalRoots, Canonicalize, Sweep.Valid, AllTaken, WayIntact;
    var base := a.w.Canon(root.path).value;
    ResolvesAgain(a, root.path);
    forall y | y in m.cfg.roots && y != root && Canonicalize(a.w.tree, y.path).Some?
      ensures Apart(Canonicalize(a.w.tree, y.path).value, base)
    {
      assert Disjoint(a.w, y, root);
    }
    forall y | y in m.cfg.roots && Canonicalize(a.after, y.path).Some?
      ensures Canonicalize(a.after, y.path) == Canonicalize(a.w.tree, y.path)
    {
      ResolvesAgain(a, y.path);
    }
    OnlyHolder(a.w, m.cfg.roots, root, base, c);
    OnlyHolder(a.Next(), m.cfg.roots, root, base, c);
  }

  lemma ContainedStays(a: Sweep, m: Terms, root: Root, p: Path)
    requires Swept(a, m) && StillThere(a, m, root, p)
    ensures Contained(a.Next(), p, root.path, CanonicalRoots(a.Next(), m.cfg.roots))
            == Contained(a.w, p, root.path, m.ctx.roots)
  {
    hide Sweep.Survives, LStat, Canonicalize, BasesApart, Sweep.Valid, AllTaken, FirstHolding, CanonicalRoots;
    AlikeDown(a, m, root, p, |p|);
    AlikeDown(a, m, root, p, |root.path|);
    assert p[..|p|] == p && p[..|root.path|] == root.path;
    assert LinkFree(a.w, p, |root.path|) && LinkFree(a.Next(), p, |root.path|) by {
      forall k | |root.path| < k <= |p| ensures a.w.Seen(p[..k]) == Some(Dir) == a.Next().Seen(p[..k]) {}
    }
    var s := ScopeAt(a.w, m, root);
    assert PlaceIn(s, root.path) == Base(s);
    if a.w.Canon(root.path).Some? {
      assert Base(s) < PlaceIn(s, p);
      RootHolds(a, m, root, PlaceIn(s, p));
    }
  }

  /** Judged again, a candidate that is still there is judged as before. */
  lemma JudgedAgain(a: Sweep, m: Terms, root: Root, c: Candidate)
    requires Swept(a, m) && StillThere(a, m, root, c.path) && c.root == root.path
    ensures Selectable(c, a.Next(), Reloaded(m, a.Next()).ctx) <==> Selectable(c, a.w, m.ctx)
  {
    hide Swept, StillThere, Contained, Selectable, CanonicalRoots, Worktree, World.Has;
    var p := c.path;
    StillBelow(a, m, root, p);
    ContainedStays(a, m, root, p);
    forall k | |root.path| <= k <= |p|
      ensures a.Next().Has(p[..k], m.ctx.pinMarker) == a.w.Has(p[..k], m.ctx.pinMarker)
    {
      PinsStay(a, m, root, p, k);
    }
    forall k | 0 <= k <= |p| ensures a.Next().Has(p[..k], ".git") == a.w.Has(p[..k], ".git") {
      GitStays(a, m, root, p, k);
    }
    SameWorktree(a.w, a.Next(), p);
    SameVerdicts(a.w, a.Next(), c, m.ctx, Reloaded(m, a.Next()).ctx);
  }

  lemma StillBelow(a: Sweep, m: Terms, root: Root, p: Path)
    requires StillThere(a, m, root, p)
    ensures root.path < p
  {
  }

  lemma SameVerdicts(w: World, v: World, c: Candidate, ctx: GuardContext, later: GuardContext)
    requires later == ctx.(roots := later.roots)
    requires Contained(v, c.path, c.root, later.roots) == Contained(w, c.path, c.root, ctx.roots)
    requires c.root <= c.path
    requires forall k :: |c.root| <= k <= |c.path| ==>
             v.Has(c.path[..k], ctx.pinMarker) == w.Has(c.path[..k], ctx.pinMarker)
    requires Worktree(v, c.path) == Worktree(w, c.path)
    ensures Selectable(c, v, later) <==> Selectable(c, w, ctx)
  {
  }

  // ------------------------------------------------------------- main results

  /** The second plan holds `c`, told from the tree before: a root that is walked still, and a directory below it that
      is still there and still hit. */
  ghost predicate Replanned(w: World, tops: set<Path>, m: Terms, c: Candidate) {
    exists root :: root in m.cfg.roots && ReplannedIn(w, tops, m, root, c)
  }

  ghost predicate ReplannedIn(w: World, tops: set<Path>, m: Terms, root: Root, c: Candidate) {
    var s := ScopeAt(w, m, root);
    && Walked(w, root) && WayIntact(w, tops, root.path)
    && StillProposed(s, tops, c.path) && c == ChosenStill(s, tops, c.path)
  }

  lemma BelongsAgain(a: Sweep, m: Terms, root: Root, c: Candidate)
    requires Swept(a, m) && root in m.cfg.roots
    ensures Belongs(a.Next(), m.cfg, m.os, m.maxTier, root, c) <==> ReplannedIn(a.w, a.tops, m, root, c)
    ensures Belongs(a.Next(), m.cfg, m.os, m.maxTier, root, c) ==> StillThere(a, m, root, c.path) && c.root == root.path
  {
    hide HitAt, HitStill, Sweep.Valid, Reached, AllTaken, Canonicalize, LStat, Sweep.Survives, WayIntact, Outlives;
    WalkedAgain(a, root);
    if Walked(a.w, root) && WayIntact(a.w, a.tops, root.path) {
      ScopesAgain(a, m, root);
      if root.path < c.path { ProposedAgain(a, ScopeAt(a.w, m, root), ScopeAt(a.Next(), m, root), c.path); }
    }
  }

  /** After a sweep that took all that was selected and nothing else, the second plan holds exactly what is to be
      proposed still, and selects of it exactly what the guards let pass before. */
  lemma SecondPlan(a: Sweep, m: Terms, again: Plan, judgedAgain: seq<Judged>)
    requires Swept(a, m)
    requires JudgedFor(a.Next(), m.cfg, m.os, m.maxTier, Reloaded(m, a.Next()).ctx, again, judgedAgain)
    ensures forall c :: c in again.candidates <==> Replanned(a.w, a.tops, m, c)
    ensures |judgedAgain| == |again.candidates|
    ensures forall i :: 0 <= i < |judgedAgain| ==>
              (Picked(judgedAgain[i]) <==> Selectable(again.candidates[i], a.w, m.ctx))
  {
    hide Selectable, Belongs, ReplannedIn, Swept, Fits, StillThere, Reloaded;
    forall c ensures c in again.candidates <==> Replanned(a.w, a.tops, m, c) {
      if c in again.candidates {
        var root :| root in m.cfg.roots && Belongs(a.Next(), m.cfg, m.os, m.maxTier, root, c);
        BelongsAgain(a, m, root, c);
      }
      if Replanned(a.w, a.tops, m, c) {
        var root :| root in m.cfg.roots && ReplannedIn(a.w, a.tops, m, root, c);
        BelongsAgain(a, m, root, c);
        BelongsPlanned(a.Next(), m, again.candidates, root, c);
      }
    }
    forall i | 0 <= i < |judgedAgain| ensures Picked(judgedAgain[i]) <==> Selectable(again.candidates[i], a.w, m.ctx) {
      var c := again.candidates[i];
      assert c in again.candidates;
      var root :| root in m.cfg.roots && Belongs(a.Next(), m.cfg, m.os, m.maxTier, root, c);
      BelongsAgain(a, m, root, c);
      JudgedAgain(a, m, root, c);
    }
  }

  lemma BelongsPlanned(w: World, m: Terms, cands: seq<Candidate>, root: Root, c: Candidate)
    requires PlannedFor(w, m.cfg, m.os, m.maxTier, m.cfg.roots, cands) && root in m.cfg.roots
    requires Belongs(w, m.cfg, m.os, m.maxTier, root, c)
    ensures c in cands
  {
  }

  // ------------------------------------------------------------- when it is what was rejected

  /** Held back, under a root that nothing staged is in the way of. */
  ghost predicate Remains(w: World, tops: set<Path>, m: Terms, plan: Plan, c: Candidate) {
    c in plan.candidates && !Selectable(c, w, m.ctx) && WayIntact(w, tops, c.root)
  }

  /** It is found as the same candidate without the help of anything staged. */
  ghost predicate Stands(w: World, tops: set<Path>, m: Terms, c: Candidate) {
    exists root :: root in m.cfg.roots && root.path == c.root && StandsIn(w, tops, m, root, c)
  }

  ghost predicate StandsIn(w: World, tops: set<Path>, m: Terms, root: Root, c: Candidate) {
    var s := ScopeAt(w, m, root);
    root.path < c.path && HitStill(s, tops, c.path).Some? && c == ChosenStill(s, tops, c.path)
  }

  ghost predicate AllStand(w: World, tops: set<Path>, m: Terms, plan: Plan) {
    forall c :: Remains(w, tops, m, plan, c) ==> Stands(w, tops, m, c)
  }

  /** Declared roots that lie apart are told apart by their spelling. */
  lemma OneRoot(a: Sweep, m: Terms, x: Root, y: Root)
    requires BasesApart(a.w, m.cfg.roots, a.q) && x in m.cfg.roots && y in m.cfg.roots && x.path == y.path
    requires Canonicalize(a.w.tree, x.path).Some?
    ensures x == y
  {
    assert x != y ==> Disjoint(a.w, x, y);
  }

  /** What was found and held back below a root that is walked still outlives the sweep. */
  lemma RemainsBelow(a: Sweep, m: Terms, plan: Plan, root: Root, c: Candidate)
    requires Swept(a, m) && root in m.cfg.roots && WayIntact(a.w, a.tops, root.path)
    requires PlannedFor(a.w, m.cfg, m.os, m.maxTier, m.cfg.roots, plan.candidates)
    requires Belongs(a.w, m.cfg, m.os, m.maxTier, root, c) && Canonicalize(a.w.tree, root.path).Some?
    requires a.Survives(PlaceIn(ScopeAt(a.w, m, root), c.path))
    ensures Remains(a.w, a.tops, m, plan, c)
    ensures Stands(a.w, a.tops, m, c) ==> StandsIn(a.w, a.tops, m, root, c)
  {
    hide Selectable, HitAt, Reached, AllTaken, BasesApart, LStat, Canonicalize, Sweep.Valid, StandsIn, WayIntact,
      Sweep.Survives;
    SurvivesUnselected(a, m, root, c.path);
    BelongsPlanned(a.w, m, plan.candidates, root, c);
    if Stands(a.w, a.tops, m, c) {
      var r :| r in m.cfg.roots && r.path == c.root && StandsIn(a.w, a.tops, m, r, c);
      OneRoot(a, m, root, r);
    }
  }

  /** A directory to be proposed still was proposed before, if all that remains stands. */
  lemma ReplannedRemains(a: Sweep, m: Terms, plan: Plan, root: Root, c: Candidate)
    requires Swept(a, m) && root in m.cfg.roots && AllStand(a.w, a.tops, m, plan)
    requires PlannedFor(a.w, m.cfg, m.os, m.maxTier, m.cfg.roots, plan.candidates)
    requires ReplannedIn(a.w, a.tops, m, root, c)
    ensures Remains(a.w, a.tops, m, plan, c)
  {
    hide FirstHit, FirstStill, Selectable, AllTaken, BasesApart, LStat, Canonicalize, Sweep.Valid, WayIntact, Stands,
      Remains;
    var s, n := ScopeAt(a.w, m, root), |root.path|;
    forall k | n < k < |c.path| ensures HitAt(s, c.path[..k]).None? {
      if HitAt(s, c.path[..k]).Some? {
        var i := ShortestHit(s, c.path, k);
        var p := c.path[..i];
        HitMeansProposed(s, c.path, i);
        PlaceOf(s, c.path, i);
        RemainsBelow(a, m, plan, root, Chosen(s, p));
        assert false;
      }
    }
    UnhitOnce(s, a.tops, c.path);
    assert c.path[..|c.path|] == c.path;
    HitMeansProposed(s, c.path, |c.path|);
    RemainsBelow(a, m, plan, root, Chosen(s, c.path));
  }

  lemma UnhitOnce(s: Scope, tops: set<Path>, p: Path)
    requires s.root.path < p
    ensures HitStill(s, tops, p).Some? ==> HitAt(s, p).Some?
  {
    hide FirstHit, FirstStill;
    if HitAt(s, p).None? { UnhitStill(s.w, tops, s.cfg, s.rules, s.root, p); }
  }

  /** The first directory on the way that is hit. */
  lemma {:induction false} ShortestHit(s: Scope, p: Path, k: nat) returns (i: nat)
    requires s.root.path < p && |s.root.path| < k < |p| && s.root.path < p[..k] && HitAt(s, p[..k]).Some?
    ensures |s.root.path| < i <= k && s.root.path < p[..i] && HitAt(s, p[..i]).Some?
    ensures forall j :: |s.root.path| < j < i ==> s.root.path < p[..j] && HitAt(s, p[..j]).None?
  {
    hide FirstHit;
    i := |s.root.path| + 1;
    while HitAt(s, p[..i]).None?
      invariant |s.root.path| < i <= k && s.root.path < p[..i]
      invariant forall j :: |s.root.path| < j < i ==> s.root.path < p[..j] && HitAt(s, p[..j]).None?
      decreases k - i
    {
      i := i + 1;
    }
  }

  lemma HitMeansProposed(s: Scope, p: Path, i: nat)
    requires s.root.path < p && PlainTail(s.root.path, p) && s.w.Seen(p) == Some(Dir) && |s.root.path| < i <= |p|
    requires forall k :: |s.root.path| <= k < |p| ==> Open(s.w, p[..k])
    requires s.root.path < p[..i] && HitAt(s, p[..i]).Some?
    requires forall j :: |s.root.path| < j < i ==> s.root.path < p[..j] && HitAt(s, p[..j]).None?
    ensures Proposed(s, p[..i])
  {
    hide FirstHit, HitAt;
    var d := p[..i];
    assert forall k :: 0 <= k <= i ==> d[..k] == p[..k];
    assert p[..|p|] == p;
    assert i < |p| ==> Open(s.w, p[..i]);
  }

  /** What stands is found again. */
  lemma RemainsReplanned(a: Sweep, m: Terms, plan: Plan, root: Root, c: Candidate)
    requires Swept(a, m) && root in m.cfg.roots && Belongs(a.w, m.cfg, m.os, m.maxTier, root, c)
    requires Remains(a.w, a.tops, m, plan, c) && Stands(a.w, a.tops, m, c)
    ensures ReplannedIn(a.w, a.tops, m, root, c)
  {
    hide FirstHit, FirstStill, Selectable, AllTaken, BasesApart, LStat, Canonicalize, Sweep.Valid, WayIntact;
    var s := ScopeAt(a.w, m, root);
    WalkedResolves(a, root);
    SurvivesUnselected(a, m, root, c.path);
    var r :| r in m.cfg.roots && r.path == c.root && StandsIn(a.w, a.tops, m, r, c);
    OneRoot(a, m, root, r);
    forall k | |root.path| < k < |c.path| ensures HitStill(s, a.tops, c.path[..k]).None? {
      AboveUnhit(s, c.path[..k], c.path);
      UnhitOnce(s, a.tops, c.path[..k]);
    }
  }

  lemma WalkedResolves(a: Sweep, root: Root)
    requires a.Valid() && Walked(a.w, root)
    ensures Canonicalize(a.w.tree, root.path).Some?
  {
    hide Walk;
    RealDirResolves(a.w.tree, root.path);
  }

  /** The second plan holds exactly what was rejected under the roots left alone, if and only if each of those
      candidates is found without the help of anything staged; and then nothing is selected. */
  lemma SweepIsIdempotent(a: Sweep, m: Terms, plan: Plan, judged: seq<Judged>, again: Plan, judgedAgain: seq<Judged>)
    requires Swept(a, m)
    requires JudgedFor(a.w, m.cfg, m.os, m.maxTier, m.ctx, plan, judged)
    requires JudgedFor(a.Next(), m.cfg, m.os, m.maxTier, Reloaded(m, a.Next()).ctx, again, judgedAgain)
    ensures (forall c :: c in again.candidates <==> Remains(a.w, a.tops, m, plan, c)) <==>
            AllStand(a.w, a.tops, m, plan)
    ensures AllStand(a.w, a.tops, m, plan) ==> forall i :: 0 <= i < |judgedAgain| ==> !Picked(judgedAgain[i])
  {
    hide Selectable, Belongs, ReplannedIn, Swept, Fits, WayIntact, Picked, Stands;
    SecondPlan(a, m, again, judgedAgain);
    if AllStand(a.w, a.tops, m, plan) {
      forall c ensures c in again.candidates <==> Remains(a.w, a.tops, m, plan, c) {
        if c in again.candidates {
          var root :| root in m.cfg.roots && ReplannedIn(a.w, a.tops, m, root, c);
          ReplannedRemains(a, m, plan, root, c);
        }
        if Remains(a.w, a.tops, m, plan, c) {
          var root :| root in m.cfg.roots && Belongs(a.w, m.cfg, m.os, m.maxTier, root, c);
          RemainsReplanned(a, m, plan, root, c);
        }
      }
      forall i | 0 <= i < |judgedAgain| ensures !Picked(judgedAgain[i]) {
        assert again.candidates[i] in again.candidates;
      }
    }
    if forall c :: c in again.candidates <==> Remains(a.w, a.tops, m, plan, c) {
      forall c | Remains(a.w, a.tops, m, plan, c) ensures Stands(a.w, a.tops, m, c) {
        var root :| root in m.cfg.roots && ReplannedIn(a.w, a.tops, m, root, c);
        ReplannedStands(a.w, a.tops, m, root, c);
      }
    }
  }

  lemma ReplannedStands(w: World, tops: set<Path>, m: Terms, root: Root, c: Candidate)
    requires root in m.cfg.roots && ReplannedIn(w, tops, m, root, c)
    ensures Stands(w, tops, m, c)
  {
    hide FirstStill;
    assert StandsIn(w, tops, m, root, c);
  }

  /** So it is where the rule that found each of them looks for no entry by the name of one that was staged. */
  lemma NoMarkerStaged(w: World, tops: set<Path>, m: Terms, root: Root, c: Candidate)
    requires root in m.cfg.roots && Belongs(w, m.cfg, m.os, m.maxTier, root, c)
    requires var r := HitAt(ScopeAt(w, m, root), c.path).value;
             forall d :: d in tops && d != [] ==>
               r.requireSibling != Some(Last(d)) && r.requireAncestor != Some(Last(d))
    ensures Stands(w, tops, m, c)
  {
    hide FirstHit, FirstStill, LStat, Canonicalize;
    var s := ScopeAt(w, m, root);
    var r := HitAt(s, c.path).value;
    forall dir, n | r.requireSibling == Some(n) || r.requireAncestor == Some(n)
      ensures HasStill(w, tops, dir, n) == w.Has(dir, n)
    {
      forall d: Path ensures Last(d + [n]) == n {}
    }
    assert HitsStill(w, tops, m.cfg, root, r, c.path);
    FoundStill(w, tops, m.cfg, s.rules, root, c.path);
    assert StandsIn(w, tops, m, root, c);
  }

  // ------------------------------------------------------------- what a caller can check before

  /** Where the selected candidates lie. */
  ghost function Picks(judged: seq<Judged>): set<Path> {
    set i | 0 <= i < |judged| && Picked(judged[i]) :: CanonicalOf(judged, i)
  }

  /** What attempts on all of them took, if every one succeeded. */
  lemma TakenPicks(judged: seq<Judged>, attempts: seq<Attempt>)
    requires Indices(attempts) == SelectedIndices(judged) && AllSucceeded(attempts)
    ensures Taken(judged, attempts) == Picks(judged)
  {
    hide SelectedIndices, CanonicalOf;
    forall d | d in Picks(judged) ensures d in Taken(judged, attempts) {
      var i :| 0 <= i < |judged| && Picked(judged[i]) && CanonicalOf(judged, i) == d;
      assert i in SelectedIndices(judged);
      var k :| 0 <= k < |attempts| && Indices(attempts)[k] == i;
      assert attempts[k] in attempts && attempts[k].ok;
    }
    forall d | d in Taken(judged, attempts) ensures d in Picks(judged) {
      var at :| at in attempts && at.ok && d == CanonicalOf(judged, at.index);
      var k :| 0 <= k < |attempts| && attempts[k] == at;
      assert Indices(attempts)[k] in SelectedIndices(judged);
    }
  }

  /** That is what was selected, and nothing else. */
  lemma PicksAreTops(a: Sweep, m: Terms, plan: Plan, judged: seq<Judged>)
    requires JudgedFor(a.w, m.cfg, m.os, m.maxTier, m.ctx, plan, judged) && a.tops == Picks(judged)
    ensures AllTaken(a, m)
  {
    hide JudgedFor, Selected, Contained, Picks;
    forall d ensures d in a.tops <==> exists root, p :: IsTop(a.w, m, root, p, d) {
      if d in a.tops {
        var root, p := PickIsTop(a.w, m, plan, judged, d);
      }
      if root, p :| IsTop(a.w, m, root, p, d) {
        TopIsPick(a.w, m, plan, judged, root, p, d);
      }
    }
  }

  lemma PickIsTop(w: World, m: Terms, plan: Plan, judged: seq<Judged>, d: Path) returns (root: Root, p: Path)
    requires JudgedFor(w, m.cfg, m.os, m.maxTier, m.ctx, plan, judged) && d in Picks(judged)
    ensures IsTop(w, m, root, p, d)
  {
    hide Selectable, Contained, Proposed, Complete;
    var i :| 0 <= i < |judged| && Picked(judged[i]) && CanonicalOf(judged, i) == d;
    var c := plan.candidates[i];
    assert c in plan.candidates;
    root :| root in m.cfg.roots && Belongs(w, m.cfg, m.os, m.maxTier, root, c);
    p := c.path;
  }

  lemma TopIsPick(w: World, m: Terms, plan: Plan, judged: seq<Judged>, root: Root, p: Path, d: Path)
    requires JudgedFor(w, m.cfg, m.os, m.maxTier, m.ctx, plan, judged) && IsTop(w, m, root, p, d)
    ensures d in Picks(judged)
  {
    hide Selectable, Contained, Reached, HitAt, Justified;
    var c := Chosen(ScopeAt(w, m, root), p);
    assert Complete(w, m.cfg, m.os, m.maxTier, root, plan.candidates);
    var i :| 0 <= i < |plan.candidates| && plan.candidates[i] == c;
    assert Picked(judged[i]) && CanonicalOf(judged, i) == d;
  }

  /** What the second look finds and selects, from what was known before the sweep. */
  ghost predicate Foretold(w: World, m: Terms, plan: Plan, judged: seq<Judged>, again: Plan, judgedAgain: seq<Judged>) {
    && (forall c :: c in again.candidates <==> Replanned(w, Picks(judged), m, c))
    && |judgedAgain| == |again.candidates|
    && (forall i :: 0 <= i < |judgedAgain| ==> (Picked(judgedAgain[i]) <==> Selectable(again.candidates[i], w, m.ctx)))
    && ((forall c :: c in again.candidates <==> Remains(w, Picks(judged), m, plan, c))
        <==> AllStand(w, Picks(judged), m, plan))
    && (AllStand(w, Picks(judged), m, plan) ==> forall i :: 0 <= i < |judgedAgain| ==> !Picked(judgedAgain[i]))
  }

  /** After a sweep that took the selected candidates and nothing else. */
  lemma CleanSweepLeavesNothing(a: Sweep, m: Terms, plan: Plan, judged: seq<Judged>, again: Plan,
                                judgedAgain: seq<Judged>)
    requires a.Valid() && WellPlaced(a, m) && m == Reloaded(m, a.w) && a.tops == Picks(judged)
    requires JudgedFor(a.w, m.cfg, m.os, m.maxTier, m.ctx, plan, judged)
    requires JudgedFor(a.Next(), m.cfg, m.os, m.maxTier, Reloaded(m, a.Next()).ctx, again, judgedAgain)
    ensures Foretold(a.w, m, plan, judged, again, judgedAgain)
  {
    hide JudgedFor, AllTaken, Sweep.Valid, Picks, Selectable, Picked, WellPlaced, Replanned, Remains, AllStand,
      Reloaded;
    PicksAreTops(a, m, plan, judged);
    SecondPlan(a, m, again, judgedAgain);
    SweepIsIdempotent(a, m, plan, judged, again, judgedAgain);
  }

  /** A root spelled by its canonical path meets both conditions: nothing at or above it is ever staged, and resolving
      it looks at nothing else. */
  lemma CanonicalRootSpared(a: Sweep, m: Terms, plan: Plan, judged: seq<Judged>, root: Root)
    requires WellFormed(a.w.tree) && BasesApart(a.w, m.cfg.roots, a.q) && root in m.cfg.roots
    requires root.path in a.w.tree && a.w.tree[root.path] == Dir
    requires JudgedFor(a.w, m.cfg, m.os, m.maxTier, m.ctx, plan, judged) && a.tops == Picks(judged)
    ensures Clears(a, root.path) && WayIntact(a.w, Picks(judged), root.path)
  {
    hide JudgedFor, AllTaken, BasesApart, Picks, WellFormed, Way, Walk;
    PicksAreTops(a, m, plan, judged);
    CanonicalItself(a.w.tree, root.path);
    RootNotStaged(a, m, root);
    forall n | n in Way(a.w.tree, root.path) ensures a.Clear(n) && a.Survives(n) { AboveApart(a, root.path, n); }
  }

  lemma AboveApart(a: Sweep, r: Path, p: Path)
    requires a.Survives(r) && Apart(r, a.q) && p <= r && p in a.w.tree
    ensures a.Survives(p) && a.Clear(p)
  {
  }

  lemma RootNotStaged(a: Sweep, m: Terms, root: Root)
    requires AllTaken(a, m) && BasesApart(a.w, m.cfg.roots, a.q) && root in m.cfg.roots
    requires Canonicalize(a.w.tree, root.path) == Some(root.path)
    ensures a.Survives(root.path) && Apart(root.path, a.q)
  {
    hide AllTaken;
    var s := ScopeAt(a.w, m, root);
    forall d | d in a.tops ensures !(d <= root.path) {
      if d <= root.path {
        assert PlaceIn(s, root.path) == root.path;
        var e := TopAbove(a, m, root, root.path, d);
        assert false;
      }
    }
  }

  /** Plans, judges and sweeps, and then plans and judges again, as a second run does. After a run without command rules
      that reported no error and stayed within its budget, the second look is foretold. */
  method SweepTwice(disk: Disks.Disk, process: Quarantine.Process, w: World, terms: Terms, maxRun: nat, q: Path,
                    roots: seq<Path>, effect: (CommandCandidate, Tree) -> Tree, ghost s: CrashSafety.Setup)
    returns (end: Ending, plan: Plan, judged: seq<Judged>, again: Plan, judgedAgain: seq<Judged>)
    requires w.tree == disk.tree && WellFormed(disk.tree) && CrashSafety.ValidSetup(s) && s.q == q && Sane(effect)
    requires forall r :: r in roots ==> r in s.roots
    requires forall r :: r in CanonicalRoots(w, terms.cfg.roots) ==> r in s.roots
    requires RootsDistinct(terms.cfg.roots) && WellPlaced(Sweep(w, w.tree, q, {}), terms)
    modifies disk, process
    ensures end.Finished? && end.report.errors == [] && !end.report.timedOut && end.report.commandsRun == 0 ==>
              Foretold(w, Reloaded(terms, w), plan, judged, again, judgedAgain)
  {
    hide *;
    NotRoot(s);
    var m := Reloaded(terms, w);
    ReloadedRoots(terms, w);
    plan, judged := Select(w, m.cfg, m.os, m.maxTier, m.ctx, s);
    ghost var attempts, drained, tried;
    end, attempts, drained, tried :=
      Execute(disk, process, maxRun, q, roots, Selection(judged, plan.commands, plan.walkErrors), true, false, effect,
        s);
    var v := w.(tree := disk.tree);
    var later := Reloaded(terms, v);
    ReloadedRoots(terms, v);
    ghost var s2 := CrashSafety.Setup(q, set r | r in later.ctx.roots);
    again, judgedAgain := Select(v, later.cfg, later.os, later.maxTier, later.ctx, s2);
    if end.Finished? && end.report.errors == [] && !end.report.timedOut && end.report.commandsRun == 0 {
      var a := Sweep(w, disk.tree, q, Taken(judged, attempts));
      TakenPicks(judged, attempts);
      AsSwept(a, terms, m);
      CleanSweepLeavesNothing(a, m, plan, judged, again, judgedAgain);
    }
  }

  lemma ReloadedRoots(m: Terms, v: World)
    ensures Reloaded(m, v).ctx.roots == CanonicalRoots(v, m.cfg.roots) && Reloaded(m, v).cfg == m.cfg
    ensures Reloaded(m, v).os == m.os && Reloaded(m, v).maxTier == m.maxTier
    ensures Reloaded(Reloaded(m, v), v) == Reloaded(m, v)
    ensures forall u :: Reloaded(Reloaded(m, v), u) == Reloaded(m, u)
  {
  }

  lemma AsSwept(a: Sweep, terms: Terms, m: Terms)
    requires WellFormed(a.w.tree) && WellFormed(a.after) && a.q != [] && GoneFrom(a.q, a.w.tree, a.tops, a.after)
    requires WellPlaced(Sweep(a.w, a.w.tree, a.q, {}), terms) && m == Reloaded(terms, a.w)
    ensures a.Valid() && WellPlaced(a, m) && a.Next() == a.w.(tree := a.after)
  {
    var before := Sweep(a.w, a.w.tree, a.q, {});
    forall r | r in m.cfg.roots ensures Clears(a, r.path) { assert Clears(before, r.path); }
  }
}

/** Planning again after a sweep: which roots are walked, and what is proposed below them. */
module Replanning {
  import opened Paths
  import opened FileSystem
  import opened Options
  import opened Resolve
  import opened Worlds
  import opened Rules
  import opened Plans
  import Sweeps

  /** Nothing at or above `c` is among `tops`. */
  predicate Outlives(tops: set<Path>, c: Path) {
    forall d :: d in tops ==> !(d <= c)
  }

  /** What was seen, what the tree is after, and the canonical paths staged between. The clock and every other answer
      stay as they were. */
  datatype Sweep = Sweep(w: World, after: Tree, q: Path, tops: set<Path>)
  {
    function Next(): World {
      w.(tree := after)
    }

    ghost predicate Valid() {
      WellFormed(w.tree) && WellFormed(after) && q != [] && Sweeps.GoneFrom(q, w.tree, tops, after)
    }

    predicate Survives(c: Path) {
      Outlives(tops, c)
    }

    /** `c` is neither in quarantine nor a missing directory above it, which the sweep makes. */
    predicate Clear(c: Path) {
      !(q <= c) && (c <= q ==> c in w.tree)
    }
  }

  // ------------------------------------------------------------- what resolves as before

  /** Nothing that resolving `p` looks at, links included, is among `tops`. */
  ghost predicate WayIntact(w: World, tops: set<Path>, p: Path) {
    forall n :: n in Way(w.tree, p) ==> Outlives(tops, n)
  }

  /** Resolving `p` looks at nothing in quarantine, nor at a missing directory above it. */
  ghost predicate Clears(a: Sweep, p: Path) {
    forall n :: n in Way(a.w.tree, p) ==> a.Clear(n)
  }

  /** `p` resolves as before, and not into quarantine. */
  ghost predicate Alike(a: Sweep, p: Path) {
    && Canonicalize(a.after, p) == Canonicalize(a.w.tree, p)
    && (Canonicalize(a.w.tree, p).Some? ==> !(a.q <= Canonicalize(a.w.tree, p).value))
  }

  lemma ClearNode(a: Sweep, n: Path)
    requires a.Valid() && a.Clear(n)
    ensures NodeAt(a.after, n) == if a.Survives(n) then NodeAt(a.w.tree, n) else None
  {
  }

  /** A path resolves after exactly if it did before and nothing it looks at was staged; and then it resolves alike. */
  lemma ResolvesAgain(a: Sweep, p: Path)
    requires a.Valid() && Clears(a, p)
    ensures Canonicalize(a.after, p).Some? <==> Canonicalize(a.w.tree, p).Some? && WayIntact(a.w, a.tops, p)
    ensures Canonicalize(a.after, p).Some? ==> Alike(a, p)
  {
    hide Walk, Visited, Sweep.Valid, Sweep.Clear, Outlives;
    var t, r := a.w.tree, a.after;
    Tops(a);
    assert Way(t, p) == Visited(t, [], p, MAX_LINKS);
    forall n | n in Way(t, p) ensures NodeAt(r, n) == if a.Survives(n) then NodeAt(t, n) else None { ClearNode(a, n); }
    if Canonicalize(r, p).Some? {
      WalkBacked(t, r, [], p, MAX_LINKS);
    }
    if Canonicalize(t, p).Some? {
      WalkBacked(t, t, [], p, MAX_LINKS);
      if WayIntact(a.w, a.tops, p) { WalkKept(t, r, [], p, MAX_LINKS); }
      forall n | n in Way(t, p) ensures !(a.q <= n) { ClearsOut(a, n); }
      WalkStaysOut(t, a.q, [], p, MAX_LINKS);
    }
  }

  lemma Tops(a: Sweep)
    requires a.Valid()
    ensures WellFormed(a.w.tree) && WellFormed(a.after) && !(a.q <= [])
    ensures [] in a.w.tree && [] in a.after && a.w.tree[[]] == a.after[[]]
  {
  }

  lemma ClearsOut(a: Sweep, n: Path)
    requires a.Clear(n)
    ensures !(a.q <= n)
  {
  }

  /** And so does every directory on the way to it. */
  lemma PrefixAgain(a: Sweep, p: Path, k: nat)
    requires a.Valid() && Clears(a, p) && WayIntact(a.w, a.tops, p) && k <= |p|
    requires Canonicalize(a.w.tree, p).Some?
    ensures Alike(a, p[..k]) && Canonicalize(a.w.tree, p[..k]).Some?
  {
    hide Walk, Visited, Canonicalize, Sweep.Valid, Sweep.Clear, Sweep.Survives;
    PrefixWay(a.w.tree, p, k);
    ResolvesAgain(a, p[..k]);
  }

  /** A place that still resolves was not staged. */
  lemma PlaceStays(a: Sweep, p: Path)
    requires a.Valid() && Alike(a, p) && Canonicalize(a.w.tree, p).Some?
    ensures var c := Canonicalize(a.w.tree, p).value;
            c in a.w.tree && c in a.after && a.after[c] == a.w.tree[c] && a.Survives(c)
  {
    WalkEndsInTree(a.w.tree, [], p, MAX_LINKS);
    WalkEndsInTree(a.after, [], p, MAX_LINKS);
  }

  /** The entry `n` of the directory `p`, if it is one at all, was not staged, and is not one the sweep makes. */
  ghost predicate Untouched(a: Sweep, p: Path, n: Name) {
    n != DOTDOT && Canonicalize(a.w.tree, p).Some? ==>
      var c := Canonicalize(a.w.tree, p).value + [n];
      c !in a.tops && (c <= a.q ==> c in a.w.tree)
  }

  /** Then it is still what it was. */
  lemma EntryStays(a: Sweep, p: Path, n: Name)
    requires a.Valid() && Alike(a, p) && Untouched(a, p, n)
    ensures LStat(a.after, p + [n]) == LStat(a.w.tree, p + [n])
  {
    hide Walk;
    assert Parent(p + [n]) == p && Last(p + [n]) == n;
    if Canonicalize(a.w.tree, p).Some? {
      PlaceStays(a, p);
      var c := Canonicalize(a.w.tree, p).value;
      if n != DOTDOT { EntryGone(a, c, n); }
    }
  }

  lemma EntryGone(a: Sweep, c: Path, n: Name)
    requires a.Valid() && a.Survives(c) && !(a.q <= c) && c + [n] !in a.tops
    requires c + [n] <= a.q ==> c + [n] in a.w.tree
    ensures a.Survives(c + [n]) && NodeAt(a.after, c + [n]) == NodeAt(a.w.tree, c + [n])
  {
    forall d | d in a.tops ensures !(d <= c + [n]) { PrefixOfEntry(d, c, n); }
    if a.q < c + [n] { StrictPrefixOfParent(a.q, c + [n]); }
  }

  lemma PrefixOfEntry(d: Path, c: Path, n: Name)
    ensures d <= c + [n] ==> d <= c || d == c + [n]
  {
  }

  lemma HasStays(a: Sweep, p: Path, n: Name)
    requires a.Valid() && Alike(a, p) && Untouched(a, p, n)
    ensures a.Next().Has(p, n) == a.w.Has(p, n)
  {
    EntryStays(a, p, n);
  }

  /** A root is walked again exactly if it was walked before and nothing that resolving it looks at was staged. */
  lemma WalkedAgain(a: Sweep, root: Root)
    requires a.Valid() && Clears(a, root.path)
    ensures Walked(a.Next(), root) <==> Walked(a.w, root) && WayIntact(a.w, a.tops, root.path)
    ensures Walked(a.Next(), root) ==> Canonicalize(a.w.tree, root.path).Some?
  {
    hide Walk, Canonicalize, LStat, Sweep.Valid, Sweep.Clear, Sweep.Survives, Way;
    Tops(a);
    var p := root.path;
    ResolvesAgain(a, p);
    if Walked(a.w, root) { RealDirResolves(a.w.tree, p); }
    if Walked(a.Next(), root) { RealDirResolves(a.after, p); }
    if Canonicalize(a.w.tree, p).Some? && WayIntact(a.w, a.tops, p) { RootEntry(a, p); }
  }

  lemma RootEntry(a: Sweep, p: Path)
    requires a.Valid() && Clears(a, p) && WayIntact(a.w, a.tops, p) && Canonicalize(a.w.tree, p).Some?
    ensures LStat(a.after, p) == LStat(a.w.tree, p)
  {
    hide Walk, Visited, Sweep.Valid;
    if p == [] {
      assert LStat(a.after, p) == Some(Dir) == LStat(a.w.tree, p);
    } else {
      var d, n := Parent(p), Last(p);
      assert p == d + [n] && d == p[..|p| - 1];
      PrefixAgain(a, p, |p| - 1);
      PlaceStays(a, d);
      if n != DOTDOT {
        var c := Canonicalize(a.w.tree, d).value;
        EntryOnWay(a.w.tree, p);
        if c in a.w.tree && a.w.tree[c] == Dir {
          assert a.Survives(c + [n]) && a.Clear(c + [n]);
          assert c + [n] <= c + [n];
        } else {
          assert false by { ResolvedThroughDir(a.w.tree, d, n); }
        }
      }
      EntryStays(a, d, n);
    }
  }

  lemma ResolvedThroughDir(t: Tree, d: Path, n: Name)
    requires Canonicalize(t, d + [n]).Some? && Canonicalize(t, d).Some?
    ensures Canonicalize(t, d).value in t && t[Canonicalize(t, d).value] == Dir
  {
    WalkConcat(t, [], d, [n], MAX_LINKS);
  }

  // ------------------------------------------------------------- below a root

  /** The same root planned before and after. */
  ghost predicate SameScope(a: Sweep, s: Scope, next: Scope) {
    && s.w == a.w && next == s.(w := a.Next())
    && Walked(a.w, s.root) && Clears(a, s.root.path) && WayIntact(a.w, a.tops, s.root.path)
  }

  /** The canonical place of a path walked below the root. */
  ghost function PlaceIn(s: Scope, p: Path): Path
    requires Canonicalize(s.w.tree, s.root.path).Some? && s.root.path <= p
  {
    Base(s) + p[|s.root.path|..]
  }

  /** The first `k` components of `p` lead through real directories, from the root on. */
  ghost predicate DirsDown(w: World, root: Path, p: Path, k: nat) {
    k <= |p| && forall i :: |root| <= i < k ==> w.Seen(p[..i]) == Some(Dir)
  }

  lemma DirsCut(w: World, root: Path, p: Path, k: nat)
    requires DirsDown(w, root, p, k)
    ensures DirsDown(w, root, p[..k], k)
  {
    assert forall i :: 0 <= i <= k ==> p[..k][..i] == p[..i];
  }

  lemma Bases(a: Sweep, s: Scope, next: Scope)
    requires a.Valid() && SameScope(a, s, next)
    ensures Walked(next.w, next.root)
    ensures Canonicalize(s.w.tree, s.root.path).Some? && Canonicalize(next.w.tree, next.root.path).Some?
    ensures Base(next) == Base(s) && !(a.q <= Base(s)) && a.Survives(Base(s))
  {
    hide Walk, Visited, Canonicalize, LStat, Sweep.Valid;
    WalkedAgain(a, s.root);
    ResolvesAgain(a, s.root.path);
    PlaceStays(a, s.root.path);
  }

  /** Below a root apart from quarantine, what is seen of a walked path is what was seen, unless it was staged. */
  lemma SeenBelow(a: Sweep, s: Scope, next: Scope, p: Path)
    requires a.Valid() && SameScope(a, s, next) && PlainTail(s.root.path, p) && s.root.path < p
    requires DirsDown(s.w, s.root.path, p, |p|) && DirsDown(next.w, s.root.path, p, |p|)
    ensures Canonicalize(s.w.tree, s.root.path).Some?
    requires Canonicalize(s.w.tree, s.root.path).Some? ==> Apart(Base(s), a.q)
    ensures next.w.Seen(p) == if a.Survives(PlaceIn(s, p)) then s.w.Seen(p) else None
  {
    Bases(a, s, next);
    ReachedNode(s, p);
    ReachedNode(next, p);
    BelowApart(Base(s), a.q, PlaceIn(s, p));
  }

  lemma BelowApart(base: Path, q: Path, c: Path)
    requires Apart(base, q) && base <= c
    ensures !(q <= c)
  {
  }

  lemma PlaceOf(s: Scope, p: Path, k: nat)
    requires Canonicalize(s.w.tree, s.root.path).Some? && s.root.path <= p && |s.root.path| <= k <= |p|
    ensures s.root.path <= p[..k] && Base(s) <= PlaceIn(s, p[..k]) <= PlaceIn(s, p)
  {
  }

  /** Directories all the way down before, and nothing on the way staged, is directories all the way down after. */
  lemma {:induction false} DirsStay(a: Sweep, s: Scope, next: Scope, p: Path, k: nat)
    requires a.Valid() && SameScope(a, s, next) && PlainTail(s.root.path, p) && |s.root.path| <= k <= |p|
    requires Canonicalize(s.w.tree, s.root.path).Some? && Apart(Base(s), a.q)
    requires DirsDown(s.w, s.root.path, p, k) && a.Survives(PlaceIn(s, p))
    ensures DirsDown(next.w, s.root.path, p, k)
    decreases k
  {
    hide Sweep.Valid, SameScope, PlainTail, PlaceIn, Base, Canonicalize, Sweep.Survives;
    if k > |s.root.path| {
      DirsStay(a, s, next, p, k - 1);
      LastDir(a, s, next, p, k - 1);
    }
  }

  lemma LastDir(a: Sweep, s: Scope, next: Scope, p: Path, k: nat)
    requires a.Valid() && SameScope(a, s, next) && PlainTail(s.root.path, p) && |s.root.path| <= k <= |p|
    requires Canonicalize(s.w.tree, s.root.path).Some? && Apart(Base(s), a.q)
    requires DirsDown(s.w, s.root.path, p, k) && DirsDown(next.w, s.root.path, p, k)
    ensures a.Survives(PlaceIn(s, p)) && s.w.Seen(p[..k]) == Some(Dir) ==> next.w.Seen(p[..k]) == Some(Dir)
    ensures next.w.Seen(p[..k]) == Some(Dir) ==> s.w.Seen(p[..k]) == Some(Dir) && a.Survives(PlaceIn(s, p[..k]))
  {
    Bases(a, s, next);
    PlaceOf(s, p, k);
    if k == |s.root.path| {
      assert p[..k] == s.root.path && PlaceIn(s, p[..k]) == Base(s);
    } else {
      DirsCut(s.w, s.root.path, p, k);
      DirsCut(next.w, s.root.path, p, k);
      SeenBelow(a, s, next, p[..k]);
    }
  }

  /** What is directories all the way down after was so before. */
  lemma {:induction false} DirsBefore(a: Sweep, s: Scope, next: Scope, p: Path, k: nat)
    requires a.Valid() && SameScope(a, s, next) && PlainTail(s.root.path, p) && |s.root.path| <= k <= |p|
    requires Canonicalize(s.w.tree, s.root.path).Some? && Apart(Base(s), a.q)
    requires DirsDown(next.w, s.root.path, p, k)
    ensures DirsDown(s.w, s.root.path, p, k)
    decreases k
  {
    hide Sweep.Valid, SameScope, PlainTail, PlaceIn, Base, Canonicalize, Sweep.Survives;
    if k > |s.root.path| {
      DirsBefore(a, s, next, p, k - 1);
      LastDir(a, s, next, p, k - 1);
    }
  }

  // ------------------------------------------------------------- the plan after

  /** Directories all the way down in both trees are the same directories. */
  lemma AlikeAt(a: Sweep, s: Scope, next: Scope, p: Path, k: nat)
    requires a.Valid() && SameScope(a, s, next) && PlainTail(s.root.path, p) && |s.root.path| <= k <= |p|
    requires Canonicalize(s.w.tree, s.root.path).Some? && Apart(Base(s), a.q)
    requires DirsDown(s.w, s.root.path, p, k) && DirsDown(next.w, s.root.path, p, k)
    requires s.w.Seen(p[..k]) == Some(Dir) == next.w.Seen(p[..k])
    ensures Alike(a, p[..k]) && Canonicalize(a.w.tree, p[..k]) == Some(PlaceIn(s, p[..k]))
  {
    hide LStat, Canonicalize, Sweep.Survives;
    Bases(a, s, next);
    WalkedSpelling(s, p, k);
    WalkedSpelling(next, p, k);
    assert p[..k][|s.root.path|..] == p[|s.root.path|..k];
    PlaceOf(s, p, k);
    BelowApart(Base(s), a.q, PlaceIn(s, p[..k]));
  }

  // ------------------------------------------------------------- which rule still hits

  /** The directory has the entry, and it is not one of `tops`. */
  ghost predicate HasStill(w: World, tops: set<Path>, dir: Path, n: Name) {
    && w.Has(dir, n)
    && (n != DOTDOT && Canonicalize(w.tree, dir).Some? ==> Canonicalize(w.tree, dir).value + [n] !in tops)
  }

  ghost predicate SiblingStill(w: World, tops: set<Path>, rule: Rule, path: Path)
    requires path != []
  {
    rule.requireSibling.Some? ==> HasStill(w, tops, Parent(path), rule.requireSibling.value)
  }

  ghost predicate AncestorStill(w: World, tops: set<Path>, rule: Rule, path: Path, root: Path)
    requires root < path
  {
    rule.requireAncestor.Some? ==>
      exists k :: |root| <= k < |path| && HasStill(w, tops, path[..k], rule.requireAncestor.value)
  }

  /** The rule hits the directory without the help of anything in `tops`. */
  ghost predicate HitsStill(w: World, tops: set<Path>, cfg: Config, root: Root, rule: Rule, path: Path)
    requires root.path < path
  {
    && |path| - |root.path| <= DepthCap(rule, root.maxDepth)
    && Matches(w, cfg, rule, path)
    && SiblingStill(w, tops, rule, path) && AncestorStill(w, tops, rule, path, root.path)
  }

  ghost function FirstStill(w: World, tops: set<Path>, cfg: Config, rules: seq<Rule>, root: Root,
                            path: Path): Option<Rule>
    requires root.path < path
  {
    if rules == [] then None
    else if HitsStill(w, tops, cfg, root, rules[0], path) then Some(rules[0])
    else FirstStill(w, tops, cfg, rules[1..], root, path)
  }

  ghost function HitStill(s: Scope, tops: set<Path>, p: Path): Option<Rule>
    requires s.root.path < p
  {
    FirstStill(s.w, tops, s.cfg, s.rules, s.root, p)
  }

  /** What is to be proposed once `tops` are gone, told from the tree they are still in: a directory reached through
      open ones that outlives them, hit by a rule that needs none of them, where no directory above it is. */
  ghost predicate StillProposed(s: Scope, tops: set<Path>, p: Path) {
    && s.root.path < p && PlainTail(s.root.path, p) && s.w.Seen(p) == Some(Dir)
    && (forall k :: |s.root.path| <= k < |p| ==> Open(s.w, p[..k]))
    && (forall k :: |s.root.path| < k < |p| ==> HitStill(s, tops, p[..k]).None?)
    && HitStill(s, tops, p).Some?
    && Canonicalize(s.w.tree, s.root.path).Some? && Outlives(tops, PlaceIn(s, p))
  }

  ghost function ChosenStill(s: Scope, tops: set<Path>, p: Path): Candidate
    requires s.root.path < p && HitStill(s, tops, p).Some?
  {
    MakeCandidate(s.w, HitStill(s, tops, p).value, s.root, p)
  }

  /** An entry of a directory that is still there is there exactly if it was and was not staged. */
  lemma EntryLeft(a: Sweep, dir: Path, n: Name)
    requires a.Valid() && Alike(a, dir)
    requires n != DOTDOT && Canonicalize(a.w.tree, dir).Some? ==>
               var c := Canonicalize(a.w.tree, dir).value + [n]; c <= a.q ==> c in a.w.tree
    ensures a.Next().Has(dir, n) == HasStill(a.w, a.tops, dir, n)
  {
    hide LStat, Canonicalize;
    if n != DOTDOT && Canonicalize(a.w.tree, dir).Some? && Canonicalize(a.w.tree, dir).value + [n] in a.tops {
      var c := Canonicalize(a.w.tree, dir).value + [n];
      LStatEntry(a.after, dir, n);
      assert c <= c;
      PlaceStays(a, dir);
      if a.q < c { StrictPrefixOfParent(a.q, c); }
      assert c !in a.after;
    } else {
      HasStays(a, dir, n);
    }
  }

  lemma EntryLeftBelow(a: Sweep, s: Scope, next: Scope, p: Path, k: nat, n: Name)
    requires a.Valid() && SameScope(a, s, next) && PlainTail(s.root.path, p) && |s.root.path| <= k < |p|
    requires Canonicalize(s.w.tree, s.root.path).Some? && Apart(Base(s), a.q)
    requires DirsDown(s.w, s.root.path, p, |p|) && DirsDown(next.w, s.root.path, p, |p|)
    ensures next.w.Has(p[..k], n) == HasStill(s.w, a.tops, p[..k], n)
  {
    hide LStat, Canonicalize, Sweep.Survives, Sweep.Valid;
    AlikeAt(a, s, next, p, k);
    PlaceOf(s, p, k);
    NotAbove(Base(s), a.q, PlaceIn(s, p[..k]), n);
    EntryLeft(a, p[..k], n);
  }

  lemma NotAbove(base: Path, q: Path, c: Path, n: Name)
    requires Apart(base, q) && base <= c
    ensures !(c + [n] <= q)
  {
  }

  /** A place that is still there is hit by the first rule that still hits. */
  lemma {:induction false} HitStays(a: Sweep, s: Scope, next: Scope, p: Path, rules: seq<Rule>)
    requires a.Valid() && SameScope(a, s, next) && PlainTail(s.root.path, p) && s.root.path < p
    requires Canonicalize(s.w.tree, s.root.path).Some? && Apart(Base(s), a.q)
    requires DirsDown(s.w, s.root.path, p, |p|) && DirsDown(next.w, s.root.path, p, |p|)
    ensures FirstHit(next.w, s.cfg, rules, s.root, p) == FirstStill(s.w, a.tops, s.cfg, rules, s.root, p)
  {
    hide LStat, Canonicalize, Sweep.Survives, Sweep.Valid, DirsDown, Clears, WayIntact, World.Has, HasStill;
    if rules != [] {
      HitStays(a, s, next, p, rules[1..]);
      var r := rules[0];
      assert p[..|p| - 1] == Parent(p);
      if r.requireSibling.Some? { EntryLeftBelow(a, s, next, p, |p| - 1, r.requireSibling.value); }
      if r.requireAncestor.Some? {
        forall k | |s.root.path| <= k < |p|
          ensures next.w.Has(p[..k], r.requireAncestor.value) == HasStill(s.w, a.tops, p[..k], r.requireAncestor.value)
        {
          EntryLeftBelow(a, s, next, p, k, r.requireAncestor.value);
        }
      }
      assert Hits(next.w, s.cfg, s.root, r, p) == HitsStill(s.w, a.tops, s.cfg, s.root, r, p);
    }
  }

  lemma HitsStay(a: Sweep, s: Scope, next: Scope, p: Path, k: nat)
    requires a.Valid() && SameScope(a, s, next) && PlainTail(s.root.path, p) && |s.root.path| < k <= |p|
    requires Canonicalize(s.w.tree, s.root.path).Some? && Apart(Base(s), a.q)
    requires DirsDown(s.w, s.root.path, p, |p|) && DirsDown(next.w, s.root.path, p, |p|)
    ensures s.root.path < p[..k] && HitAt(next, p[..k]) == HitStill(s, a.tops, p[..k])
  {
    hide LStat, Canonicalize, Sweep.Survives, Sweep.Valid, SameScope, FirstHit, FirstStill;
    DirsCut(s.w, s.root.path, p, k);
    DirsCut(next.w, s.root.path, p, k);
    assert s.w == a.w && next == s.(w := a.Next()) by { Rescoped(a, s, next); }
    HitStays(a, s, next, p[..k], s.rules);
  }

  lemma Rescoped(a: Sweep, s: Scope, next: Scope)
    requires SameScope(a, s, next)
    ensures s.w == a.w && next == s.(w := a.Next())
  {
  }

  /** The proposals of a root after a sweep, and what they carry. */
  lemma ProposedAgain(a: Sweep, s: Scope, next: Scope, p: Path)
    requires a.Valid() && SameScope(a, s, next) && s.root.path < p
    requires Canonicalize(s.w.tree, s.root.path).Some? && Apart(Base(s), a.q)
    ensures Proposed(next, p) <==> StillProposed(s, a.tops, p)
    ensures Proposed(next, p) ==> Chosen(next, p) == ChosenStill(s, a.tops, p)
    ensures Proposed(next, p) ==> DirsDown(s.w, s.root.path, p, |p|) && DirsDown(next.w, s.root.path, p, |p|)
    ensures Proposed(next, p) ==> s.w.Seen(p) == Some(Dir) == next.w.Seen(p)
  {
    hide WellFormed, FirstHit, FirstStill, HitAt, HitStill, Canonicalize, LStat, Sweep.Valid, Clears, WayIntact;
    var n := |p|;
    assert p[..n] == p;
    if Proposed(next, p) {
      DirsBefore(a, s, next, p, n);
      LastDir(a, s, next, p, n);
    } else if StillProposed(s, a.tops, p) {
      DirsStay(a, s, next, p, n);
      LastDir(a, s, next, p, n);
    }
    if Proposed(next, p) || StillProposed(s, a.tops, p) {
      forall k | |s.root.path| < k <= n ensures HitAt(next, p[..k]) == HitStill(s, a.tops, p[..k]) {
        HitsStay(a, s, next, p, k);
      }
      assert HitAt(next, p) == HitStill(s, a.tops, p);
      SameMeasures(a, s, next);
    }
  }

  lemma SameMeasures(a: Sweep, s: Scope, next: Scope)
    requires SameScope(a, s, next)
    ensures next.root == s.root && next.w.bytes == s.w.bytes && next.w.idle == s.w.idle
            && next.w.readable == s.w.readable
  {
  }

  // ------------------------------------------------------------- before and still

  /** What still hits did hit. */
  lemma StillHits(w: World, tops: set<Path>, cfg: Config, root: Root, rule: Rule, path: Path)
    requires root.path < path && HitsStill(w, tops, cfg, root, rule, path)
    ensures Hits(w, cfg, root, rule, path)
  {
  }

  lemma {:induction false} UnhitStill(w: World, tops: set<Path>, cfg: Config, rules: seq<Rule>, root: Root, path: Path)
    requires root.path < path && FirstHit(w, cfg, rules, root, path).None?
    ensures FirstStill(w, tops, cfg, rules, root, path).None?
  {
    hide Hits, HitsStill;
    if rules != [] {
      if HitsStill(w, tops, cfg, root, rules[0], path) { StillHits(w, tops, cfg, root, rules[0], path); }
      UnhitStill(w, tops, cfg, rules[1..], root, path);
    }
  }

  /** The rule that found a directory still finds it exactly if it hits without the help of what was staged. */
  lemma {:induction false} FoundStill(w: World, tops: set<Path>, cfg: Config, rules: seq<Rule>, root: Root, path: Path)
    requires root.path < path && FirstHit(w, cfg, rules, root, path).Some?
    requires HitsStill(w, tops, cfg, root, FirstHit(w, cfg, rules, root, path).value, path)
    ensures FirstStill(w, tops, cfg, rules, root, path) == FirstHit(w, cfg, rules, root, path)
  {
    hide Hits, HitsStill;
    if !Hits(w, cfg, root, rules[0], path) {
      if HitsStill(w, tops, cfg, root, rules[0], path) { StillHits(w, tops, cfg, root, rules[0], path); }
      FoundStill(w, tops, cfg, rules[1..], root, path);
    }
  }
}

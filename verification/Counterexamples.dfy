/** Inputs that show what a theorem allows: sweeps after which a rejected candidate is lost or selected, and a pin
    marker that lets a candidate through. */
module Counterexamples {
  import opened Paths
  import opened FileSystem
  import opened Options
  import opened Resolve
  import opened Worlds
  import opened Heartbeats
  import opened Guards
  import opened Rules
  import opened Plans
  import opened Replanning
  import opened Idempotence

  // ------------------------------------------------------------- the sweep of any world

  /** Where everything that is selected lies. */
  ghost function TopsOf(w: World, m: Terms): set<Path> {
    set d | d in w.tree && exists root, p :: IsTop(w, m, root, p, d)
  }

  ghost function Without(t: Tree, tops: set<Path>): Tree {
    map p | p in t && (forall d :: d in tops ==> !(d <= p)) :: t[p]
  }

  /** What a run in which every rename succeeds makes of the world. */
  ghost function SweepOf(w: World, m: Terms, q: Path): Sweep {
    Sweep(w, Without(w.tree, TopsOf(w, m)), q, TopsOf(w, m))
  }

  lemma SweepTakesSelected(w: World, m: Terms, q: Path)
    requires WellFormed(w.tree) && q != [] && q in w.tree && BasesApart(w, m.cfg.roots, q)
    ensures SweepOf(w, m, q).Valid() && AllTaken(SweepOf(w, m, q), m)
  {
    hide IsTop, BasesApart;
    var a := SweepOf(w, m, q);
    forall root, p, d | IsTop(w, m, root, p, d) ensures d in w.tree && !(d <= q) { TopInTree(w, m, q, root, p, d); }
    assert [] in a.after by {
      forall d | d in a.tops ensures !(d <= []) { assert [] <= q; }
    }
    forall p | p in a.after && p != [] ensures Parent(p) in a.after {
      assert Parent(p) <= p;
    }
    forall p | p <= q ensures p in w.tree {
      if p < q { AncestorIsDir(w.tree, p, q); } else { assert p == q; }
    }
  }

  lemma TopInTree(w: World, m: Terms, q: Path, root: Root, p: Path, d: Path)
    requires WellFormed(w.tree) && BasesApart(w, m.cfg.roots, q) && IsTop(w, m, root, p, d)
    ensures d in w.tree && !(d <= q)
  {
    hide Idempotence.Selected;
    TopIsPlace(w, m, root, p, d);
    WalkEndsInTree(w.tree, [], p, MAX_LINKS);
    assert Canonicalize(w.tree, root.path).value <= d;
  }

  // ------------------------------------------------------------- a world that answers every question

  function WorldOf(t: Tree): World {
    World(t, _ => true, _ => true, _ => true, _ => 0, _ => 0, (_, _) => false)
  }

  /** The rule for directories of this name, beside an entry of that one if need be, once idle so long. */
  function Named(name: Name, sibling: Option<Name>, minIdle: nat): Rule {
    Rule(name, PathRule, 0, DirName(name), sibling, None, minIdle, false, None, [], [])
  }

  function TermsOf(roots: seq<Root>, canonical: seq<Path>, rules: seq<Rule>): Terms {
    var ctx := GuardContext(None, [], "keep", 1.0, 0.0, HeartbeatIndex([], false), _ => false, (_, _) => Unknown,
                            Some([]), Some([]), canonical);
    Terms(Config(roots, rules, true), "linux", 2, ctx)
  }

  const HOME: Path := ["h", "u"]

  /** What holds of the first two trees below: no `.git` and no pin marker. */
  ghost predicate Unmarked(t: Tree) {
    forall p {:trigger Last(p)} :: p in t && p != [] ==> Last(p) != ".git" && Last(p) != "keep"
  }

  lemma NoEntry(t: Tree, dir: Path, n: Name)
    requires WellFormed(t) && dir in t && t[dir] == Dir && dir + [n] !in t && n != DOTDOT
    ensures !WorldOf(t).Has(dir, n)
  {
    CanonicalItself(t, dir);
    LStatEntry(t, dir, n);
  }

  lemma SomeEntry(t: Tree, dir: Path, n: Name)
    requires WellFormed(t) && dir in t && t[dir] == Dir && dir + [n] in t && n != DOTDOT
    ensures WorldOf(t).Seen(dir + [n]) == Some(t[dir + [n]])
  {
    CanonicalItself(t, dir);
    LStatEntry(t, dir, n);
  }

  /** Nothing there pins a candidate or makes a worktree. */
  lemma PlainPlace(t: Tree, p: Path, root: Path)
    requires WellFormed(t) && Unmarked(t) && p in t && t[p] == Dir && root <= p
    ensures !Pinned(WorldOf(t), p, root, "keep")
    ensures forall git :: GitVerdict(WorldOf(t), p, git) == Skipped
  {
    var w := WorldOf(t);
    forall k | 0 <= k <= |p| ensures !w.Has(p[..k], ".git") && !w.Has(p[..k], "keep") {
      var d := p[..k];
      if k < |p| { AncestorIsDir(t, d, p); } else { assert d == p; }
      assert Last(d + [".git"]) == ".git" && Last(d + ["keep"]) == "keep";
      NoEntry(t, d, ".git");
      NoEntry(t, d, "keep");
    }
    forall d | d <= p ensures !w.Has(d, ".git") { assert d == p[..|d|]; }
    assert Worktree(w, p).None?;
  }

  // ------------------------------------------------------------- judging

  lemma ThreeDeep(n: Name)
    requires |n| == 1
    ensures Floor(["h", "u", n], None) == Pass
  {
    var p := ["h", "u", n];
    var plain := (c: Name) => c != DOTDOT;
    assert p[1..] == ["u", n] && p[1..][1..] == [n] && p[1..][1..][1..] == [];
    assert Count(p, plain) == 1 + Count(p[1..], plain) == 2 + Count(p[1..][1..], plain) == 3;
    assert forall i :: 0 <= i < |FORBIDDEN_COMPONENTS| ==> |FORBIDDEN_COMPONENTS[i]| >= 4;
    assert forall i :: 0 <= i < |FORBIDDEN_EXACT| ==> |FORBIDDEN_EXACT[i]| <= 1;
  }

  /** The directory `/h/u/n` under the root `/h/u`. */
  ghost predicate Spot(t: Tree, m: Terms, root: Root, n: Name) {
    && WellFormed(t) && Unmarked(t) && |n| == 1 && root == Root(HOME, 9)
    && ["h", "u", n] in t && t[["h", "u", n]] == Dir
    && root in m.cfg.roots && m == TermsOf(m.cfg.roots, m.ctx.roots, m.cfg.rules)
    && m.ctx.roots != [] && m.ctx.roots[0] == root.path
  }

  /** Every rule is a `Named` one, and those for `n` ask for no idle time. */
  ghost predicate PlainRules(m: Terms, n: Name) {
    && Named(n, None, 0) in m.cfg.rules
    && (forall r :: r in m.cfg.rules ==> r == Named(r.name, r.requireSibling, r.minIdle))
    && (forall r :: r in m.cfg.rules && r.name == n ==> r.minIdle == 0)
  }

  lemma SpotSeen(t: Tree, m: Terms, root: Root, n: Name)
    requires Spot(t, m, root, n)
    ensures var w, p := WorldOf(t), ["h", "u", n];
            && Walked(w, root) && w.Seen(p) == Some(Dir) && Open(w, root.path) && PlainTail(root.path, p)
            && p == root.path + [n] && Parent(p) == root.path && p[..2] == root.path && root.path < p
  {
    var p := ["h", "u", n];
    assert p == root.path + [n] && Parent(p) == root.path && p[..2] == root.path;
    AncestorIsDir(t, root.path, p);
    RootSeen(t);
    SomeEntry(t, root.path, n);
  }

  /** Hit, it is proposed. */
  lemma ProposedThere(t: Tree, m: Terms, root: Root, n: Name, r: Rule)
    requires Spot(t, m, root, n) && r in PathRules(m.cfg.rules, m.os, m.maxTier) && root.path < ["h", "u", n]
    requires Hits(WorldOf(t), m.cfg, root, r, ["h", "u", n])
    ensures Proposed(ScopeAt(WorldOf(t), m, root), ["h", "u", n])
  {
    hide Hits, LStat;
    SpotSeen(t, m, root, n);
    assert HitAt(ScopeAt(WorldOf(t), m, root), ["h", "u", n]).Some?;
  }

  lemma ContainedThere(t: Tree, m: Terms, root: Root, n: Name)
    requires Spot(t, m, root, n)
    ensures Contained(WorldOf(t), ["h", "u", n], root.path, m.ctx.roots) == Some(["h", "u", n])
  {
    var p := ["h", "u", n];
    assert p == root.path + [n] && p[..3] == p;
    AncestorIsDir(t, root.path, p);
    CanonicalItself(t, root.path);
    CanonicalItself(t, p);
    SomeEntry(t, root.path, n);
  }

  /** Only the idle time a rule asks for can hold it back. */
  lemma PassesThere(t: Tree, m: Terms, root: Root, n: Name, c: Candidate)
    requires Spot(t, m, root, n) && c == Candidate(["h", "u", n], root.path, c.rule, 0, 1, 9, 0, 0, c.minIdle, false)
    ensures Selectable(c, WorldOf(t), m.ctx) <==> c.minIdle == 0
  {
    hide Contained, Floor, Pinned, GitVerdict, LStat, Canonicalize;
    ContainedThere(t, m, root, n);
    ThreeDeep(n);
    PlainPlace(t, c.path, root.path);
  }

  lemma SelectedThere(t: Tree, m: Terms, root: Root, n: Name)
    requires Spot(t, m, root, n) && PlainRules(m, n)
    ensures IsTop(WorldOf(t), m, root, ["h", "u", n], ["h", "u", n])
  {
    hide Proposed, Contained, Selectable, LStat, Canonicalize, FirstHit;
    var w, p := WorldOf(t), ["h", "u", n];
    var s := ScopeAt(w, m, root);
    SpotSeen(t, m, root, n);
    assert Named(n, None, 0) in s.rules && Hits(w, m.cfg, root, Named(n, None, 0), p);
    ProposedThere(t, m, root, n, Named(n, None, 0));
    ContainedThere(t, m, root, n);
    var r := HitAt(s, p).value;
    assert r in s.rules && r == Named(r.name, r.requireSibling, r.minIdle) && r.name == n;
    PassesThere(t, m, root, n, Chosen(s, p));
  }

  lemma RootSeen(t: Tree)
    requires WellFormed(t) && HOME in t && t[HOME] == Dir
    ensures WorldOf(t).Seen(HOME) == Some(Dir)
  {
    assert ["h"] + ["u"] == HOME;
    AncestorIsDir(t, ["h"], HOME);
    SomeEntry(t, ["h"], "u");
  }

  // ------------------------------------------------------------- a root spelled through a staged link

  const LINKED_ROOT: Path := ["h", "u", "p", "l", "b"]

  /** `/h/u/p` holds the link `l` to `/`. */
  function LinkedTree(): Tree {
    map[[] := Dir, ["g"] := Dir, ["h"] := Dir, HOME := Dir, ["h", "u", "p"] := Dir,
        ["h", "u", "p", "l"] := Symlink(true, []), ["b"] := Dir, ["b", "p"] := Dir]
  }

  function LinkedTerms(): Terms {
    TermsOf([Root(HOME, 9), Root(LINKED_ROOT, 9)], [HOME, ["b"]], [Named("p", None, 0)])
  }

  lemma LinkedTreeFacts()
    ensures WellFormed(LinkedTree()) && Unmarked(LinkedTree())
  {
    assert Parent(["g"]) == [] == Parent(["h"]) == Parent(["b"]);
    assert Parent(HOME) == ["h"] && Parent(["h", "u", "p"]) == HOME;
    assert Parent(["h", "u", "p", "l"]) == ["h", "u", "p"] && Parent(["b", "p"]) == ["b"];
  }

  /** The second root resolves through the link, and resolving it looks at `/h/u/p`. */
  lemma LinkedRoot(t: Tree)
    requires WellFormed(t) && t == LinkedTree()
    ensures Canonicalize(t, LINKED_ROOT[..4]) == Some([]) && Canonicalize(t, LINKED_ROOT) == Some(["b"])
    ensures ["h", "u", "p"] in Way(t, LINKED_ROOT)
    ensures forall n :: n in Way(t, LINKED_ROOT) ==> n in t && (n == ["b"] || n <= ["h", "u", "p", "l"])
  {
    hide Walk, Visited;
    var p, l := ["h", "u", "p"], ["h", "u", "p", "l"];
    assert LINKED_ROOT == p + ["l", "b"] && LINKED_ROOT[..4] == p + ["l"] && Parent(p) == HOME && Last(p) == "p";
    assert p + ["l"] == l && [] + ["b"] == ["b"] && ["l", "b"][1..] == ["b"] && ["l"][1..] == [];
    CanonicalItself(t, p);
    WalkConcat(t, [], p, ["l", "b"], MAX_LINKS);
    WalkConcat(t, [], p, ["l"], MAX_LINKS);
    VisitedConcat(t, [], p, ["l", "b"], MAX_LINKS);
    LinkedWalk(t);
    CanonicalItself(t, HOME);
    EntryOnWay(t, p);
    assert HOME + ["p"] == p && p <= l;
  }

  lemma LinkedWalk(t: Tree)
    requires WellFormed(t) && t == LinkedTree()
    ensures Walk(t, ["h", "u", "p"], ["l"], MAX_LINKS) == Some(Place([], MAX_LINKS - 1))
    ensures Walk(t, ["h", "u", "p"], ["l", "b"], MAX_LINKS) == Some(Place(["b"], MAX_LINKS - 1))
    ensures Visited(t, ["h", "u", "p"], ["l", "b"], MAX_LINKS) == {["h", "u", "p", "l"], ["b"]}
  {
    var p, l := ["h", "u", "p"], ["h", "u", "p", "l"];
    assert p + ["l"] == l && [] + ["b"] == ["b"] && ["l", "b"][1..] == ["b"] && ["l"][1..] == [] && ["b"][1..] == [];
    assert Walk(t, [], ["b"], MAX_LINKS - 1) == Walk(t, ["b"], [], MAX_LINKS - 1);
    assert Visited(t, [], ["b"], MAX_LINKS - 1) == {["b"]};
  }

  lemma LinkedPlain(t: Tree, m: Terms)
    requires t == LinkedTree() && m == LinkedTerms() && WellFormed(t) && Unmarked(t)
    ensures Spot(t, m, Root(HOME, 9), "p") && PlainRules(m, "p")
  {
    assert m.cfg.rules[0] == Named("p", None, 0) && m.cfg.roots[0] == Root(HOME, 9);
  }

  lemma LinkedHome(t: Tree)
    requires t == LinkedTree()
    ensures HOME in t && t[HOME] == Dir
  {
  }

  lemma LinkedApart(t: Tree, a: Sweep, m: Terms)
    requires t == LinkedTree() && m == LinkedTerms() && WellFormed(t) && a.w == WorldOf(t) && a.q == ["g"]
    ensures BasesApart(a.w, m.cfg.roots, a.q)
  {
    hide Canonicalize, Way, WellFormed, LinkedTree;
    LinkedHome(t);
    LinkedRoot(t);
    Itself(t, HOME);
    assert Apart(HOME, ["b"]) && Apart(HOME, a.q) && Apart(["b"], a.q) by {
      assert HOME[0] == "h" && ["b"][0] == "b" && a.q[0] == "g";
    }
  }

  lemma LinkedClears(t: Tree, a: Sweep, r: Path)
    requires t == LinkedTree() && WellFormed(t) && a.w == WorldOf(t) && a.q == ["g"] && r in {HOME, LINKED_ROOT}
    ensures Clears(a, r)
  {
    hide Canonicalize, Way, WellFormed, LinkedTree;
    LinkedHome(t);
    LinkedRoot(t);
    CanonicalItself(t, HOME);
    forall n | n in Way(t, r) ensures a.Clear(n) {
      assert n == [] || n[0] == "h" || n[0] == "b";
      assert a.q[0] == "g";
    }
  }

  lemma LinkedNames(t: Tree, a: Sweep, m: Terms)
    requires t == LinkedTree() && m == LinkedTerms() && a.w == WorldOf(t) && a.q == ["g"]
    ensures a.q in t && NoGitMade(a)
  {
    assert a.q[..1] == a.q;
  }

  /** Both roots resolve, so both are among the canonical ones. */
  lemma LinkedReloaded(t: Tree, m: Terms)
    requires t == LinkedTree() && m == LinkedTerms() && WellFormed(t)
    ensures m == Reloaded(m, WorldOf(t))
  {
    hide Canonicalize, WellFormed, LinkedTree;
    LinkedHome(t);
    LinkedRoot(t);
    Itself(t, HOME);
    var roots := m.cfg.roots;
    assert roots[1..] == [Root(LINKED_ROOT, 9)] && roots[1..][1..] == [];
    assert CanonicalRoots(WorldOf(t), roots[1..]) == [["b"]] + [];
    assert CanonicalRoots(WorldOf(t), roots) == [HOME] + [["b"]] == [HOME, ["b"]];
  }

  lemma Itself(t: Tree, p: Path)
    requires WellFormed(t) && p in t && t[p] == Dir
    ensures Canonicalize(t, p) == Some(p)
  {
    CanonicalItself(t, p);
  }

  lemma LinkedSeen(t: Tree)
    requires t == LinkedTree() && WellFormed(t)
    ensures WorldOf(t).Seen(LINKED_ROOT) == Some(Dir) == WorldOf(t).Seen(LINKED_ROOT + ["p"])
    ensures Canonicalize(t, LINKED_ROOT + ["p"]) == Some(["b", "p"])
  {
    hide Canonicalize, LStat;
    LinkedRoot(t);
    assert LINKED_ROOT == LINKED_ROOT[..4] + ["b"] && [] + ["b"] == ["b"] && ["b"] + ["p"] == ["b", "p"];
    LStatEntry(t, LINKED_ROOT[..4], "b");
    LStatEntry(t, LINKED_ROOT, "p");
    CanonicalizeSnoc(t, LINKED_ROOT, "p");
  }

  /** What the second root proposes is `/b/p`, too near the top for the floor. */
  lemma LinkedCandidate(t: Tree, m: Terms, root: Root) returns (c: Candidate)
    requires t == LinkedTree() && m == LinkedTerms() && WellFormed(t) && root == Root(LINKED_ROOT, 9)
    ensures Belongs(WorldOf(t), m.cfg, m.os, m.maxTier, root, c) && !Selectable(c, WorldOf(t), m.ctx)
  {
    hide Canonicalize, LStat, LinkedTree, Selectable, WellFormed;
    var w, p := WorldOf(t), LINKED_ROOT + ["p"];
    var s := ScopeAt(w, m, root);
    LinkedSeen(t);
    assert Parent(p) == LINKED_ROOT && Last(p) == "p" && p[..5] == LINKED_ROOT;
    assert m.cfg.rules[0] == Named("p", None, 0);
    assert Named("p", None, 0) in s.rules && Hits(w, m.cfg, root, Named("p", None, 0), p);
    c := Chosen(s, p);
    NearTop(w, c, m.ctx);
  }

  lemma NearTop(w: World, c: Candidate, ctx: GuardContext)
    requires w.Canon(c.path) == Some(["b", "p"]) && |c.path| > 2
    ensures !Selectable(c, w, ctx)
  {
    var p := ["b", "p"];
    var plain := (c: Name) => c != DOTDOT;
    assert p[1..] == ["p"] && p[1..][1..] == [];
    assert ComponentCount(p) == Count(p, plain) == 1 + Count(p[1..], plain) <= 2;
  }

  /** Under the root `/h/u` the sweep stages `/h/u/p`, and with it the link that the second root, `/h/u/p/l/b`, is
      spelled through. What was rejected there is not found again, though `/b` is untouched. */
  lemma StagedLinkLosesRoot() returns (c: Candidate)
    ensures var w, m, root := WorldOf(LinkedTree()), LinkedTerms(), Root(LINKED_ROOT, 9);
            var a := SweepOf(w, m, ["g"]);
            && Swept(a, m) && root in m.cfg.roots && !WayIntact(a.w, a.tops, root.path)
            && Belongs(w, m.cfg, m.os, m.maxTier, root, c) && !Selectable(c, w, m.ctx)
            && !Belongs(a.Next(), m.cfg, m.os, m.maxTier, root, c)
  {
    hide Way, Canonicalize, Sweep.Valid, Selectable, Proposed, AllTaken, IsTop, LinkedTree, CanonicalRoots, Reloaded,
      FirstHit, LStat, WellFormed, Unmarked, BasesApart, Clears;
    var t, m, root := LinkedTree(), LinkedTerms(), Root(LINKED_ROOT, 9);
    var w, q, p := WorldOf(t), ["g"], ["h", "u", "p"];
    var a := SweepOf(w, m, q);
    LinkedTreeFacts();
    LinkedApart(t, a, m);
    LinkedClears(t, a, HOME);
    LinkedClears(t, a, LINKED_ROOT);
    LinkedNames(t, a, m);
    LinkedReloaded(t, m);
    SweepTakesSelected(w, m, q);
    LinkedPlain(t, m);
    SelectedThere(t, m, Root(HOME, 9), "p");
    LinkedRoot(t);
    assert p in a.tops && !a.Survives(p);
    c := LinkedCandidate(t, m, root);
    WalkedAgain(a, root);
  }

  // ------------------------------------------------------------- a staged directory that a rule asks for

  /** `/h/u/m` and, beside it, `/h/u/x`. */
  function MarkedTree(): Tree {
    map[[] := Dir, ["g"] := Dir, ["h"] := Dir, HOME := Dir, ["h", "u", "m"] := Dir, ["h", "u", "x"] := Dir]
  }

  /** A rule for `m`, one for `x` beside `m`, which is to be idle, and perhaps one for any `x`. */
  function MarkedRules(anyX: bool): seq<Rule> {
    [Named("m", None, 0), Named("x", Some("m"), 1)] + if anyX then [Named("x", None, 0)] else []
  }

  function MarkedTerms(anyX: bool): Terms {
    TermsOf([Root(HOME, 9)], [HOME], MarkedRules(anyX))
  }

  lemma MarkedTreeFacts()
    ensures WellFormed(MarkedTree()) && Unmarked(MarkedTree())
  {
    assert Parent(["g"]) == [] == Parent(["h"]) && Parent(HOME) == ["h"];
    assert Parent(["h", "u", "m"]) == HOME == Parent(["h", "u", "x"]);
  }

  lemma MarkedPlaced(t: Tree, a: Sweep, m: Terms, anyX: bool)
    requires t == MarkedTree() && m == MarkedTerms(anyX) && WellFormed(t) && a.w == WorldOf(t) && a.q == ["g"]
    ensures a.q in t && WellPlaced(a, m) && m == Reloaded(m, a.w) && Canonicalize(t, HOME) == Some(HOME)
  {
    hide Canonicalize, Way, WellFormed;
    Itself(t, HOME);
    CanonicalItself(t, HOME);
    assert a.q[..1] == a.q && a.q[0] == "g" && HOME[0] == "h";
    forall n | n in Way(t, HOME) ensures a.Clear(n) { assert n == [] || n[0] == "h"; }
    assert m.cfg.roots[1..] == [] && CanonicalRoots(a.w, m.cfg.roots) == [HOME] + [];
  }

  lemma MarkedSpots(t: Tree, m: Terms, anyX: bool)
    requires t == MarkedTree() && m == MarkedTerms(anyX) && WellFormed(t) && Unmarked(t)
    ensures Spot(t, m, Root(HOME, 9), "m") && PlainRules(m, "m") && Spot(t, m, Root(HOME, 9), "x")
  {
    assert m.cfg.rules[0] == Named("m", None, 0) && m.cfg.roots[0] == Root(HOME, 9);
  }

  lemma InScopeInOrder(m: Terms, anyX: bool)
    requires m == MarkedTerms(anyX)
    ensures PathRules(m.cfg.rules, m.os, m.maxTier) == m.cfg.rules
  {
    var rules := m.cfg.rules;
    assert rules[1..][0] == rules[1] && (anyX ==> rules[1..][1..][0] == rules[2]);
    if anyX {
      assert rules[1..][1..][1..] == [];
      assert PathRules(rules[1..][1..], m.os, m.maxTier) == [rules[2]] + [];
    } else {
      assert rules[1..][1..] == [];
    }
    assert PathRules(rules[1..], m.os, m.maxTier) == [rules[1]] + PathRules(rules[1..][1..], m.os, m.maxTier);
    assert PathRules(rules, m.os, m.maxTier) == [rules[0]] + PathRules(rules[1..], m.os, m.maxTier);
  }

  /** Beside `m` the rule for `x` beside `m` finds `x`; without it only the rule for any `x` does. */
  lemma MarkedHits(t: Tree, m: Terms, anyX: bool, root: Root, tops: set<Path>)
    requires t == MarkedTree() && m == MarkedTerms(anyX) && WellFormed(t) && Unmarked(t) && root == Root(HOME, 9)
    requires ["h", "u", "m"] in tops
    ensures var s, p := ScopeAt(WorldOf(t), m, root), ["h", "u", "x"];
            && root.path < p && HitAt(s, p) == Some(Named("x", Some("m"), 1))
            && HitStill(s, tops, p) == if anyX then Some(Named("x", None, 0)) else None
  {
    hide Canonicalize, LStat, WellFormed;
    var w, s, p := WorldOf(t), ScopeAt(WorldOf(t), m, root), ["h", "u", "x"];
    MarkedSpots(t, m, anyX);
    SpotSeen(t, m, root, "x");
    SpotSeen(t, m, root, "m");
    MarkedHome(t);
    InScopeInOrder(m, anyX);
    assert w.Has(HOME, "m") && HOME + ["m"] == ["h", "u", "m"] && Last(p) == "x" && !HasStill(w, tops, HOME, "m");
    var rules := s.rules;
    assert rules[1..][0] == rules[1] && (anyX ==> rules[1..][1..][0] == rules[2]) && (!anyX ==> rules[1..][1..] == []);
    assert FirstHit(w, s.cfg, rules, root, p) == FirstHit(w, s.cfg, rules[1..], root, p);
    assert FirstStill(w, tops, s.cfg, rules, root, p) == FirstStill(w, tops, s.cfg, rules[1..], root, p)
           == FirstStill(w, tops, s.cfg, rules[1..][1..], root, p);
  }

  lemma MarkedHome(t: Tree)
    requires t == MarkedTree() && WellFormed(t)
    ensures HOME in t && t[HOME] == Dir && Canonicalize(t, HOME) == Some(HOME)
  {
    Itself(t, HOME);
  }

  /** The sweep takes `m`, leaves the root alone, and holds `x` back. */
  lemma MarkedSweep(t: Tree, m: Terms, anyX: bool, root: Root, a: Sweep) returns (b: Candidate)
    requires t == MarkedTree() && m == MarkedTerms(anyX) && root == Root(HOME, 9) && a == SweepOf(WorldOf(t), m, ["g"])
    ensures WellFormed(t) && Unmarked(t) && Spot(t, m, root, "x") && Canonicalize(t, HOME) == Some(HOME)
    ensures Swept(a, m) && root in m.cfg.roots && WayIntact(a.w, a.tops, root.path) && ["h", "u", "m"] in a.tops
    ensures Belongs(a.w, m.cfg, m.os, m.maxTier, root, b) && !Selectable(b, a.w, m.ctx) && b.path == ["h", "u", "x"]
    ensures Outlives(a.tops, ["h", "u", "x"])
  {
    hide Way, Canonicalize, Selectable, AllTaken, IsTop, MarkedTree, WellFormed, FirstHit, FirstStill, LStat,
      Unmarked, Spot,
      Sweep.Valid, Outlives;
    var w, p := WorldOf(t), ["h", "u", "x"];
    MarkedTreeFacts();
    MarkedPlaced(t, a, m, anyX);
    SweepTakesSelected(w, m, ["g"]);
    MarkedSpots(t, m, anyX);
    SelectedThere(t, m, root, "m");
    assert ["h", "u", "m"] in a.tops by { TopInTree(w, m, ["g"], root, ["h", "u", "m"], ["h", "u", "m"]); }
    MarkedHome(t);
    HomeIntact(t, a, m, root);
    MarkedHits(t, m, anyX, root, a.tops);
    SpotSeen(t, m, root, "x");
    InScopeInOrder(m, anyX);
    assert m.cfg.rules[1] == Named("x", Some("m"), 1);
    ProposedThere(t, m, root, "x", Named("x", Some("m"), 1));
    b := Chosen(ScopeAt(w, m, root), p);
    PassesThere(t, m, root, "x", b);
    SurvivesUnselected(a, m, root, p);
    assert PlaceIn(ScopeAt(w, m, root), p) == p;
  }

  lemma HomeIntact(t: Tree, a: Sweep, m: Terms, root: Root)
    requires WellFormed(t) && HOME in t && t[HOME] == Dir && a.w == WorldOf(t) && root == Root(HOME, 9)
    requires a.Valid() && BasesApart(a.w, m.cfg.roots, a.q) && AllTaken(a, m) && root in m.cfg.roots
    ensures WayIntact(a.w, a.tops, root.path)
  {
    hide Way, Canonicalize, AllTaken, WellFormed;
    Itself(t, HOME);
    RootNotStaged(a, m, root);
    CanonicalItself(t, HOME);
    forall n | n in Way(t, HOME) ensures a.Survives(n) { AboveApart(a, HOME, n); }
  }

  /** Under the root `/h/u` the sweep stages `/h/u/m`, which the rule for `x` asks for. What was rejected is not found
      again, though the root and `/h/u/x` are untouched. */
  lemma StagedMarkerLosesCandidate() returns (b: Candidate)
    ensures var w, m, root := WorldOf(MarkedTree()), MarkedTerms(false), Root(HOME, 9);
            var a := SweepOf(w, m, ["g"]);
            && Swept(a, m) && root in m.cfg.roots && WayIntact(a.w, a.tops, root.path)
            && Belongs(w, m.cfg, m.os, m.maxTier, root, b) && !Selectable(b, w, m.ctx)
            && !Belongs(a.Next(), m.cfg, m.os, m.maxTier, root, b)
  {
    hide *;
    var t, m, root := MarkedTree(), MarkedTerms(false), Root(HOME, 9);
    var a := SweepOf(WorldOf(t), m, ["g"]);
    AsNamed(WorldOf(t), m, ["g"]);
    b := MarkedSweep(t, m, false, root, a);
    MarkedHits(t, m, false, root, a.tops);
    BelongsAgain(a, m, root, b);
    NotStill(a.w, a.tops, m, root, b);
  }

  lemma AsNamed(w: World, m: Terms, q: Path)
    ensures SweepOf(w, m, q).w == w
  {
  }

  lemma NotStill(w: World, tops: set<Path>, m: Terms, root: Root, c: Candidate)
    requires root.path < c.path ==> HitStill(ScopeAt(w, m, root), tops, c.path).None?
    ensures !ReplannedIn(w, tops, m, root, c)
  {
  }

  /** With a rule for any `x` after them, the second plan finds `/h/u/x` by that one, and the second sweep selects what
      the first held back. */
  lemma StagedMarkerSelects() returns (b: Candidate, c: Candidate)
    ensures var w, m, root := WorldOf(MarkedTree()), MarkedTerms(true), Root(HOME, 9);
            var a := SweepOf(w, m, ["g"]);
            && Swept(a, m) && root in m.cfg.roots && WayIntact(a.w, a.tops, root.path)
            && Belongs(w, m.cfg, m.os, m.maxTier, root, b) && !Selectable(b, w, m.ctx)
            && Belongs(a.Next(), m.cfg, m.os, m.maxTier, root, c) && Selectable(c, a.Next(), Reloaded(m, a.Next()).ctx)
            && c.path == b.path
  {
    hide *;
    var t, m, root := MarkedTree(), MarkedTerms(true), Root(HOME, 9);
    var a := SweepOf(WorldOf(t), m, ["g"]);
    AsNamed(WorldOf(t), m, ["g"]);
    b := MarkedSweep(t, m, true, root, a);
    MarkedHits(t, m, true, root, a.tops);
    c := MarkedAgain(t, m, root, a.tops);
    BelongsAgain(a, m, root, c);
    JudgedAgain(a, m, root, c);
  }

  lemma MarkedAgain(t: Tree, m: Terms, root: Root, tops: set<Path>) returns (c: Candidate)
    requires Spot(t, m, root, "x") && Canonicalize(t, HOME) == Some(HOME) && WayIntact(WorldOf(t), tops, root.path)
    requires Outlives(tops, ["h", "u", "x"])
    requires root.path < ["h", "u", "x"]
    requires HitStill(ScopeAt(WorldOf(t), m, root), tops, ["h", "u", "x"]) == Some(Named("x", None, 0))
    ensures c.path == ["h", "u", "x"] && ReplannedIn(WorldOf(t), tops, m, root, c) && Selectable(c, WorldOf(t), m.ctx)
  {
    hide FirstStill, Canonicalize, LStat, Way, Selectable, Outlives;
    var s, p := ScopeAt(WorldOf(t), m, root), ["h", "u", "x"];
    SpotSeen(t, m, root, "x");
    assert PlaceIn(s, p) == p;
    c := ChosenStill(s, tops, p);
    PassesThere(t, m, root, "x", c);
  }

  // ------------------------------------------------------------- a pin marker called `.git`

  const HOME_GIT: Path := ["h", "u", ".git"]

  function UngittedTree(): Tree {
    map[[] := Dir, ["h"] := Dir, ["h", ".git"] := Dir, HOME := Dir, ["h", "u", "r"] := Dir,
        ["h", "u", "r", "p"] := Dir]
  }

  function GittedTree(): Tree {
    UngittedTree()[HOME_GIT := Dir]
  }

  function GitContext(): GuardContext {
    TermsOf([], [["h", "u", "r"]], []).ctx.(
      pinMarker := ".git", git := (tree: Path, _) => if tree == HOME then Ignored else NotIgnored)
  }

  lemma GittedTrees()
    ensures MoreMarkers(WorldOf(UngittedTree()), WorldOf(UngittedTree()).(tree := GittedTree()), ".git")
    ensures forall p {:trigger Last(p)} :: p in GittedTree() && p != [] && Last(p) == ".git" ==> |p| <= 3
  {
    assert Parent(["h"]) == [] && Parent(HOME) == ["h"] == Parent(["h", ".git"]);
    assert Parent(["h", "u", "r"]) == HOME == Parent(["h", "u", ".git"]);
    assert Parent(["h", "u", "r", "p"]) == ["h", "u", "r"];
  }

  /** What is seen of `.git` along the way to the candidate. */
  lemma GitSeen(w: World, t: Tree, p: Path, k: nat)
    requires w == WorldOf(UngittedTree()).(tree := t) && t in {UngittedTree(), GittedTree()} && WellFormed(t)
    requires p == ["h", "u", "r", "p"] && k <= 4
    ensures Canonicalize(t, p[..k]) == Some(p[..k]) && w.Has(p[..k], ".git") == (p[..k] + [".git"] in t)
  {
    var d := p[..k];
    assert d == [] || d == ["h"] || d == HOME || d == ["h", "u", "r"] || d == p;
    Itself(t, d);
    LStatEntry(t, d, ".git");
  }

  /** One of the two trees, as the world of the example sees it. */
  ghost predicate GitWorld(w: World, t: Tree) {
    && w == WorldOf(UngittedTree()).(tree := t) && t in {UngittedTree(), GittedTree()} && WellFormed(t)
    && forall p {:trigger Last(p)} :: p in t && p != [] && Last(p) == ".git" ==> |p| <= 3
  }

  lemma GitNear(w: World, t: Tree, p: Path, near: Path)
    requires GitWorld(w, t) && p == ["h", "u", "r", "p"]
    requires near == if t == GittedTree() then HOME else ["h"]
    ensures Worktree(w, p) == Some(near)
  {
    hide LStat, Canonicalize, WellFormed, World.Has;
    assert p[..2] == HOME && p[..1] == ["h"];
    forall k | 0 <= k <= 4 ensures w.Has(p[..k], ".git") == (p[..k] + [".git"] in t) { GitSeen(w, t, p, k); }
    forall k | 3 <= k <= 4 ensures !w.Has(p[..k], ".git") { assert Last(p[..k] + [".git"]) == ".git"; }
    assert ["h"] + [".git"] == ["h", ".git"] && HOME + [".git"] == HOME_GIT;
    assert w.Has(near, ".git") && (near == ["h"] ==> !w.Has(HOME, ".git"));
    assert near == p[..|near|];
    var r := Worktree(w, p);
    assert r.Some?;
    assert r.value == p[..|r.value|];
  }

  lemma GitHeld(w: World, t: Tree, p: Path, root: Path)
    requires GitWorld(w, t) && p == ["h", "u", "r", "p"] && root == ["h", "u", "r"]
    ensures Contained(w, p, root, [root]) == Some(p) && !Pinned(w, p, root, ".git")
  {
    hide LStat, Canonicalize, WellFormed, World.Has;
    assert p[..3] == root && p[..4] == p && root + ["p"] == p;
    forall k | 3 <= k <= 4 ensures !w.Has(p[..k], ".git") {
      GitSeen(w, t, p, k);
      assert Last(p[..k] + [".git"]) == ".git";
    }
    GitSeen(w, t, p, 3);
    GitSeen(w, t, p, 4);
    SomeEntryOf(w, t, root, "p");
  }

  lemma SomeEntryOf(w: World, t: Tree, dir: Path, n: Name)
    requires WellFormed(t) && w == WorldOf(UngittedTree()).(tree := t) && Canonicalize(t, dir) == Some(dir)
    requires dir + [n] in t && n != DOTDOT
    ensures w.Seen(dir + [n]) == Some(t[dir + [n]])
  {
    LStatEntry(t, dir, n);
  }

  /** In `/h`, a worktree that does not ignore the candidate, a `.git` that the marker is called after makes `/h/u` a
      worktree that does. */
  lemma PinMarkerSelects()
    ensures var c := Candidate(["h", "u", "r", "p"], ["h", "u", "r"], "p", 0, 1, 9, 0, 0, 0, false);
            var w, ctx := WorldOf(UngittedTree()), GitContext();
            var v := w.(tree := GittedTree());
            MoreMarkers(w, v, ctx.pinMarker) && Selectable(c, v, ctx) && !Selectable(c, w, ctx)
  {
    hide LStat, Canonicalize, UngittedTree, GittedTree, Contained, Pinned, Worktree, Floor;
    var c := Candidate(["h", "u", "r", "p"], ["h", "u", "r"], "p", 0, 1, 9, 0, 0, 0, false);
    var w, ctx := WorldOf(UngittedTree()), GitContext();
    var v := w.(tree := GittedTree());
    GittedTrees();
    assert UngittedTree() != GittedTree() by { NotGitted(); }
    GitNear(w, UngittedTree(), c.path, ["h"]);
    GitNear(v, GittedTree(), c.path, HOME);
    GitHeld(w, UngittedTree(), c.path, c.root);
    GitHeld(v, GittedTree(), c.path, c.root);
    FourDeep();
  }

  lemma NotGitted()
    ensures HOME_GIT in GittedTree() && HOME_GIT !in UngittedTree()
    ensures UngittedTree() != GittedTree()
  {
    assert ["h", "u", ".git"][2] == ".git" && ["h", "u", "r"][2] == "r";
  }

  lemma FourDeep()
    ensures Floor(["h", "u", "r", "p"], None) == Pass
  {
    var p := ["h", "u", "r", "p"];
    var plain := (c: Name) => c != DOTDOT;
    assert Count(p, plain) == 1 + Count(p[1..], plain) == 2 + Count(p[1..][1..], plain)
           == 3 + Count(p[1..][1..][1..], plain);
    assert forall i :: 0 <= i < |FORBIDDEN_COMPONENTS| ==> |FORBIDDEN_COMPONENTS[i]| >= 4;
    assert forall i :: 0 <= i < |FORBIDDEN_EXACT| ==> |FORBIDDEN_EXACT[i]| <= 1;
  }
}

/** Rules, roots, and when a rule hits a directory. */
module Rules {
  import opened Paths
  import opened Options
  import opened Worlds

  datatype Kind = PathRule | CommandRule

  datatype Matcher = DirName(want: Name) | Glob(pattern: string) | NoMatcher

  datatype Rule = Rule(
    name: string, kind: Kind, tier: nat, matcher: Matcher,
    requireSibling: Option<Name>, requireAncestor: Option<Name>,
    minIdle: nat, orphanedOnly: bool, maxDepth: Option<nat>,
    os: seq<string>, command: seq<string>)
  {
    predicate AppliesTo(platform: string) {
      os == [] || platform in os
    }
  }

  datatype Root = Root(path: Path, maxDepth: nat)

  const MAX_TIER: nat := 2

  datatype Config = Config(roots: seq<Root>, rules: seq<Rule>, caseSensitive: bool)

  function Lower(c: char): char {
    if 'A' <= c <= 'Z' then c - 'A' + 'a' else c
  }

  predicate EqIgnoreAsciiCase(a: string, b: string) {
    |a| == |b| && forall i :: 0 <= i < |a| ==> Lower(a[i]) == Lower(b[i])
  }

  predicate Matches(w: World, cfg: Config, rule: Rule, path: Path)
    requires path != []
  {
    match rule.matcher
    case DirName(want) => if cfg.caseSensitive then Last(path) == want else EqIgnoreAsciiCase(Last(path), want)
    case Glob(pattern) => w.globMatch(pattern, path)
    case NoMatcher => false
  }

  function DepthCap(rule: Rule, rootCap: nat): nat {
    if rule.maxDepth.Some? then rule.maxDepth.value else rootCap
  }

  /** Between the candidate and the root, the root included, some directory holds an entry of this name. */
  predicate AncestorHas(w: World, path: Path, root: Path, marker: Name)
    requires root < path
  {
    exists k :: |root| <= k < |path| && w.Has(path[..k], marker)
  }

  predicate SiblingOk(w: World, rule: Rule, path: Path)
    requires path != []
  {
    rule.requireSibling.Some? ==> w.Has(Parent(path), rule.requireSibling.value)
  }

  predicate AncestorOk(w: World, rule: Rule, path: Path, root: Path)
    requires root < path
  {
    rule.requireAncestor.Some? ==> AncestorHas(w, path, root, rule.requireAncestor.value)
  }

  method StructureOk(w: World, rule: Rule, path: Path, root: Path) returns (ok: bool)
    requires root < path
    ensures ok == (SiblingOk(w, rule, path) && AncestorOk(w, rule, path, root))
  {
    var parent := Parent(path);
    if rule.requireSibling.Some? && !w.Has(parent, rule.requireSibling.value) {
      return false;
    }
    if rule.requireAncestor.Some? {
      StrictPrefixOfParent(root, path);
      var cur, found := parent, false;
      while true
        invariant root <= cur < path && cur == path[..|cur|] && !found
        invariant forall k :: |cur| < k < |path| ==> !w.Has(path[..k], rule.requireAncestor.value)
        decreases |cur|
      {
        if w.Has(cur, rule.requireAncestor.value) {
          found := true;
          break;
        }
        if cur == root {
          break;
        }
        cur := Parent(cur);
        assert cur == path[..|cur|];
      }
      if !found {
        return false;
      }
    }
    return true;
  }

  /** The rule names this directory, within its own depth cap and structure. */
  predicate Hits(w: World, cfg: Config, root: Root, rule: Rule, path: Path)
    requires root.path < path
  {
    && |path| - |root.path| <= DepthCap(rule, root.maxDepth)
    && Matches(w, cfg, rule, path)
    && SiblingOk(w, rule, path) && AncestorOk(w, rule, path, root.path)
  }

  /** The path rules of this platform up to a tier, in file order. */
  function PathRules(rules: seq<Rule>, os: string, maxTier: nat): (r: seq<Rule>)
    ensures forall x :: x in r <==> x in rules && InScope(x, os, maxTier)
  {
    if rules == [] then []
    else
      assert rules == [rules[0]] + rules[1..];
      (if InScope(rules[0], os, maxTier) then [rules[0]] else []) + PathRules(rules[1..], os, maxTier)
  }

  predicate InScope(r: Rule, os: string, maxTier: nat) {
    r.AppliesTo(os) && r.kind == PathRule && r.tier <= maxTier
  }

  /** The first rule, in order, that hits. */
  ghost function FirstHit(w: World, cfg: Config, rules: seq<Rule>, root: Root, path: Path): (r: Option<Rule>)
    requires root.path < path
    ensures r.Some? ==> r.value in rules && Hits(w, cfg, root, r.value, path)
    ensures r.None? <==> forall x :: x in rules ==> !Hits(w, cfg, root, x, path)
  {
    if rules == [] then None
    else if Hits(w, cfg, root, rules[0], path) then Some(rules[0])
    else
      assert rules == [rules[0]] + rules[1..];
      FirstHit(w, cfg, rules[1..], root, path)
  }

  method FindHit(w: World, cfg: Config, rules: seq<Rule>, root: Root, path: Path) returns (r: Option<Rule>)
    requires root.path < path
    ensures r == FirstHit(w, cfg, rules, root, path)
  {
    for i := 0 to |rules|
      invariant FirstHit(w, cfg, rules, root, path) == FirstHit(w, cfg, rules[i..], root, path)
    {
      assert rules[i..][1..] == rules[i + 1..];
      if |path| - |root.path| <= DepthCap(rules[i], root.maxDepth) && Matches(w, cfg, rules[i], path) {
        var ok := StructureOk(w, rules[i], path, root.path);
        if ok {
          return Some(rules[i]);
        }
      }
    }
    return None;
  }

  function MakeCandidate(w: World, rule: Rule, root: Root, path: Path): Candidate
    requires root.path < path
  {
    Candidate(path, root.path, rule.name, rule.tier, |path| - |root.path|, DepthCap(rule, root.maxDepth),
              w.bytes(path), w.idle(path), rule.minIdle, rule.orphanedOnly)
  }

  // ------------------------------------------------------------- what a rule asks for and hands on

  /** The same letters, of which a capital may stand for its small one. */
  ghost predicate SameLetters(a: string, b: string) {
    && |a| == |b|
    && forall i :: 0 <= i < |a| ==>
         || a[i] == b[i]
         || ('A' <= a[i] <= 'Z' && b[i] as int == a[i] as int + 32)
         || ('A' <= b[i] <= 'Z' && a[i] as int == b[i] as int + 32)
  }

  ghost predicate NamedBy(w: World, cfg: Config, rule: Rule, p: Path) {
    || (exists n ::
          && rule.matcher == DirName(n) && p != []
          && if cfg.caseSensitive then p[|p| - 1] == n else SameLetters(p[|p| - 1], n))
    || (exists g :: rule.matcher == Glob(g) && w.globMatch(g, p))
  }

  /** A rule of this platform, by name or pattern, of this tier at most. */
  ghost predicate Eligible(rule: Rule, os: string, maxTier: nat) {
    rule.kind == PathRule && rule.tier <= maxTier && (rule.os == [] || os in rule.os)
  }

  /** How deep below the root the rule reaches: as deep as it says, or else as the root does. */
  ghost predicate Deepest(rule: Rule, root: Root, n: nat) {
    rule.maxDepth == Some(n) || (rule.maxDepth == None && root.maxDepth == n)
  }

  /** The rule finds `p` below this root: by its name, no deeper than it may look, beside the sibling it asks for, and
      with the entry it asks for in some directory from the root down. */
  ghost predicate Finds(w: World, cfg: Config, os: string, maxTier: nat, root: Root, rule: Rule, p: Path) {
    && Eligible(rule, os, maxTier) && root.path < p && NamedBy(w, cfg, rule, p)
    && (exists n :: Deepest(rule, root, n) && |p| <= |root.path| + n)
    && (forall n :: rule.requireSibling == Some(n) ==> w.Has(p[..|p| - 1], n))
    && (forall n :: rule.requireAncestor == Some(n) ==> exists k :: |root.path| <= k < |p| && w.Has(p[..k], n))
  }

  /** The rule at `i` is the first of these to find `p`. */
  ghost predicate FindsFirst(w: World, cfg: Config, rules: seq<Rule>, os: string, maxTier: nat, root: Root, p: Path,
                             i: int) {
    && 0 <= i < |rules| && Finds(w, cfg, os, maxTier, root, rules[i], p)
    && forall j :: 0 <= j < i ==> !Finds(w, cfg, os, maxTier, root, rules[j], p)
  }

  /** `c` carries what the rule and the root say, and what is measured in its place. */
  ghost predicate Carries(w: World, rule: Rule, root: Root, c: Candidate) {
    && c.root == root.path && c.root < c.path
    && c.rule == rule.name && c.tier == rule.tier && c.minIdle == rule.minIdle && c.orphanedOnly == rule.orphanedOnly
    && c.depth == |c.path| - |root.path| && Deepest(rule, root, c.depthCap)
    && c.bytes == w.bytes(c.path) && c.idle == w.idle(c.path)
  }

  lemma SameLettersMeans(a: string, b: string)
    ensures EqIgnoreAsciiCase(a, b) <==> SameLetters(a, b)
  {
  }

  lemma HitMeans(w: World, cfg: Config, os: string, maxTier: nat, root: Root, rule: Rule, p: Path)
    requires root.path < p
    ensures InScope(rule, os, maxTier) && Hits(w, cfg, root, rule, p) <==> Finds(w, cfg, os, maxTier, root, rule, p)
  {
    hide EqIgnoreAsciiCase, SameLetters, World.Has;
    if rule.matcher.DirName? { SameLettersMeans(p[|p| - 1], rule.matcher.want); }
    assert Deepest(rule, root, DepthCap(rule, root.maxDepth));
  }

  /** The first hit among the rules in scope is the first rule of the file to find the directory. */
  lemma {:induction false} FirstHitMeans(w: World, cfg: Config, os: string, maxTier: nat, rules: seq<Rule>, root: Root,
                                         p: Path)
    requires root.path < p
    ensures match FirstHit(w, cfg, PathRules(rules, os, maxTier), root, p)
            case None => forall r :: r in rules ==> !Finds(w, cfg, os, maxTier, root, r, p)
            case Some(rule) =>
              exists i :: FindsFirst(w, cfg, rules, os, maxTier, root, p, i) && rules[i] == rule
  {
    if rules != [] {
      hide *;
      var first, rest := rules[0], rules[1..];
      HitMeans(w, cfg, os, maxTier, root, first, p);
      FirstHitNext(w, cfg, os, maxTier, rules, root, p);
      if Finds(w, cfg, os, maxTier, root, first, p) {
        FindsHere(w, cfg, rules, os, maxTier, root, p);
      } else {
        FirstHitMeans(w, cfg, os, maxTier, rest, root, p);
        var found := FirstHit(w, cfg, PathRules(rest, os, maxTier), root, p);
        if found.Some? {
          var i :| FindsFirst(w, cfg, rest, os, maxTier, root, p, i) && rest[i] == found.value;
          FindsLater(w, cfg, rules, os, maxTier, root, p, i);
        } else {
          assert forall r :: r in rules ==> r == first || r in rest;
        }
      }
    }
  }

  lemma FirstHitNext(w: World, cfg: Config, os: string, maxTier: nat, rules: seq<Rule>, root: Root, p: Path)
    requires rules != [] && root.path < p
    ensures FirstHit(w, cfg, PathRules(rules, os, maxTier), root, p)
            == if InScope(rules[0], os, maxTier) && Hits(w, cfg, root, rules[0], p) then Some(rules[0])
               else FirstHit(w, cfg, PathRules(rules[1..], os, maxTier), root, p)
  {
    hide InScope, Hits, FirstHit;
    var rest := PathRules(rules[1..], os, maxTier);
    assert PathRules(rules, os, maxTier) == if InScope(rules[0], os, maxTier) then [rules[0]] + rest else rest;
    FirstHitCons(w, cfg, rules[0], rest, root, p);
  }

  lemma FirstHitCons(w: World, cfg: Config, rule: Rule, rest: seq<Rule>, root: Root, p: Path)
    requires root.path < p
    ensures FirstHit(w, cfg, [rule] + rest, root, p)
            == if Hits(w, cfg, root, rule, p) then Some(rule) else FirstHit(w, cfg, rest, root, p)
  {
    hide Hits;
    var rules := [rule] + rest;
    assert rules[0] == rule && rules[1..] == rest;
  }

  lemma FindsHere(w: World, cfg: Config, rules: seq<Rule>, os: string, maxTier: nat, root: Root, p: Path)
    requires rules != [] && Finds(w, cfg, os, maxTier, root, rules[0], p)
    ensures FindsFirst(w, cfg, rules, os, maxTier, root, p, 0)
  {
  }

  lemma FindsLater(w: World, cfg: Config, rules: seq<Rule>, os: string, maxTier: nat, root: Root, p: Path, i: int)
    requires rules != [] && !Finds(w, cfg, os, maxTier, root, rules[0], p)
    requires FindsFirst(w, cfg, rules[1..], os, maxTier, root, p, i)
    ensures FindsFirst(w, cfg, rules, os, maxTier, root, p, i + 1) && i < |rules| - 1
    ensures rules[i + 1] == rules[1..][i]
  {
    hide Finds;
    forall j | 0 < j < i + 1 ensures !Finds(w, cfg, os, maxTier, root, rules[j], p) {
      assert rules[j] == rules[1..][j - 1];
    }
  }

  lemma CarriesMade(w: World, rule: Rule, root: Root, p: Path)
    requires root.path < p
    ensures Carries(w, rule, root, MakeCandidate(w, rule, root, p))
  {
  }
}

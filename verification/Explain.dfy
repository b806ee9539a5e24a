/** `explain`: every rule's verdict on one path, written separately from the planner. */
module Explain {
  import opened Paths
  import opened FileSystem
  import opened Options
  import opened Worlds
  import opened Rules
  import opened Plans

  datatype RuleOutcome =
    | Matched | WrongOs | TierExcluded | NoPath | NameMismatch | GlobMismatch
    | TooDeep | MissingSibling | MissingAncestor

  datatype PathKind = Directory | Link | NotADirectory | Gone

  datatype Explanation = Explanation(
    root: Option<Path>, depth: Option<nat>, kind: PathKind, traces: seq<RuleOutcome>, candidate: Option<Candidate>)

  /** How many components `path` adds to `root`. */
  function DepthBelow(root: Path, path: Path): Option<nat> {
    if root <= path then Some(|path| - |root|) else None
  }

  /** The declared root strictly holding the path that lies nearest to it; the first of several as near. */
  ghost predicate IsBest(roots: seq<Root>, path: Path, best: Option<Root>) {
    match best
    case None => forall r :: r in roots ==> !(r.path < path)
    case Some(b) => exists i :: NearestAt(roots, path, i) && roots[i] == b
  }

  ghost predicate NearestAt(roots: seq<Root>, path: Path, i: int) {
    && 0 <= i < |roots| && roots[i].path < path
    && forall j :: 0 <= j < |roots| && roots[j].path < path ==>
         |roots[j].path| <= |roots[i].path| && (j < i ==> |roots[j].path| < |roots[i].path|)
  }

  // ------------------------------------------------------------- what an outcome says

  /** The name the path ends in is the one the rule looks for, or the path fits the rule's pattern. */
  ghost predicate Bears(w: World, cfg: Config, rule: Rule, path: Path) {
    || (exists name, want ::
          && EndsIn(path, name) && rule.matcher == DirName(want)
          && if cfg.caseSensitive then name == want else SameLetters(name, want))
    || (exists g :: rule.matcher == Glob(g) && w.globMatch(g, path))
  }

  /** The last component; the root directory and a path to a parent end in no name. */
  ghost predicate EndsIn(path: Path, name: Name) {
    if path == [] || path[|path| - 1] == ".." then name == "" else name == path[|path| - 1]
  }

  ghost predicate WithinReach(rule: Rule, root: Root, path: Path) {
    exists n :: Deepest(rule, root, n) && |path| <= |root.path| + n
  }

  ghost predicate SiblingThere(w: World, rule: Rule, path: Path) {
    forall n :: rule.requireSibling == Some(n) ==> path != [] && w.Has(path[..|path| - 1], n)
  }

  ghost predicate AncestorThere(w: World, rule: Rule, root: Root, path: Path) {
    forall n :: rule.requireAncestor == Some(n) ==> exists k :: |root.path| <= k < |path| && w.Has(path[..k], n)
  }

  /** What is said of a rule is so, and nothing that would be said before it is. Below no root, only the name counts. */
  ghost predicate Says(o: RuleOutcome, w: World, cfg: Config, os: string, maxTier: nat, rule: Rule, path: Path,
                       best: Option<Root>) {
    var here := rule.os == [] || os in rule.os;
    var bears := Eligible(rule, os, maxTier) && Bears(w, cfg, rule, path);
    match o
    case WrongOs => !here
    case NoPath => here && (rule.kind == CommandRule || (rule.tier <= maxTier && rule.matcher == NoMatcher))
    case TierExcluded => here && rule.kind == PathRule && maxTier < rule.tier
    case NameMismatch => Eligible(rule, os, maxTier) && !bears && exists want :: rule.matcher == DirName(want)
    case GlobMismatch => Eligible(rule, os, maxTier) && !bears && exists g :: rule.matcher == Glob(g)
    case TooDeep => bears && exists root :: best == Some(root) && !WithinReach(rule, root, path)
    case MissingSibling =>
      bears && exists root :: best == Some(root) && WithinReach(rule, root, path) && !SiblingThere(w, rule, path)
    case MissingAncestor =>
      bears && exists root :: best == Some(root) && WithinReach(rule, root, path) && SiblingThere(w, rule, path)
                              && !AncestorThere(w, rule, root, path)
    case Matched =>
      bears && forall root :: best == Some(root) ==>
        WithinReach(rule, root, path) && SiblingThere(w, rule, path) && AncestorThere(w, rule, root, path)
  }

  lemma BearsMeans(w: World, cfg: Config, os: string, maxTier: nat, rule: Rule, path: Path)
    requires Eligible(rule, os, maxTier)
    ensures NameOutcome(w, cfg, os, maxTier, rule, path) == Matched <==> Bears(w, cfg, rule, path)
  {
    hide EqIgnoreAsciiCase, SameLetters;
    assert EndsIn(path, PlainName(path));
    if rule.matcher.DirName? { SameLettersMeans(PlainName(path), rule.matcher.want); }
  }

  lemma OutcomeMeans(w: World, cfg: Config, os: string, maxTier: nat, rule: Rule, path: Path, best: Option<Root>)
    requires best.Some? ==> best.value.path < path
    ensures Says(Outcome(w, cfg, os, maxTier, rule, path, best), w, cfg, os, maxTier, rule, path, best)
  {
    hide Bears, World.Has;
    if Eligible(rule, os, maxTier) { BearsMeans(w, cfg, os, maxTier, rule, path); }
    if best.Some? { assert Deepest(rule, best.value, DepthCap(rule, best.value.maxDepth)); }
  }

  function PlainName(path: Path): Name {
    if path == [] || Last(path) == DOTDOT then "" else Last(path)
  }

  function NameOutcome(w: World, cfg: Config, os: string, maxTier: nat, rule: Rule, path: Path): RuleOutcome {
    if !rule.AppliesTo(os) then WrongOs
    else if rule.kind == CommandRule then NoPath
    else if rule.tier > maxTier then TierExcluded
    else match rule.matcher
      case DirName(want) =>
        if (if cfg.caseSensitive then PlainName(path) == want else EqIgnoreAsciiCase(PlainName(path), want))
        then Matched else NameMismatch
      case Glob(pattern) => if w.globMatch(pattern, path) then Matched else GlobMismatch
      case NoMatcher => NoPath
  }

  /** Depth and structure are only looked at once the name matched, and only below a declared root. */
  function Outcome(w: World, cfg: Config, os: string, maxTier: nat, rule: Rule, path: Path,
                   best: Option<Root>): RuleOutcome
    requires best.Some? ==> best.value.path < path
  {
    var named := NameOutcome(w, cfg, os, maxTier, rule, path);
    if named != Matched || best.None? then named
    else if |path| - |best.value.path| > DepthCap(rule, best.value.maxDepth) then TooDeep
    else if !SiblingOk(w, rule, path) then MissingSibling
    else if !AncestorOk(w, rule, path, best.value.path) then MissingAncestor
    else Matched
  }

  /** The first rule of the file whose verdict is a match. */
  ghost function FirstMatched(w: World, cfg: Config, os: string, maxTier: nat, rules: seq<Rule>, path: Path,
                              best: Option<Root>): Option<Rule>
    requires best.Some? ==> best.value.path < path
  {
    if rules == [] then None
    else if Outcome(w, cfg, os, maxTier, rules[0], path, best) == Matched then Some(rules[0])
    else FirstMatched(w, cfg, os, maxTier, rules[1..], path, best)
  }

  ghost function Explained(w: World, cfg: Config, os: string, maxTier: nat, path: Path,
                           best: Option<Root>): Option<Candidate>
    requires best.Some? ==> best.value.path < path
  {
    if best.None? then None
    else match FirstMatched(w, cfg, os, maxTier, cfg.rules, path, best)
      case None => None
      case Some(rule) => Some(MakeCandidate(w, rule, best.value, path))
  }

  ghost predicate FirstIn<T>(s: seq<T>, x: T, i: int) {
    0 <= i < |s| && s[i] == x && forall j :: 0 <= j < i ==> s[j] != x
  }

  method BestRoot(roots: seq<Root>, path: Path) returns (best: Option<Root>)
    ensures IsBest(roots, path, best)
  {
    best := None;
    for i := 0 to |roots|
      invariant IsBest(roots[..i], path, best)
    {
      assert roots[..i + 1] == roots[..i] + [roots[i]];
      var d := DepthBelow(roots[i].path, path);
      if d.Some? && d.value > 0 && (best.None? || d.value < |path| - |best.value.path|) {
        best := Some(roots[i]);
      }
    }
    assert roots[..|roots|] == roots;
  }

  method ExplainPath(w: World, cfg: Config, os: string, maxTier: nat, path: Path)
    returns (x: Explanation, ghost best: Option<Root>)
    ensures IsBest(cfg.roots, path, best)
    ensures x.root == (match best case None => None case Some(r) => Some(r.path))
    ensures x.depth == (match best case None => None case Some(r) => Some(|path| - |r.path|))
    ensures |x.traces| == |cfg.rules|
    ensures forall i :: 0 <= i < |cfg.rules| ==> x.traces[i] == Outcome(w, cfg, os, maxTier, cfg.rules[i], path, best)
    ensures x.candidate == Explained(w, cfg, os, maxTier, path, best)
    // In terms of the rule, the path and the tree, each outcome is the one there is to tell.
    ensures forall i :: 0 <= i < |cfg.rules| ==> Says(x.traces[i], w, cfg, os, maxTier, cfg.rules[i], path, best)
    // The candidate is what the first rule that matched makes of the path below its root.
    ensures x.candidate.Some? <==> best.Some? && Matched in x.traces
    ensures x.candidate.Some? ==> x.candidate.value.path == path
    ensures x.candidate.Some? ==> exists i :: FirstIn(x.traces, Matched, i)
                                              && Carries(w, cfg.rules[i], best.value, x.candidate.value)
    ensures match x.kind
            case Directory => w.Seen(path) == Some(Dir)
            case Link => exists n :: w.Seen(path) == Some(n) && n.Symlink?
            case NotADirectory => exists n :: w.Seen(path) == Some(n) && n.File?
            case Gone => w.Seen(path) == None
  {
    var seen := w.Seen(path);
    var kind := match seen case None => Gone case Some(node) =>
      if node.Symlink? then Link else if node.Dir? then Directory else NotADirectory;
    var root := BestRoot(cfg.roots, path);
    best := root;

    var traces: seq<RuleOutcome> := [];
    var candidate: Option<Candidate> := None;
    for i := 0 to |cfg.rules|
      invariant |traces| == i
      invariant forall j :: 0 <= j < i ==> traces[j] == Outcome(w, cfg, os, maxTier, cfg.rules[j], path, root)
      invariant root.None? ==> candidate.None?
      invariant root.Some? && candidate.None? ==>
                  FirstMatched(w, cfg, os, maxTier, cfg.rules, path, root)
                  == FirstMatched(w, cfg, os, maxTier, cfg.rules[i..], path, root)
      invariant candidate.Some? ==> candidate == Explained(w, cfg, os, maxTier, path, root)
      invariant candidate.Some? <==> root.Some? && Matched in traces
      invariant candidate.Some? ==> candidate.value.path == path
      invariant candidate.Some? ==> exists k :: FirstIn(traces, Matched, k)
                                                && Carries(w, cfg.rules[k], root.value, candidate.value)
    {
      var rule := cfg.rules[i];
      assert cfg.rules[i..][0] == rule && cfg.rules[i..][1..] == cfg.rules[i + 1..];
      var outcome := NameOutcome(w, cfg, os, maxTier, rule, path);
      if outcome == Matched && root.Some? {
        if |path| - |root.value.path| > DepthCap(rule, root.value.maxDepth) {
          outcome := TooDeep;
        } else if rule.requireSibling.Some? && !w.Has(Parent(path), rule.requireSibling.value) {
          outcome := MissingSibling;
        } else {
          outcome := CheckAncestor(w, rule, path, root.value.path);
        }
      }
      if outcome == Matched && candidate.None? && root.Some? {
        candidate := Some(MakeCandidate(w, rule, root.value, path));
        CarriesMade(w, rule, root.value, path);
        assert FirstIn(traces + [outcome], Matched, i);
      }
      StillFirst(traces, outcome);
      traces := traces + [outcome];
    }
    forall i | 0 <= i < |cfg.rules| ensures Says(traces[i], w, cfg, os, maxTier, cfg.rules[i], path, root) {
      OutcomeMeans(w, cfg, os, maxTier, cfg.rules[i], path, root);
    }
    x := Explanation(if root.None? then None else Some(root.value.path),
                     if root.None? then None else Some(|path| - |root.value.path|), kind, traces, candidate);
  }

  lemma StillFirst(traces: seq<RuleOutcome>, outcome: RuleOutcome)
    ensures forall k :: FirstIn(traces, Matched, k) ==> FirstIn(traces + [outcome], Matched, k)
    ensures Matched in traces + [outcome] <==> Matched in traces || outcome == Matched
  {
  }

  method CheckAncestor(w: World, rule: Rule, path: Path, root: Path) returns (outcome: RuleOutcome)
    requires root < path
    ensures outcome == if AncestorOk(w, rule, path, root) then Matched else MissingAncestor
  {
    if rule.requireAncestor.None? {
      return Matched;
    }
    StrictPrefixOfParent(root, path);
    var cur := Parent(path);
    while true
      invariant root <= cur < path && cur == path[..|cur|]
      invariant forall k :: |cur| < k < |path| ==> !w.Has(path[..k], rule.requireAncestor.value)
      decreases |cur|
    {
      if w.Has(cur, rule.requireAncestor.value) {
        return Matched;
      }
      if cur == root {
        break;
      }
      cur := Parent(cur);
      assert cur == path[..|cur|];
    }
    return MissingAncestor;
  }

  // ------------------------------------------------------------- agreement with the planner

  /** A rule's verdict is a match exactly when the planner would use the rule and it hits. */
  lemma MatchedIsHit(w: World, cfg: Config, os: string, maxTier: nat, rule: Rule, root: Root, p: Path)
    requires root.path < p && Last(p) != DOTDOT
    ensures Outcome(w, cfg, os, maxTier, rule, p, Some(root)) == Matched <==>
              InScope(rule, os, maxTier) && Hits(w, cfg, root, rule, p)
  {
  }

  /** The first match in the file is the first hit among the rules the planner uses. */
  lemma {:induction false} FirstMatchedIsFirstHit(w: World, cfg: Config, os: string, maxTier: nat, rules: seq<Rule>,
                                                  root: Root, p: Path)
    requires root.path < p && Last(p) != DOTDOT
    ensures FirstMatched(w, cfg, os, maxTier, rules, p, Some(root))
            == FirstHit(w, cfg, PathRules(rules, os, maxTier), root, p)
  {
    hide Outcome, Hits, InScope;
    if rules != [] {
      MatchedIsHit(w, cfg, os, maxTier, rules[0], root, p);
      FirstMatchedIsFirstHit(w, cfg, os, maxTier, rules[1..], root, p);
      var rest := PathRules(rules[1..], os, maxTier);
      if InScope(rules[0], os, maxTier) {
        assert PathRules(rules, os, maxTier) == [rules[0]] + rest;
        assert ([rules[0]] + rest)[1..] == rest;
      } else {
        assert PathRules(rules, os, maxTier) == rest;
      }
    }
  }

  lemma ExplainedIsHit(w: World, cfg: Config, os: string, maxTier: nat, root: Root, p: Path)
    requires root.path < p && Last(p) != DOTDOT
    ensures var s := ScopeOf(w, cfg, os, maxTier, root);
            Explained(w, cfg, os, maxTier, p, Some(root)) == if HitAt(s, p).Some? then Some(Chosen(s, p)) else None
  {
    FirstMatchedIsFirstHit(w, cfg, os, maxTier, cfg.rules, root, p);
  }

  /** Only this declared root strictly holds the path. */
  ghost predicate OnlyRoot(roots: seq<Root>, root: Root, p: Path) {
    root in roots && root.path < p && forall r :: r in roots && r.path < p ==> r == root
  }

  lemma {:induction false} FirstPlace<T>(s: seq<T>, x: T) returns (i: nat)
    requires x in s
    ensures FirstIn(s, x, i)
  {
    if s[0] == x {
      i := 0;
    } else {
      assert s == [s[0]] + s[1..];
      i := FirstPlace(s[1..], x);
      assert forall j :: 0 < j < |s| ==> s[j] == s[1..][j - 1];
      i := i + 1;
    }
  }

  lemma OnlyRootIsBest(roots: seq<Root>, root: Root, p: Path)
    requires OnlyRoot(roots, root, p)
    ensures forall best :: IsBest(roots, p, best) <==> best == Some(root)
  {
    var i := FirstPlace(roots, root);
    assert NearestAt(roots, p, i);
  }

  /** `explain` and the planner agree on every path the walk could reach. They part company only over its kind, which
      `explain` does not consult when it builds a candidate. */
  lemma ExplainAgrees(w: World, cfg: Config, os: string, maxTier: nat, root: Root, p: Path)
    requires OnlyRoot(cfg.roots, root, p) && PlainTail(root.path, p)
    requires forall k :: |root.path| <= k < |p| ==> Open(w, p[..k])
    ensures IsBest(cfg.roots, p, Some(root))
    ensures forall k, best :: |root.path| < k <= |p| && IsBest(cfg.roots, p[..k], best) ==> best == Some(root)
    ensures Proposed(ScopeOf(w, cfg, os, maxTier, root), p) <==>
              && w.Seen(p) == Some(Dir)
              && Explained(w, cfg, os, maxTier, p, Some(root)).Some?
              && forall k :: |root.path| < k < |p| ==>
                   root.path < p[..k] && Explained(w, cfg, os, maxTier, p[..k], Some(root)).None?
    ensures Proposed(ScopeOf(w, cfg, os, maxTier, root), p) ==>
              Explained(w, cfg, os, maxTier, p, Some(root)) == Some(Chosen(ScopeOf(w, cfg, os, maxTier, root), p))
  {
    hide FirstHit, FirstMatched, IsBest;
    ExplainedIsHit(w, cfg, os, maxTier, root, p);
    forall k | |root.path| < k <= |p|
      ensures forall best :: IsBest(cfg.roots, p[..k], best) <==> best == Some(root)
    {
      assert root.path < p[..k];
      OnlyRootIsBest(cfg.roots, root, p[..k]);
    }
    forall k | |root.path| < k < |p|
      ensures root.path < p[..k]
      ensures Explained(w, cfg, os, maxTier, p[..k], Some(root)).None? <==>
                HitAt(ScopeOf(w, cfg, os, maxTier, root), p[..k]).None?
    {
      assert Last(p[..k]) == p[k - 1];
      ExplainedIsHit(w, cfg, os, maxTier, root, p[..k]);
    }
    assert p[..|p|] == p;
  }
}

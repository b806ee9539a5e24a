/** Path resolution: `canonicalize` and `symlink_metadata` on a path as spelled. */
module Resolve {
  import opened Paths
  import opened FileSystem
  import opened Options

  /** Links followed before the kernel gives up with `ELOOP`. */
  const MAX_LINKS: nat := 40

  /** A directory reached, and how many links may still be followed. */
  datatype Place = Place(at: Path, links: nat)

  /** Walks the components of `todo` from the canonical directory `at`, following links. */
  function Walk(t: Tree, at: Path, todo: Path, links: nat): Option<Place>
    decreases links, |todo|
  {
    if todo == [] then Some(Place(at, links))
    else if at !in t || t[at] != Dir then None
    else if todo[0] == DOTDOT then Walk(t, if at == [] then [] else Parent(at), todo[1..], links)
    else
      var next := at + [todo[0]];
      if next !in t then None
      else match t[next]
        case Symlink(absolute, target) =>
          if links == 0 then None
          else Walk(t, if absolute then [] else at, target + todo[1..], links - 1)
        case _ => Walk(t, next, todo[1..], links)
  }

  function Canonicalize(t: Tree, p: Path): Option<Path> {
    match Walk(t, [], p, MAX_LINKS)
    case None => None
    case Some(place) => Some(place.at)
  }

  /** `symlink_metadata`: every component but the last is followed. */
  function LStat(t: Tree, p: Path): Option<Node> {
    if p == [] then Some(Dir)
    else match Walk(t, [], Parent(p), MAX_LINKS)
      case None => None
      case Some(place) =>
        if place.at !in t || t[place.at] != Dir then None
        else if Last(p) == DOTDOT then Some(Dir)
        else if place.at + [Last(p)] in t then Some(t[place.at + [Last(p)]])
        else None
  }

  ghost predicate RealDir(t: Tree, p: Path) {
    LStat(t, p) == Some(Dir)
  }

  // ------------------------------------------------------------- resolution step by step

  /** On the way: a directory reached, the components still to be taken, and how many links may still be followed. */
  datatype Waypoint = Waypoint(at: Path, todo: Path, links: nat)

  /** One component is taken: back up, which at the top goes nowhere, along an entry, or through a link in its place. */
  ghost predicate StepsTo(t: Tree, a: Waypoint, b: Waypoint) {
    && a.todo != [] && a.at in t && t[a.at] == Dir
    && var n, rest := a.todo[0], a.todo[1..];
       || (n == ".." && b.todo == rest && b.links == a.links
           && if a.at == [] then b.at == [] else |b.at| == |a.at| - 1 && b.at < a.at)
       || (n != ".." && a.at + [n] in t && !t[a.at + [n]].Symlink? && b == Waypoint(a.at + [n], rest, a.links))
       || (n != ".." && exists absolute, target ::
             && a.at + [n] in t && t[a.at + [n]] == Symlink(absolute, target) && b.links == a.links - 1
             && b.todo == target + rest && b.at == if absolute then [] else a.at)
  }

  /** Step by step from `a` until no component is left. */
  ghost predicate Leads(t: Tree, a: Waypoint, steps: seq<Waypoint>, at: Path, links: nat) {
    && steps != [] && steps[0] == a && steps[|steps| - 1] == Waypoint(at, [], links)
    && forall i :: 0 <= i < |steps| - 1 ==> StepsTo(t, steps[i], steps[i + 1])
  }

  lemma {:induction false} WalkLeads(t: Tree, at: Path, todo: Path, links: nat) returns (steps: seq<Waypoint>)
    requires Walk(t, at, todo, links).Some?
    ensures var end := Walk(t, at, todo, links).value; Leads(t, Waypoint(at, todo, links), steps, end.at, end.links)
    decreases links, |todo|
  {
    var a := Waypoint(at, todo, links);
    if todo == [] {
      steps := [a];
    } else {
      var b;
      if todo[0] == DOTDOT {
        b := Waypoint(if at == [] then [] else Parent(at), todo[1..], links);
        steps := WalkLeads(t, b.at, b.todo, b.links);
      } else {
        match t[at + [todo[0]]] {
          case Symlink(absolute, target) =>
            b := Waypoint(if absolute then [] else at, target + todo[1..], links - 1);
            steps := WalkLeads(t, b.at, b.todo, b.links);
          case _ =>
            b := Waypoint(at + [todo[0]], todo[1..], links);
            steps := WalkLeads(t, b.at, b.todo, b.links);
        }
      }
      assert StepsTo(t, a, b);
      steps := [a] + steps;
    }
  }

  lemma {:induction false} LeadsWalk(t: Tree, a: Waypoint, steps: seq<Waypoint>, at: Path, links: nat)
    requires Leads(t, a, steps, at, links)
    ensures Walk(t, a.at, a.todo, a.links) == Some(Place(at, links))
    decreases |steps|
  {
    if |steps| > 1 {
      var b, rest := steps[1], steps[1..];
      assert StepsTo(t, a, steps[0 + 1]);
      forall i | 0 <= i < |rest| - 1 ensures StepsTo(t, rest[i], rest[i + 1]) {
        assert StepsTo(t, steps[i + 1], steps[i + 1 + 1]);
      }
      LeadsWalk(t, b, rest, at, links);
      if a.todo[0] == DOTDOT && a.at != [] { assert b.at == a.at[..|b.at|]; }
    }
  }

  /** A path resolves to what its components lead to, from the top and through no more than 40 links. */
  lemma CanonicalizeMeans(t: Tree, p: Path, c: Path)
    ensures Canonicalize(t, p) == Some(c) <==> exists steps, links :: Leads(t, Waypoint([], p, 40), steps, c, links)
  {
    if Canonicalize(t, p) == Some(c) {
      var steps := WalkLeads(t, [], p, 40);
      assert Leads(t, Waypoint([], p, 40), steps, c, Walk(t, [], p, 40).value.links);
    }
    if steps, links :| Leads(t, Waypoint([], p, 40), steps, c, links) {
      LeadsWalk(t, Waypoint([], p, 40), steps, c, links);
    }
  }

  /** What is at a path itself, links included: an entry of the directory its front leads to; or that directory's
      parent, or the top. */
  lemma LStatMeans(t: Tree, p: Path, node: Node)
    requires WellFormed(t)
    ensures LStat(t, p) == Some(node) <==>
              || (p == [] && node == Dir)
              || (p != [] && exists d :: Canonicalize(t, Parent(p)) == Some(d) && d in t && t[d] == Dir
                                         && if p[|p| - 1] == ".." then node == Dir
                                            else d + [p[|p| - 1]] in t && t[d + [p[|p| - 1]]] == node)
  {
    if p != [] && Canonicalize(t, Parent(p)).Some? {
      var d := Canonicalize(t, Parent(p)).value;
      assert Last(p) == p[|p| - 1];
    }
  }

  // ------------------------------------------------------------- how resolution composes

  lemma {:induction false} WalkConcat(t: Tree, at: Path, a: Path, b: Path, links: nat)
    ensures Walk(t, at, a + b, links) ==
              match Walk(t, at, a, links) { case None => None case Some(pl) => Walk(t, pl.at, b, pl.links) }
    decreases links, |a|
  {
    if a == [] {
      assert a + b == b;
    } else {
      assert (a + b)[1..] == a[1..] + b;
      if at in t && t[at] == Dir {
        if a[0] == DOTDOT {
          WalkConcat(t, if at == [] then [] else Parent(at), a[1..], b, links);
        } else if at + [a[0]] in t {
          match t[at + [a[0]]]
          case Symlink(absolute, target) =>
            if links > 0 {
              assert target + (a + b)[1..] == (target + a[1..]) + b;
              WalkConcat(t, if absolute then [] else at, target + a[1..], b, links - 1);
            }
          case _ =>
            WalkConcat(t, at + [a[0]], a[1..], b, links);
        }
      }
    }
  }

  /** A walk ends at a node of the tree, spelled canonically. */
  lemma {:induction false} WalkEndsInTree(t: Tree, at: Path, todo: Path, links: nat)
    requires WellFormed(t) && at in t && Walk(t, at, todo, links).Some?
    ensures Walk(t, at, todo, links).value.at in t
    decreases links, |todo|
  {
    if todo != [] {
      if todo[0] == DOTDOT {
        var up := if at == [] then [] else Parent(at);
        WalkEndsInTree(t, up, todo[1..], links);
      } else {
        match t[at + [todo[0]]]
        case Symlink(absolute, target) =>
          WalkEndsInTree(t, if absolute then [] else at, target + todo[1..], links - 1);
        case _ =>
          WalkEndsInTree(t, at + [todo[0]], todo[1..], links);
      }
    }
  }

  /** Below a resolved directory, a component that is not a link adds itself. */
  lemma CanonicalizeSnoc(t: Tree, p: Path, n: Name)
    requires n != DOTDOT && Canonicalize(t, p).Some?
    requires LStat(t, p + [n]).Some? && !LStat(t, p + [n]).value.Symlink?
    ensures Canonicalize(t, p + [n]) == Some(Canonicalize(t, p).value + [n])
    ensures Canonicalize(t, p).value + [n] in t
    ensures t[Canonicalize(t, p).value + [n]] == LStat(t, p + [n]).value
  {
    assert Parent(p + [n]) == p;
    WalkConcat(t, [], p, [n], MAX_LINKS);
  }

  /** What `symlink_metadata` sees of an entry is what the directory holds. */
  lemma LStatEntry(t: Tree, p: Path, n: Name)
    requires WellFormed(t) && n != DOTDOT
    ensures LStat(t, p + [n]) ==
              match Canonicalize(t, p)
              { case None => None case Some(d) => if d + [n] in t then Some(t[d + [n]]) else None }
  {
    assert Parent(p + [n]) == p;
    if Canonicalize(t, p).Some? {
      var d := Canonicalize(t, p).value;
      WalkEndsInTree(t, [], p, MAX_LINKS);
      assert Parent(d + [n]) == d;
    }
  }

  /** A real directory resolves to a directory. */
  lemma RealDirResolves(t: Tree, p: Path)
    requires WellFormed(t) && RealDir(t, p)
    ensures Canonicalize(t, p).Some? && Canonicalize(t, p).value in t && t[Canonicalize(t, p).value] == Dir
  {
    if p != [] {
      assert p == Parent(p) + [Last(p)];
      WalkConcat(t, [], Parent(p), [Last(p)], MAX_LINKS);
      WalkEndsInTree(t, [], Parent(p), MAX_LINKS);
    }
  }

  // ------------------------------------------------------------- what resolution looks at

  /** The places looked up on a walk. */
  function Visited(t: Tree, at: Path, todo: Path, links: nat): set<Path>
    decreases links, |todo|
  {
    if todo == [] || at !in t || t[at] != Dir then {}
    else if todo[0] == DOTDOT then Visited(t, if at == [] then [] else Parent(at), todo[1..], links)
    else
      var next := at + [todo[0]];
      {next} +
      if next !in t then {}
      else match t[next]
        case Symlink(absolute, target) =>
          if links == 0 then {} else Visited(t, if absolute then [] else at, target + todo[1..], links - 1)
        case _ => Visited(t, next, todo[1..], links)
  }

  /** The places, links among them, that resolving a path looks at. */
  function Way(t: Tree, p: Path): set<Path> {
    Visited(t, [], p, MAX_LINKS)
  }

  lemma {:induction false} VisitedConcat(t: Tree, at: Path, a: Path, b: Path, links: nat)
    ensures Visited(t, at, a + b, links) ==
              Visited(t, at, a, links)
              + match Walk(t, at, a, links) { case None => {} case Some(pl) => Visited(t, pl.at, b, pl.links) }
    decreases links, |a|
  {
    if a == [] {
      assert a + b == b;
    } else {
      assert (a + b)[1..] == a[1..] + b;
      if at in t && t[at] == Dir {
        if a[0] == DOTDOT {
          VisitedConcat(t, if at == [] then [] else Parent(at), a[1..], b, links);
        } else if at + [a[0]] in t {
          match t[at + [a[0]]]
          case Symlink(absolute, target) =>
            if links > 0 {
              assert target + (a + b)[1..] == (target + a[1..]) + b;
              VisitedConcat(t, if absolute then [] else at, target + a[1..], b, links - 1);
            }
          case _ =>
            VisitedConcat(t, at + [a[0]], a[1..], b, links);
        }
      }
    }
  }

  /** Where both trees hold what a walk looks at, they resolve alike. */
  lemma {:induction false} WalkKept(t: Tree, r: Tree, at: Path, todo: Path, links: nat)
    requires WellFormed(t) && WellFormed(r) && at in t && at in r && t[at] == r[at]
    requires Walk(t, at, todo, links).Some?
    requires forall n :: n in Visited(t, at, todo, links) ==> n in r && n in t && r[n] == t[n]
    ensures Walk(r, at, todo, links) == Walk(t, at, todo, links)
    decreases links, |todo|
  {
    if todo != [] {
      if todo[0] == DOTDOT {
        WalkKept(t, r, if at == [] then [] else Parent(at), todo[1..], links);
      } else {
        var next := at + [todo[0]];
        assert next in Visited(t, at, todo, links);
        match t[next]
        case Symlink(absolute, target) =>
          WalkKept(t, r, if absolute then [] else at, target + todo[1..], links - 1);
        case _ =>
          WalkKept(t, r, next, todo[1..], links);
      }
    }
  }

  /** Where the second tree adds nothing a walk of the first looks at, what resolves in the second resolves alike in the
      first, and all that was looked at is in the second. */
  lemma {:induction false} WalkBacked(t: Tree, r: Tree, at: Path, todo: Path, links: nat)
    requires WellFormed(t) && WellFormed(r) && at in t && at in r && t[at] == r[at]
    requires Walk(r, at, todo, links).Some?
    requires forall n :: n in Visited(t, at, todo, links) && n in r ==> n in t && r[n] == t[n]
    ensures Walk(t, at, todo, links) == Walk(r, at, todo, links)
    ensures forall n :: n in Visited(t, at, todo, links) ==> n in r
    decreases links, |todo|
  {
    if todo != [] {
      if todo[0] == DOTDOT {
        WalkBacked(t, r, if at == [] then [] else Parent(at), todo[1..], links);
      } else {
        var next := at + [todo[0]];
        assert next in Visited(t, at, todo, links) && next in r;
        match t[next]
        case Symlink(absolute, target) =>
          WalkBacked(t, r, if absolute then [] else at, target + todo[1..], links - 1);
        case _ =>
          WalkBacked(t, r, next, todo[1..], links);
      }
    }
  }

  /** A walk that looks at nothing in `q` does not end there. */
  lemma {:induction false} WalkStaysOut(t: Tree, q: Path, at: Path, todo: Path, links: nat)
    requires Walk(t, at, todo, links).Some? && !(q <= at)
    requires forall n :: n in Visited(t, at, todo, links) ==> !(q <= n)
    ensures !(q <= Walk(t, at, todo, links).value.at)
    decreases links, |todo|
  {
    if todo != [] {
      if todo[0] == DOTDOT {
        var up := if at == [] then [] else Parent(at);
        assert up <= at;
        assert Visited(t, at, todo, links) == Visited(t, up, todo[1..], links);
        WalkStaysOut(t, q, up, todo[1..], links);
      } else {
        var next := at + [todo[0]];
        assert next in Visited(t, at, todo, links);
        assert [] <= at;
        match t[next]
        case Symlink(absolute, target) =>
          WalkStaysOut(t, q, if absolute then [] else at, target + todo[1..], links - 1);
        case _ =>
          WalkStaysOut(t, q, next, todo[1..], links);
      }
    }
  }

  /** What `symlink_metadata` looks at is looked at by resolving. */
  lemma EntryOnWay(t: Tree, p: Path)
    requires p != [] && Canonicalize(t, Parent(p)).Some?
    ensures Way(t, Parent(p)) <= Way(t, p)
    ensures var c := Canonicalize(t, Parent(p)).value;
            c in t && t[c] == Dir && Last(p) != DOTDOT ==> c + [Last(p)] in Way(t, p)
  {
    assert p == Parent(p) + [Last(p)];
    VisitedConcat(t, [], Parent(p), [Last(p)], MAX_LINKS);
  }

  lemma PrefixWay(t: Tree, p: Path, k: nat)
    requires k <= |p|
    ensures Way(t, p[..k]) <= Way(t, p)
    ensures Canonicalize(t, p).Some? ==> Canonicalize(t, p[..k]).Some?
  {
    assert p == p[..k] + p[k..];
    VisitedConcat(t, [], p[..k], p[k..], MAX_LINKS);
    WalkConcat(t, [], p[..k], p[k..], MAX_LINKS);
  }

  /** A directory spelled by its canonical path resolves to itself, looking only at what lies above it. */
  lemma {:induction false} CanonicalItself(t: Tree, p: Path)
    requires WellFormed(t) && p in t && t[p] == Dir
    ensures Walk(t, [], p, MAX_LINKS) == Some(Place(p, MAX_LINKS))
    ensures forall n :: n in Way(t, p) ==> n <= p && n in t
  {
    if p != [] {
      assert p == Parent(p) + [Last(p)];
      CanonicalItself(t, Parent(p));
      WalkConcat(t, [], Parent(p), [Last(p)], MAX_LINKS);
      VisitedConcat(t, [], Parent(p), [Last(p)], MAX_LINKS);
    }
  }
}

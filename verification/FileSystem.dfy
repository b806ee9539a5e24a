/** The filesystem as a finite map from canonical paths to nodes, and the calls that change it. */
module FileSystem {
  import opened Paths

  /** One tree moved into quarantine, as the run manifest records it. */
  datatype ManifestEntry = ManifestEntry(entry: Name, original: Path, rule: string, tier: nat, bytes: nat)

  /** A line of a file. Manifest lines are kept decoded; `Text` is any line that does not decode, `Unended` one that is
      whole but for its newline, and `Torn` one whose writing stopped before that. */
  datatype Line = Staged(staged: ManifestEntry) | Unended(staged: ManifestEntry) | Text(text: string) | Torn

  datatype Node =
    | Dir
    | File(lines: seq<Line>)
    | Symlink(absolute: bool, target: Path)

  type Tree = map<Path, Node>

  /** Directories hold no `..` among their entries. */
  ghost predicate PlainNames(t: Tree) {
    forall p {:trigger Last(p)} :: p in t && p != [] ==> Last(p) != DOTDOT
  }

  /** Every node but `/` sits in a directory, under a name of its own. */
  ghost predicate WellFormed(t: Tree) {
    && [] in t && t[[]] == Dir && PlainNames(t)
    && forall p {:trigger Parent(p)} :: p in t && p != [] ==> Parent(p) in t && t[Parent(p)] == Dir
  }

  lemma {:induction false} AncestorIsDir(t: Tree, a: Path, p: Path)
    requires WellFormed(t) && p in t && a < p
    ensures a in t && t[a] == Dir
    decreases |p|
  {
    StrictPrefixOfParent(a, p);
    if a != Parent(p) {
      AncestorIsDir(t, a, Parent(p));
    }
  }

  /** The entry of `p` on the way down to `x`. */
  ghost function ChildTowards(t: Tree, p: Path, x: Path): (c: Path)
    requires WellFormed(t) && p < x && x in t
    ensures c in t && c != [] && Parent(c) == p && c <= x
  {
    PrefixSnoc(p, x);
    var c := x[..|p| + 1];
    if c != x then AncestorIsDir(t, c, x); c else c
  }

  lemma NothingBelow(t: Tree, p: Path)
    requires WellFormed(t) && p !in t
    ensures forall x :: x in t ==> !(p <= x)
  {
    forall x | x in t && p <= x ensures false {
      assert x != p;
      AncestorIsDir(t, p, x);
    }
  }

  predicate Childless(t: Tree, p: Path) {
    forall x :: x in t ==> !(p < x)
  }

  lemma ChildlessByChildren(t: Tree, p: Path)
    requires WellFormed(t)
    requires forall x :: x in t && x != [] ==> Parent(x) != p
    ensures Childless(t, p)
  {
    forall x | x in t && p < x ensures false {
      var c := ChildTowards(t, p, x);
    }
  }

  /** `t` with the tree at `a` renamed to `b`, which lies elsewhere. */
  function Moved(t: Tree, a: Path, b: Path): (r: Tree)
    requires !(a <= b)
    ensures forall p :: p in r <==> if b <= p then a + p[|b|..] in t else p in t && !(a <= p)
    ensures forall p :: p in r ==> r[p] == if b <= p then t[a + p[|b|..]] else t[p]
  {
    var stay := set p | p in t && !(a <= p) && !(b <= p);
    var land := set x | x in t && a <= x :: b + x[|a|..];
    assert forall x | a <= x :: a + (b + x[|a|..])[|b|..] == x;
    assert forall p | b <= p && a + p[|b|..] in t :: p in land by {
      forall p | b <= p && a + p[|b|..] in t ensures p in land {
        var x := a + p[|b|..];
        assert a <= x && b + x[|a|..] == p;
      }
    }
    map p | p in stay + land :: if b <= p then t[a + p[|b|..]] else t[p]
  }

  // ------------------------------------------------------------- calls

  /** A system call that changes the tree. */
  datatype Call =
    | MkDir(path: Path)
    | RmDir(path: Path)
    | Unlink(path: Path)
    | Rename(path: Path, to: Path)
    | Write(path: Path, lines: seq<Line>)

  /** When the kernel can carry a call out. A fault may still make it fail. */
  predicate Permits(t: Tree, c: Call) {
    c.path != [] &&
    match c
    case MkDir(p) => p !in t && InDir(t, p) && Last(p) != DOTDOT
    case RmDir(p) => p in t && t[p] == Dir && Childless(t, p)
    case Unlink(p) => p in t && t[p] != Dir
    case Rename(a, b) =>
      && a in t && !(a <= b) && b != [] && InDir(t, b) && Last(b) != DOTDOT
      && (b in t ==> if t[a] == Dir then t[b] == Dir && Childless(t, b) else t[b] != Dir)
    case Write(p, _) => InDir(t, p) && Last(p) != DOTDOT && (p in t ==> t[p].File?)
  }

  predicate InDir(t: Tree, p: Path)
    requires p != []
  {
    Parent(p) in t && t[Parent(p)] == Dir
  }

  function Do(t: Tree, c: Call): Tree
    requires Permits(t, c)
  {
    match c
    case MkDir(p) => t[p := Dir]
    case RmDir(p) => t - {p}
    case Unlink(p) => t - {p}
    case Rename(a, b) => Moved(t, a, b)
    case Write(p, lines) => t[p := File(lines)]
  }

  /** What is renamed over is of the same kind, and holds nothing. */
  lemma ReplacesLike(t: Tree, a: Path, b: Path)
    requires WellFormed(t) && Permits(t, Rename(a, b)) && b in t
    ensures (t[a] == Dir <==> t[b] == Dir) && forall x :: x in t && b <= x ==> x == b
  {
    forall x | x in t && b < x ensures false { AncestorIsDir(t, b, x); }
  }

  /** A node stays, or went to `rmdir` as an empty directory, to `unlink` as anything else, or to `rename` with the tree
      it is in. */
  lemma StaysOrGoes(t: Tree, c: Call, p: Path)
    requires WellFormed(t) && Permits(t, c) && p in t
    ensures || p in Do(t, c)
            || (c == RmDir(p) && t[p] == Dir && forall x :: x in t ==> !(p < x))
            || (c == Unlink(p) && t[p] != Dir)
            || (c.Rename? && c.path <= p)
  {
    if c.Rename? && c.to <= p {
      if c.to != p { AncestorIsDir(t, c.to, p); }
      ReplacesLike(t, c.path, c.to);
      assert c.path + p[|c.to|..] == c.path;
    }
  }

  lemma DoKeepsPlainNames(t: Tree, c: Call)
    requires PlainNames(t) && Permits(t, c)
    ensures PlainNames(Do(t, c))
  {
    var r := Do(t, c);
    forall p | p in r && p != [] ensures Last(p) != DOTDOT {
      if c.Rename? && c.to < p {
        var x := c.path + p[|c.to|..];
        assert x in t && Last(x) == Last(p);
      }
    }
  }

  lemma DoKeepsWellFormed(t: Tree, c: Call)
    requires WellFormed(t) && Permits(t, c)
    ensures WellFormed(Do(t, c))
  {
    var r := Do(t, c);
    DoKeepsPlainNames(t, c);
    forall p | p in r && p != [] ensures Parent(p) in r && r[Parent(p)] == Dir {
      match c
      case RmDir(d) =>
        assert Parent(p) < p;
      case Unlink(d) =>
      case Rename(a, b) =>
        if b < p {
          StrictPrefixOfParent(b, p);
          var x := a + p[|b|..];
          assert Parent(x) == a + Parent(p)[|b|..];
        } else if p == b {
          assert p[|b|..] == [];
        } else {
          assert !(a <= Parent(p)) && !(b <= Parent(p));
        }
      case _ =>
    }
  }

  // ------------------------------------------------------------- logs

  /** One attempted call and whether it took effect. */
  datatype Event = Event(call: Call, ok: bool)

  function Apply(t: Tree, e: Event): Tree {
    if e.ok && Permits(t, e.call) then Do(t, e.call) else t
  }

  /** The tree after a log of attempts. A crash leaves the tree of some prefix. */
  function Replay(t: Tree, log: seq<Event>): Tree {
    if log == [] then t else Apply(Replay(t, log[..|log| - 1]), log[|log| - 1])
  }

  lemma ReplaySnoc(t: Tree, log: seq<Event>, e: Event)
    ensures Replay(t, log + [e]) == Apply(Replay(t, log), e)
  {
  }

  lemma {:induction false} ReplayConcat(t: Tree, a: seq<Event>, b: seq<Event>)
    ensures Replay(t, a + b) == Replay(Replay(t, a), b)
    decreases |b|
  {
    if b == [] {
      assert a + b == a;
    } else {
      var b' := b[..|b| - 1];
      ReplayConcat(t, a, b');
      assert (a + b)[..|a + b| - 1] == a + b';
    }
  }

  lemma {:induction false} ReplayKeepsWellFormed(t: Tree, log: seq<Event>)
    requires WellFormed(t)
    ensures WellFormed(Replay(t, log))
    decreases |log|
  {
    if log != [] {
      var before := Replay(t, log[..|log| - 1]);
      var e := log[|log| - 1];
      ReplayKeepsWellFormed(t, log[..|log| - 1]);
      if e.ok && Permits(before, e.call) {
        DoKeepsWellFormed(before, e.call);
      }
    }
  }

  /** What was logged since the log was `before`. */
  ghost function Since(before: seq<Event>, after: seq<Event>): seq<Event>
    requires before <= after
  {
    after[|before|..]
  }

  lemma SinceConcat(before: seq<Event>, more: seq<Event>)
    ensures Since(before, before + more) == more
  {
  }

  /** Successes are recorded only where the kernel allows them. */
  ghost predicate Honest(t: Tree, log: seq<Event>) {
    forall k {:trigger log[k]} :: 0 <= k < |log| && log[k].ok ==> Permits(Replay(t, log[..k]), log[k].call)
  }

  lemma HonestSnoc(t: Tree, log: seq<Event>, e: Event)
    requires Honest(t, log) && (e.ok ==> Permits(Replay(t, log), e.call))
    ensures Honest(t, log + [e])
  {
    var r := log + [e];
    forall k | 0 <= k < |r| && r[k].ok ensures Permits(Replay(t, r[..k]), r[k].call) {
      assert r[..k] == log[..k];
      if k < |log| { assert r[k] == log[k]; } else { assert log[..k] == log; }
    }
  }
}

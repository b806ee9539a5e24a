/** What a run may attempt, and why no crash can leave a half-removed tree outside quarantine. */
module CrashSafety {
  import opened Paths
  import opened FileSystem

  const MANIFEST: Name := "manifest.jsonl"
  const TEST_PREFIX: Name := ".reap-rename-test-"
  const STAGED_PREFIX: Name := "staged-"

  function ManifestPath(q: Path): Path {
    q + [MANIFEST]
  }

  /** The quarantine directory and the canonical roots of the runs considered. */
  datatype Setup = Setup(q: Path, roots: set<Path>)

  /** Quarantine is disjoint from every root, as `recover` assumes. */
  ghost predicate ValidSetup(s: Setup) {
    s.q != [] && forall r :: r in s.roots ==> Apart(r, s.q)
  }

  ghost predicate InRoot(s: Setup, p: Path) {
    exists r :: r in s.roots && r < p
  }

  /** A directory `test_rename` makes directly under a root. */
  ghost predicate IsScratch(s: Setup, p: Path) {
    p != [] && Parent(p) in s.roots && ".reap-rename-test-" <= Last(p)
  }

  ghost predicate MadeBy(log: seq<Event>, p: Path) {
    Event(MkDir(p), true) in log
  }

  /** The changes an armed run may attempt, after it attempted `before`. */
  ghost predicate Attempts(s: Setup, before: seq<Event>, c: Call) {
    match c
    case MkDir(p) => p <= s.q || IsScratch(s, p)
    case RmDir(p) => (s.q < p && p != ManifestPath(s.q)) || (IsScratch(s, p) && MadeBy(before, p))
    case Unlink(p) => s.q < p && p != ManifestPath(s.q)
    case Write(p, _) => p == ManifestPath(s.q)
    case Rename(a, b) =>
      && s.q < b && |b| == |s.q| + 1 && b != ManifestPath(s.q) && InRoot(s, a)
      && (IsStaging(c) || (IsScratch(s, a) && MadeBy(before, a)))
  }

  /** A log a run can produce from the tree `t0`: only such attempts, and successes only where the kernel allows. */
  ghost predicate LawfulLog(s: Setup, t0: Tree, log: seq<Event>) {
    forall k {:trigger log[k]} :: 0 <= k < |log| ==> LawfulEvent(s, t0, log[..k], log[k])
  }

  ghost predicate LawfulEvent(s: Setup, t0: Tree, before: seq<Event>, e: Event) {
    Attempts(s, before, e.call) && (e.ok ==> Permits(Replay(t0, before), e.call))
  }

  /** A rename of a candidate, not of a scratch directory. */
  predicate IsStaging(c: Call) {
    c.Rename? && c.to != [] && "staged-" <= Last(c.to)
  }

  /** The event moved a tree holding `p` into quarantine. */
  predicate Takes(e: Event, p: Path) {
    e.ok && IsStaging(e.call) && e.call.path <= p
  }

  /** The candidates a log tried to stage, in order, and whether each rename took effect. */
  function StagingAttempts(log: seq<Event>): seq<(Path, bool)> {
    if log == [] then []
    else
      var e := log[|log| - 1];
      StagingAttempts(log[..|log| - 1]) + if IsStaging(e.call) then [(e.call.path, e.ok)] else []
  }

  lemma {:induction false} StagingConcat(a: seq<Event>, b: seq<Event>)
    ensures StagingAttempts(a + b) == StagingAttempts(a) + StagingAttempts(b)
    decreases |b|
  {
    if b == [] {
      assert a + b == a;
    } else {
      assert (a + b)[..|a + b| - 1] == a + b[..|b| - 1];
      StagingConcat(a, b[..|b| - 1]);
    }
  }

  lemma {:induction false} NoStaging(log: seq<Event>)
    requires forall i :: 0 <= i < |log| ==> !log[i].call.Rename?
    ensures StagingAttempts(log) == []
    decreases |log|
  {
    if log != [] {
      NoStaging(log[..|log| - 1]);
    }
  }

  /** `p` was there at the start and lies in no tree staged since. */
  ghost predicate Kept(t0: Tree, log: seq<Event>, p: Path) {
    p in t0 && forall e :: e in log ==> !Takes(e, p)
  }

  /** Outside quarantine there is exactly what was there at the start, less whole staged trees, plus directories the
      runs made themselves. */
  ghost predicate WholeTreesOnly(s: Setup, t0: Tree, t: Tree, log: seq<Event>) {
    && (forall p :: Kept(t0, log, p) && !(s.q <= p) ==> p in t && t[p] == t0[p])
    && (forall p :: p in t && !(s.q <= p) && !Kept(t0, log, p) ==> t[p] == Dir && MadeBy(log, p))
    && (forall p :: MadeBy(log, p) && !(s.q <= p) ==> !Kept(t0, log, p))
  }

  // ------------------------------------------------------------- logs of several runs

  lemma LawfulPrefix(s: Setup, t0: Tree, log: seq<Event>, k: nat)
    requires LawfulLog(s, t0, log) && k <= |log|
    ensures LawfulLog(s, t0, log[..k])
  {
    forall i | 0 <= i < k ensures LawfulEvent(s, t0, log[..k][..i], log[..k][i]) {
      assert log[..k][..i] == log[..i] && log[..k][i] == log[i];
    }
  }

  lemma LawfulConcat(s: Setup, t0: Tree, a: seq<Event>, b: seq<Event>)
    requires LawfulLog(s, t0, a) && LawfulLog(s, Replay(t0, a), b)
    ensures LawfulLog(s, t0, a + b)
  {
    forall k | 0 <= k < |a + b| ensures LawfulEvent(s, t0, (a + b)[..k], (a + b)[k]) {
      if k < |a| {
        assert (a + b)[..k] == a[..k];
      } else {
        var i := k - |a|;
        assert (a + b)[..k] == a + b[..i] && (a + b)[k] == b[i];
        ReplayConcat(t0, a, b[..i]);
        assert LawfulEvent(s, Replay(t0, a), b[..i], b[i]);
      }
    }
  }

  /** One armed run: the log it would produce left alone, and where it was cut off. */
  datatype Run = Run(log: seq<Event>, cut: nat)

  ghost function History(runs: seq<Run>): seq<Event> {
    if runs == [] then []
    else
      var run := runs[|runs| - 1];
      History(runs[..|runs| - 1]) + run.log[..if run.cut <= |run.log| then run.cut else |run.log|]
  }

  /** Each run starts from the tree the one before it left when it ended or was cut off. */
  ghost predicate Session(s: Setup, t0: Tree, runs: seq<Run>) {
    runs == []
    || (var earlier := runs[..|runs| - 1];
        Session(s, t0, earlier) && LawfulLog(s, Replay(t0, History(earlier)), runs[|runs| - 1].log))
  }

  lemma {:induction false} SessionLawful(s: Setup, t0: Tree, runs: seq<Run>)
    requires Session(s, t0, runs)
    ensures LawfulLog(s, t0, History(runs))
    decreases |runs|
  {
    if runs != [] {
      var earlier, run := runs[..|runs| - 1], runs[|runs| - 1];
      SessionLawful(s, t0, earlier);
      var k := if run.cut <= |run.log| then run.cut else |run.log|;
      LawfulPrefix(s, Replay(t0, History(earlier)), run.log, k);
      LawfulConcat(s, t0, History(earlier), run.log[..k]);
    }
  }

  /** The disk went from `t0` to `t` as a run of this setup may change it, and logged that. */
  ghost predicate Ran(s: Setup, t0: Tree, log0: seq<Event>, t: Tree, log: seq<Event>) {
    && log0 <= log
    && LawfulLog(s, t0, Since(log0, log))
    && t == Replay(t0, Since(log0, log))
  }

  lemma RanNothing(s: Setup, t: Tree, log: seq<Event>)
    ensures Ran(s, t, log, t, log) && StagingAttempts(Since(log, log)) == []
  {
  }

  lemma RanTransitive(s: Setup, t0: Tree, log0: seq<Event>, t1: Tree, log1: seq<Event>, t2: Tree, log2: seq<Event>)
    requires Ran(s, t0, log0, t1, log1) && Ran(s, t1, log1, t2, log2)
    ensures Ran(s, t0, log0, t2, log2)
    ensures Since(log0, log2) == Since(log0, log1) + Since(log1, log2)
  {
    assert Since(log0, log2) == Since(log0, log1) + Since(log1, log2);
    LawfulConcat(s, t0, Since(log0, log1), Since(log1, log2));
    ReplayConcat(t0, Since(log0, log1), Since(log1, log2));
  }

  lemma RanSnoc(s: Setup, t0: Tree, log0: seq<Event>, t: Tree, log: seq<Event>, e: Event)
    requires Ran(s, t0, log0, t, log)
    requires Attempts(s, Since(log0, log), e.call) && (e.ok ==> Permits(t, e.call))
    ensures Ran(s, t0, log0, Apply(t, e), log + [e])
    ensures Since(log0, log + [e]) == Since(log0, log) + [e]
    ensures StagingAttempts(Since(log0, log + [e])) ==
              StagingAttempts(Since(log0, log)) + if IsStaging(e.call) then [(e.call.path, e.ok)] else []
  {
    var d := Since(log0, log);
    assert Since(log0, log + [e]) == d + [e];
    assert (d + [e])[..|d|] == d;
    ReplaySnoc(t0, d, e);
    forall k | 0 <= k < |d + [e]| ensures LawfulEvent(s, t0, (d + [e])[..k], (d + [e])[k]) {
      assert (d + [e])[..k] == d[..k];
      if k == |d| { assert d[..k] == d; }
    }
  }

  /** Attempts that make no directory and rename nothing: a recovery's, a drain's and the manifest's. */
  ghost predicate Quiet(log: seq<Event>) {
    forall e :: e in log ==> !e.call.MkDir? && !e.call.Rename?
  }

  /** The disk went from `t0` to `t` by such attempts alone. */
  ghost predicate RanQuietly(s: Setup, t0: Tree, log0: seq<Event>, t: Tree, log: seq<Event>) {
    Ran(s, t0, log0, t, log) && Quiet(Since(log0, log))
  }

  lemma QuietNothing(s: Setup, t: Tree, log: seq<Event>)
    ensures RanQuietly(s, t, log, t, log)
  {
    RanNothing(s, t, log);
  }

  lemma QuietSnoc(s: Setup, t0: Tree, log0: seq<Event>, t: Tree, log: seq<Event>, e: Event)
    requires RanQuietly(s, t0, log0, t, log) && !e.call.MkDir? && !e.call.Rename?
    requires Attempts(s, Since(log0, log), e.call) && (e.ok ==> Permits(t, e.call))
    ensures RanQuietly(s, t0, log0, Apply(t, e), log + [e])
  {
    hide LawfulLog, Attempts, Permits;
    RanSnoc(s, t0, log0, t, log, e);
  }

  lemma QuietTransitive(s: Setup, t0: Tree, log0: seq<Event>, t1: Tree, log1: seq<Event>, t2: Tree, log2: seq<Event>)
    requires RanQuietly(s, t0, log0, t1, log1) && RanQuietly(s, t1, log1, t2, log2)
    ensures RanQuietly(s, t0, log0, t2, log2)
  {
    hide LawfulLog, Replay;
    RanTransitive(s, t0, log0, t1, log1, t2, log2);
  }

  lemma QuietMeans(s: Setup, t0: Tree, log0: seq<Event>, t: Tree, log: seq<Event>)
    requires RanQuietly(s, t0, log0, t, log)
    ensures Ran(s, t0, log0, t, log) && StagingAttempts(Since(log0, log)) == []
    ensures log0 <= log && NothingMade(Since(log0, log)) && Quiet(Since(log0, log))
  {
    hide LawfulLog, Replay;
    NoStaging(Since(log0, log));
  }

  /** Attempts that need nothing before them are lawful one by one. */
  lemma RanHonest(s: Setup, t0: Tree, log: seq<Event>)
    requires Honest(t0, log)
    requires forall k :: 0 <= k < |log| ==> Attempts(s, [], log[k].call)
    ensures LawfulLog(s, t0, log)
  {
  }

  // ------------------------------------------------------------- the invariant

  /** What lies in a root lies outside quarantine, with everything above and below it. */
  lemma RootsApart(s: Setup, a: Path, p: Path)
    requires ValidSetup(s) && InRoot(s, a) && a <= p
    ensures !(s.q <= p) && !(p <= s.q)
  {
  }

  lemma ScratchInRoot(s: Setup, p: Path)
    requires IsScratch(s, p)
    ensures InRoot(s, p)
  {
  }

  lemma KeptSnoc(t0: Tree, log: seq<Event>, e: Event, p: Path)
    ensures Kept(t0, log + [e], p) <==> Kept(t0, log, p) && !Takes(e, p)
  {
  }

  lemma KeptUpward(t0: Tree, log: seq<Event>, a: Path, p: Path)
    requires WellFormed(t0) && Kept(t0, log, p) && a <= p
    ensures Kept(t0, log, a)
  {
    if a != p { AncestorIsDir(t0, a, p); }
  }

  lemma MadeBySnoc(log: seq<Event>, e: Event, p: Path)
    ensures MadeBy(log + [e], p) <==> MadeBy(log, p) || e == Event(MkDir(p), true)
  {
  }

  /** A call that changes nothing outside quarantine but what it says. */
  lemma StepKeeps(s: Setup, t0: Tree, t: Tree, log: seq<Event>, e: Event)
    requires ValidSetup(s) && WellFormed(t0) && WellFormed(t)
    requires WholeTreesOnly(s, t0, t, log) && Attempts(s, log, e.call)
    requires e.ok && Permits(t, e.call)
    ensures WholeTreesOnly(s, t0, Do(t, e.call), log + [e])
  {
    hide WholeTreesOnly, Attempts, Permits, Do, MadeBy, Kept, ValidSetup, WellFormed;
    forall p ensures Kept(t0, log + [e], p) <==> Kept(t0, log, p) && !Takes(e, p) { KeptSnoc(t0, log, e, p); }
    forall p ensures MadeBy(log + [e], p) <==> MadeBy(log, p) || e == Event(MkDir(p), true) { MadeBySnoc(log, e, p); }
    if e.call.Rename? {
      MovesKeep(s, t0, t, log, e);
    } else {
      OthersKeep(s, t0, t, log, e);
    }
  }

  lemma MovesKeep(s: Setup, t0: Tree, t: Tree, log: seq<Event>, e: Event)
    requires ValidSetup(s) && WellFormed(t0) && WellFormed(t)
    requires WholeTreesOnly(s, t0, t, log) && Attempts(s, log, e.call)
    requires e.ok && Permits(t, e.call) && e.call.Rename?
    requires forall p :: Kept(t0, log + [e], p) <==> Kept(t0, log, p) && !Takes(e, p)
    requires forall p :: MadeBy(log + [e], p) <==> MadeBy(log, p)
    ensures WholeTreesOnly(s, t0, Do(t, e.call), log + [e])
  {
    hide MadeBy, Kept, ValidSetup, WellFormed, IsScratch, InRoot;
    RenameKeeps(s, t0, t, log, e);
  }

  lemma OthersKeep(s: Setup, t0: Tree, t: Tree, log: seq<Event>, e: Event)
    requires WholeTreesOnly(s, t0, t, log) && Attempts(s, log, e.call)
    requires e.ok && Permits(t, e.call) && !e.call.Rename?
    requires forall p :: Kept(t0, log + [e], p) <==> Kept(t0, log, p)
    requires forall p :: MadeBy(log + [e], p) <==> MadeBy(log, p) || e == Event(MkDir(p), true)
    ensures WholeTreesOnly(s, t0, Do(t, e.call), log + [e])
  {
    assert s.q < ManifestPath(s.q);
    hide ManifestPath, MadeBy, IsScratch;
    var d := e.call.path;
    assert forall p :: Kept(t0, log, p) ==> p in t0;
    hide Kept;
    assert e.call.MkDir? ==> forall p :: Kept(t0, log, p) && !(s.q <= p) ==> p != d;
    assert forall p :: p != d ==> (p in Do(t, e.call) <==> p in t) && (p in t ==> Do(t, e.call)[p] == t[p]);
  }

  lemma RenameKeeps(s: Setup, t0: Tree, t: Tree, log: seq<Event>, e: Event)
    requires ValidSetup(s) && WellFormed(t0) && WellFormed(t)
    requires WholeTreesOnly(s, t0, t, log) && Attempts(s, log, e.call)
    requires e.ok && Permits(t, e.call) && e.call.Rename?
    ensures forall p :: !(s.q <= p) ==> (p in Do(t, e.call) <==> p in t && !(e.call.path <= p))
    ensures forall p :: !(s.q <= p) && p in t && e.call.path <= p && Kept(t0, log, p) ==> Takes(e, p)
  {
    var a, b := e.call.path, e.call.to;
    forall p | !(s.q <= p) ensures p in Do(t, e.call) <==> p in t && !(a <= p) {
      assert b <= p ==> s.q <= p;
    }
    forall p | !(s.q <= p) && p in t && a <= p && Kept(t0, log, p) ensures Takes(e, p) {
      if !Takes(e, p) {
        KeptUpward(t0, log, a, p);
        RootsApart(s, a, a);
        assert false;
      }
    }
  }

  // ------------------------------------------------------------- main results

  lemma NothingTaken(s: Setup, t0: Tree)
    ensures WholeTreesOnly(s, t0, t0, [])
  {
  }

  lemma {:induction false} LogKeeps(s: Setup, t0: Tree, log: seq<Event>)
    requires ValidSetup(s) && WellFormed(t0) && LawfulLog(s, t0, log)
    ensures WholeTreesOnly(s, t0, Replay(t0, log), log)
    decreases |log|
  {
    if log == [] { NothingTaken(s, t0); }
    hide WholeTreesOnly, WellFormed, Attempts;
    if log != [] {
      var n := |log| - 1;
      var before, e := log[..n], log[n];
      LawfulPrefix(s, t0, log, n);
      LogKeeps(s, t0, before);
      ReplayKeepsWellFormed(t0, before);
      assert log == before + [e];
      var t := Replay(t0, before);
      assert LawfulEvent(s, t0, log[..n], log[n]);
      if e.ok {
        StepKeeps(s, t0, t, before, e);
      } else {
        IdleStepKeeps(s, t0, t, before, e);
      }
    }
  }

  /** Any sequence of runs, each ended or cut off anywhere, under any failures. */
  lemma AnySessionLeavesWholeTrees(s: Setup, t0: Tree, runs: seq<Run>)
    requires ValidSetup(s) && WellFormed(t0) && Session(s, t0, runs)
    ensures WholeTreesOnly(s, t0, Replay(t0, History(runs)), History(runs))
  {
    SessionLawful(s, t0, runs);
    LogKeeps(s, t0, History(runs));
  }

  /** A missing node went with a whole tree: nothing that stood in that tree is left where it stood. */
  lemma NeverHalfRemoved(s: Setup, t0: Tree, log: seq<Event>, x: Path)
    requires ValidSetup(s) && WellFormed(t0) && LawfulLog(s, t0, log)
    requires x in t0 && !(s.q <= x) && x !in Replay(t0, log)
    ensures exists e :: e in log && Takes(e, x)
              && forall y :: e.call.path <= y && y in Replay(t0, log) && !(s.q <= y) ==> MadeBy(log, y)
  {
    LogKeeps(s, t0, log);
    assert !Kept(t0, log, x);
    var e :| e in log && Takes(e, x);
    forall y | e.call.path <= y && y in Replay(t0, log) && !(s.q <= y) ensures MadeBy(log, y) {
      assert Takes(e, y);
    }
  }

  /** What the runs add outside quarantine: directories above it, and rename-test directories directly under a root,
      which are empty unless someone declared one of them a root. */
  lemma OnlyScratchAdded(s: Setup, t0: Tree, log: seq<Event>, p: Path)
    requires ValidSetup(s) && WellFormed(t0) && LawfulLog(s, t0, log)
    requires p in Replay(t0, log) && !(s.q <= p) && !Kept(t0, log, p)
    ensures Replay(t0, log)[p] == Dir
    ensures p <= s.q || (IsScratch(s, p) && (p !in s.roots ==> Childless(Replay(t0, log), p)))
  {
    var t := Replay(t0, log);
    LogKeeps(s, t0, log);
    ReplayKeepsWellFormed(t0, log);
    MadeWhere(s, t0, log, p);
    if !(p <= s.q) && p !in s.roots {
      ScratchInRoot(s, p);
      forall c | c in t && c != [] ensures Parent(c) != p {
        if Parent(c) == p {
          RootsApart(s, p, c);
          if Kept(t0, log, c) { KeptUpward(t0, log, p, c); } else { MadeWhere(s, t0, log, c); }
          assert false;
        }
      }
      ChildlessByChildren(t, p);
    }
  }

  lemma MadeWhere(s: Setup, t0: Tree, log: seq<Event>, p: Path)
    requires LawfulLog(s, t0, log) && MadeBy(log, p)
    ensures p <= s.q || IsScratch(s, p)
  {
  }

  lemma IdleStepKeeps(s: Setup, t0: Tree, t: Tree, log: seq<Event>, e: Event)
    requires WholeTreesOnly(s, t0, t, log) && !e.ok
    ensures WholeTreesOnly(s, t0, t, log + [e])
  {
  }

  // ------------------------------------------------------------- recovery

  /** The entries of quarantine a recovery would find. */
  ghost function Leftovers(q: Path, t: Tree): set<Path> {
    set p | p in t && p != [] && Parent(p) == q && p != ManifestPath(q)
  }

  ghost predicate SameOutside(q: Path, t: Tree, r: Tree) {
    forall p :: !(q < p) ==> (p in t <==> p in r) && (p in t ==> t[p] == r[p])
  }

  /** Quarantine holds nothing but its manifest. */
  ghost predicate Cleared(q: Path, t: Tree) {
    forall p :: p in t && q < p ==> p == ManifestPath(q)
  }

  /** Equal but for what the manifest says. */
  ghost predicate SameButManifest(q: Path, t: Tree, r: Tree) {
    forall p :: p != ManifestPath(q) ==> (p in t <==> p in r) && (p in t ==> t[p] == r[p])
  }

  /** What a recovery without faults leaves of `t`. */
  ghost predicate Recovered(q: Path, t: Tree, r: Tree) {
    SameOutside(q, t, r) && Cleared(q, r)
  }

  /** From the first staging to the end of the drain no directory is made. */
  ghost predicate NothingMade(log: seq<Event>) {
    forall e :: e in log ==> !e.call.MkDir?
  }

  /** Quarantine is there, with its manifest. */
  ghost predicate Ready(q: Path, t: Tree) {
    && WellFormed(t) && q != [] && q in t && t[q] == Dir
    && ManifestPath(q) in t && t[ManifestPath(q)].File?
  }

  /** No attempt of a run takes quarantine or its manifest away. */
  lemma {:induction false} ReadyStays(s: Setup, t0: Tree, log: seq<Event>)
    requires ValidSetup(s) && Ready(s.q, t0) && LawfulLog(s, t0, log)
    ensures Ready(s.q, Replay(t0, log))
    decreases |log|
  {
    hide LawfulLog, Ready, Attempts;
    if log != [] {
      var n := |log| - 1;
      LawfulPrefix(s, t0, log, n);
      ReadyStays(s, t0, log[..n]);
      LastLawful(s, t0, log);
      if log[n].ok {
        ReadyStep(s, log[..n], Replay(t0, log[..n]), log[n].call);
      }
    }
  }

  lemma LastLawful(s: Setup, t0: Tree, log: seq<Event>)
    requires LawfulLog(s, t0, log) && log != []
    ensures LawfulEvent(s, t0, log[..|log| - 1], log[|log| - 1])
  {
  }

  lemma ReadyStep(s: Setup, before: seq<Event>, t: Tree, c: Call)
    requires ValidSetup(s) && Ready(s.q, t) && Attempts(s, before, c) && Permits(t, c)
    ensures Ready(s.q, Do(t, c))
  {
    DoKeepsWellFormed(t, c);
    assert s.q < ManifestPath(s.q);
    if IsScratch(s, c.path) { ScratchInRoot(s, c.path); }
    if InRoot(s, c.path) {
      RootsApart(s, c.path, c.path);
      if c.path <= ManifestPath(s.q) { PrefixesCompare(c.path, s.q, ManifestPath(s.q)); }
    }
  }

  /** The log of a staging loop and the drain after it, split at `m`, that ended with quarantine cleared. */
  ghost predicate StagedAndDrained(s: Setup, t0: Tree, log: seq<Event>, m: nat) {
    && m <= |log| && Ready(s.q, t0) && LawfulLog(s, t0, log)
    && NothingMade(log) && Quiet(log[m..]) && Cleared(s.q, Replay(t0, log))
  }

  /** Kill the run anywhere between its first staging (at `t0`) and the end of its drain and recover: outside
      quarantine there is exactly what was there, less the trees staged by then, and quarantine is empty. */
  lemma RecoverFromAnyPoint(s: Setup, t0: Tree, log: seq<Event>, k: nat, r: Tree)
    requires ValidSetup(s) && Ready(s.q, t0)
    requires LawfulLog(s, t0, log) && NothingMade(log) && k <= |log|
    requires Recovered(s.q, Replay(t0, log[..k]), r)
    ensures forall p :: p != ManifestPath(s.q) ==> (p in r <==> p == s.q || (!(s.q <= p) && Kept(t0, log[..k], p)))
    ensures forall p :: p in r && p != ManifestPath(s.q) ==> p in t0 && r[p] == t0[p]
  {
    LawfulPrefix(s, t0, log, k);
    LogKeeps(s, t0, log[..k]);
    ReadyStays(s, t0, log[..k]);
    assert forall p :: !MadeBy(log[..k], p);
  }

  /** Once the last tree of the run is staged, dying and recovering ends where the uninterrupted run ends. */
  lemma RecoveryFinishesTheRun(s: Setup, t0: Tree, log: seq<Event>, m: nat, k: nat, r: Tree)
    requires ValidSetup(s) && StagedAndDrained(s, t0, log, m) && m <= k <= |log|
    requires Recovered(s.q, Replay(t0, log[..k]), r)
    ensures SameButManifest(s.q, r, Replay(t0, log))
  {
    var final := Replay(t0, log);
    assert log[..|log|] == log == log[..k] + log[k..];
    assert forall e :: e in log[k..] ==> e in log[m..] by { assert log[k..] == log[m..][k - m..]; }
    assert Recovered(s.q, final, final);
    RecoverFromAnyPoint(s, t0, log, k, r);
    RecoverFromAnyPoint(s, t0, log, |log|, final);
    forall p ensures Kept(t0, log, p) <==> Kept(t0, log[..k], p) {
      forall e | e in log ensures e in log[..k] || !Takes(e, p) {}
      assert forall e :: e in log[..k] ==> e in log;
    }
  }

  /** What a killed run leaves once the next one has recovered: the trees staged by then are gone and nothing else;
      and after the last staging, what the run would have left had it not been killed. */
  ghost predicate PickedUp(s: Setup, t0: Tree, log: seq<Event>, m: nat, k: nat, r: Tree)
    requires m <= |log| && k <= |log|
  {
    && Cleared(s.q, r)
    && (forall p :: p != ManifestPath(s.q) ==> (p in r <==> p == s.q || (!(s.q <= p) && Kept(t0, log[..k], p))))
    && (forall p :: p in r && p != ManifestPath(s.q) ==> p in t0 && r[p] == t0[p])
    && (m <= k ==> SameButManifest(s.q, r, Replay(t0, log)))
  }

  lemma KilledAnywhere(s: Setup, t0: Tree, log: seq<Event>, m: nat, k: nat, r: Tree)
    requires ValidSetup(s) && StagedAndDrained(s, t0, log, m) && k <= |log|
    requires Recovered(s.q, Replay(t0, log[..k]), r)
    ensures PickedUp(s, t0, log, m, k, r)
  {
    hide LawfulLog, NothingMade, Kept, Replay, ValidSetup, SameButManifest;
    RecoverFromAnyPoint(s, t0, log, k, r);
    if m <= k { RecoveryFinishesTheRun(s, t0, log, m, k, r); }
  }
}

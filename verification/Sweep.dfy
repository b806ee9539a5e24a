/** The sweep: plan, judge, and, given both opt-ins, stage and remove. */
module Sweeps {
  import opened Paths
  import opened FileSystem
  import opened Options
  import opened Disks
  import opened CrashSafety
  import opened Executors
  import opened Worlds
  import Guards
  import Manifests
  import Numerals
  import Plans
  import Quarantine
  import Removal
  import Rules

  // ------------------------------------------------------------- what may be swept

  datatype Judged = Judged(candidate: Candidate, decision: Guards.Decision)

  predicate Picked(j: Judged) {
    j.decision.selected
  }

  /** Whatever the guards selected has a canonical path below a canonical root. */
  ghost predicate Sweepable(s: Setup, judged: seq<Judged>) {
    forall i :: 0 <= i < |judged| && Picked(judged[i]) ==>
      judged[i].decision.canonical.Some? && InRoot(s, judged[i].decision.canonical.value)
  }

  /** `judged` are the candidates of the plan in order, each selected exactly if every guard lets it pass. */
  ghost predicate JudgedFor(w: World, cfg: Rules.Config, os: string, maxTier: nat, ctx: Guards.GuardContext,
                            plan: Plans.Plan, judged: seq<Judged>) {
    && Plans.PlannedFor(w, cfg, os, maxTier, cfg.roots, plan.candidates)
    && |judged| == |plan.candidates|
    && (forall i :: 0 <= i < |judged| ==> judged[i].candidate == plan.candidates[i])
    && (forall i :: 0 <= i < |judged| ==> (Picked(judged[i]) <==> Guards.Selectable(judged[i].candidate, w, ctx)))
    && Fits(w, ctx, judged)
  }

  /** Plans, then judges every candidate by the full guard stack. */
  method Select(w: World, cfg: Rules.Config, os: string, maxTier: nat, ctx: Guards.GuardContext, ghost s: Setup)
    returns (plan: Plans.Plan, judged: seq<Judged>)
    requires WellFormed(w.tree) && Plans.RootsDistinct(cfg.roots)
    requires forall r :: r in ctx.roots ==> r in s.roots
    ensures JudgedFor(w, cfg, os, maxTier, ctx, plan, judged) && Sweepable(s, judged)
    // What is said of each is the guard that objects first, told from paths and times.
    ensures forall j :: j in judged ==> j.decision.rejectedBy == Guards.Objection(j.candidate, w, ctx)
  {
    hide *;
    plan := Plans.MakePlan(w, cfg, os, maxTier);
    judged := [];
    assert Fits(w, ctx, judged) && Sweepable(s, judged) by { NoneJudged(w, ctx, s); }
    for i := 0 to |plan.candidates|
      invariant |judged| == i && forall k :: 0 <= k < i ==> judged[k].candidate == plan.candidates[k]
      invariant forall k :: 0 <= k < i ==> (Picked(judged[k]) <==> Guards.Selectable(judged[k].candidate, w, ctx))
      invariant Sweepable(s, judged) && Fits(w, ctx, judged)
      invariant forall j :: j in judged ==> j.decision.rejectedBy == Guards.Objection(j.candidate, w, ctx)
    {
      var c := plan.candidates[i];
      var d := Guards.Evaluate(c, w, ctx);
      OneMore(w, ctx, s, judged, Judged(c, d));
      judged := judged + [Judged(c, d)];
    }
    assert JudgedFor(w, cfg, os, maxTier, ctx, plan, judged) by { AllJudged(w, cfg, os, maxTier, ctx, plan, judged); }
  }

  /** The canonical path of a selected candidate is the one containment accepted. */
  ghost predicate Fits(w: World, ctx: Guards.GuardContext, judged: seq<Judged>) {
    forall i :: 0 <= i < |judged| && Picked(judged[i]) ==>
      && judged[i].decision.canonical.Some?
      && judged[i].decision.canonical == Guards.Contained(w, judged[i].candidate.path, judged[i].candidate.root,
        ctx.roots)
  }

  lemma AllJudged(w: World, cfg: Rules.Config, os: string, maxTier: nat, ctx: Guards.GuardContext,
                  plan: Plans.Plan, judged: seq<Judged>)
    requires Plans.PlannedFor(w, cfg, os, maxTier, cfg.roots, plan.candidates)
    requires |judged| == |plan.candidates|
    requires forall i :: 0 <= i < |judged| ==> judged[i].candidate == plan.candidates[i]
    requires forall i :: 0 <= i < |judged| ==> (Picked(judged[i]) <==> Guards.Selectable(judged[i].candidate, w, ctx))
    requires Fits(w, ctx, judged)
    ensures JudgedFor(w, cfg, os, maxTier, ctx, plan, judged)
  {
  }

  lemma NoneJudged(w: World, ctx: Guards.GuardContext, s: Setup)
    ensures Fits(w, ctx, []) && Sweepable(s, [])
  {
  }

  lemma OneMore(w: World, ctx: Guards.GuardContext, s: Setup, judged: seq<Judged>, j: Judged)
    requires Fits(w, ctx, judged) && Sweepable(s, judged) && forall r :: r in ctx.roots ==> r in s.roots
    requires j.decision.selected ==> j.decision.canonical.Some?
    requires j.decision.selected ==>
               j.decision.canonical == Guards.Contained(w, j.candidate.path, j.candidate.root, ctx.roots)
    ensures Fits(w, ctx, judged + [j]) && Sweepable(s, judged + [j])
    ensures Picked(j) == j.decision.selected
  {
  }

  /** With canonical roots pairwise distinct, no canonical path is selected twice, however the roots nest. */
  lemma SelectedOnceInPlan(w: World, cfg: Rules.Config, os: string, maxTier: nat, ctx: Guards.GuardContext,
                           plan: Plans.Plan, judged: seq<Judged>, i: nat, j: nat)
    requires JudgedFor(w, cfg, os, maxTier, ctx, plan, judged)
    requires forall a, b ::
               a in cfg.roots && b in cfg.roots && w.Canon(a.path).Some? && w.Canon(a.path) == w.Canon(b.path) ==>
                 a.path == b.path
    requires i < j < |judged| && Picked(judged[i]) && Picked(judged[j])
    ensures judged[i].decision.canonical != judged[j].decision.canonical
  {
    hide Guards.Selectable, Guards.Contained, Plans.Proposed, Plans.Complete;
    var a, b := plan.candidates[i], plan.candidates[j];
    assert a in plan.candidates && b in plan.candidates;
    var ra := PlannedPlain(w, cfg, os, maxTier, a);
    var rb := PlannedPlain(w, cfg, os, maxTier, b);
    assert (a.root, a.path) != (b.root, b.path);
    Guards.ContainedAnyway(w, a.path, a.root, ctx.roots);
    if judged[i].decision.canonical == judged[j].decision.canonical {
      Guards.SelectedOnce(a, b, w, ctx);
      assert false;
    }
  }

  lemma PlannedPlain(w: World, cfg: Rules.Config, os: string, maxTier: nat, c: Candidate) returns (r: Rules.Root)
    requires Plans.Justified(w, cfg, os, maxTier, cfg.roots, c)
    ensures r in cfg.roots && r.path == c.root && Guards.PlainBelow(c.root, c.path)
  {
    r :| r in cfg.roots && Plans.Belongs(w, cfg, os, maxTier, r, c);
  }

  // ------------------------------------------------------------- the gate and the exit codes

  datatype Gate = Armed | NotRequested | ConfigStillDry

  function GateOf(apply: bool, dryRun: bool): Gate {
    if !apply then NotRequested else if dryRun then ConfigStillDry else Armed
  }

  const SUCCESS: int := 0
  const INTERNAL: int := 1
  const CONFIG: int := 2
  const NOTHING_TO_DO: int := 3
  const PARTIAL: int := 4

  // ------------------------------------------------------------- the time budget

  /** `limit` zero is no limit. */
  class TimeBudget {
    const limit: nat
    var elapsed: nat

    constructor (limit: nat)
      ensures this.limit == limit && elapsed == 0
    {
      this.limit := limit;
      elapsed := 0;
    }

    predicate Spent()
      reads this
    {
      limit != 0 && limit <= elapsed
    }

    method Exhausted() returns (r: bool)
      modifies this
      ensures old(elapsed) <= elapsed && r == (limit != 0 && elapsed >= limit)
      ensures old(Spent()) ==> r
      ensures r == Spent()
    {
      var d := *;
      elapsed := elapsed + if d < 0 then 0 else d;
      r := limit != 0 && elapsed >= limit;
    }
  }

  // ------------------------------------------------------------- rows and totals

  datatype Row = Row(candidate: Candidate, selected: bool, rejectedBy: Option<Guards.Guard>, reclaimed: bool)

  /** An attempt to stage the candidate at `index`. */
  datatype Attempt = Attempt(index: nat, ok: bool)

  /** The indices of the selected candidates, in order. */
  function SelectedIndices(judged: seq<Judged>): (r: seq<nat>)
    ensures forall i: nat :: i in r <==> i < |judged| && judged[i].decision.selected
    ensures forall i, j :: 0 <= i < j < |r| ==> r[i] < r[j]
  {
    if judged == [] then []
    else
      var n := |judged| - 1;
      var before := SelectedIndices(judged[..n]);
      assert forall i :: 0 <= i < |before| ==> before[i] in before;
      before + if Picked(judged[n]) then [n] else []
  }

  function Indices(attempts: seq<Attempt>): seq<nat> {
    seq(|attempts|, i requires 0 <= i < |attempts| => attempts[i].index)
  }

  /** The rows of the report when the given attempts were made: reclaimed are exactly those whose rename succeeded. */
  function RowsOf(judged: seq<Judged>, attempts: seq<Attempt>): seq<Row> {
    seq(|judged|, i requires 0 <= i < |judged| =>
      var j := judged[i];
      Row(j.candidate, j.decision.selected, j.decision.rejectedBy, Attempt(i, true) in attempts))
  }

  predicate IsSelected(r: Row) { r.selected }

  function SelectedBytes(judged: seq<Judged>): nat {
    if judged == [] then 0
    else
      var j := judged[|judged| - 1];
      SelectedBytes(judged[..|judged| - 1]) + if Picked(j) then j.candidate.bytes else 0
  }

  /** The size of the candidates at these places, each as often as it is named. */
  ghost function SumOver(judged: seq<Judged>, indices: seq<nat>): nat {
    if indices == [] then 0
    else
      var i := indices[0];
      (if i < |judged| then judged[i].candidate.bytes else 0) + SumOver(judged, indices[1..])
  }

  /** The places of the attempts that succeeded, in order. */
  ghost function MovedPlaces(attempts: seq<Attempt>): (r: seq<nat>)
    ensures forall i: nat :: i in r <==> Attempt(i, true) in attempts
  {
    if attempts == [] then []
    else
      assert attempts == [attempts[0]] + attempts[1..];
      (if attempts[0].ok then [attempts[0].index] else []) + MovedPlaces(attempts[1..])
  }

  lemma {:induction false} SumConcat(judged: seq<Judged>, a: seq<nat>, b: seq<nat>)
    ensures SumOver(judged, a + b) == SumOver(judged, a) + SumOver(judged, b)
  {
    if a == [] {
      assert a + b == b;
    } else {
      assert (a + b)[1..] == a[1..] + b;
      SumConcat(judged, a[1..], b);
    }
  }

  lemma {:induction false} MovedConcat(a: seq<Attempt>, b: seq<Attempt>)
    ensures MovedPlaces(a + b) == MovedPlaces(a) + MovedPlaces(b)
  {
    if a == [] {
      assert a + b == b;
    } else {
      assert (a + b)[1..] == a[1..] + b;
      MovedConcat(a[1..], b);
    }
  }

  /** One more attempt adds its candidate's size if it succeeded. */
  lemma OneMoreMoved(judged: seq<Judged>, attempts: seq<Attempt>, i: nat, ok: bool)
    requires i < |judged|
    ensures SumOver(judged, MovedPlaces(attempts + [Attempt(i, ok)]))
            == SumOver(judged, MovedPlaces(attempts)) + if ok then judged[i].candidate.bytes else 0
  {
    MovedConcat(attempts, [Attempt(i, ok)]);
    SumConcat(judged, MovedPlaces(attempts), MovedPlaces([Attempt(i, ok)]));
    assert MovedPlaces([Attempt(i, ok)]) == if ok then [i] else [];
  }

  lemma {:induction false} SumBefore(judged: seq<Judged>, n: nat, indices: seq<nat>)
    requires n <= |judged| && forall k :: 0 <= k < |indices| ==> indices[k] < n
    ensures SumOver(judged[..n], indices) == SumOver(judged, indices)
  {
    if indices != [] {
      SumBefore(judged, n, indices[1..]);
    }
  }

  /** The bytes promised are those of the selected places. */
  lemma {:induction false} SelectedSum(judged: seq<Judged>)
    ensures SelectedBytes(judged) == SumOver(judged, SelectedIndices(judged))
  {
    if judged != [] {
      hide SumOver, SelectedIndices, SelectedBytes;
      var n := |judged| - 1;
      var before := SelectedIndices(judged[..n]);
      SelectedSum(judged[..n]);
      SelectedNext(judged);
      assert forall k :: 0 <= k < |before| ==> before[k] in before;
      SumBefore(judged, n, before);
      SumConcat(judged, before, [n]);
      SumOne(judged, n);
    }
  }

  lemma SelectedNext(judged: seq<Judged>)
    requires judged != []
    ensures var n := |judged| - 1;
            && SelectedIndices(judged) == (if Picked(judged[n]) then SelectedIndices(judged[..n]) + [n]
                                           else SelectedIndices(judged[..n]))
            && SelectedBytes(judged) == SelectedBytes(judged[..n])
                                        + if Picked(judged[n]) then judged[n].candidate.bytes else 0
  {
    var before := SelectedIndices(judged[..|judged| - 1]);
    assert before + [] == before;
  }

  lemma SumOne(judged: seq<Judged>, i: nat)
    requires i < |judged|
    ensures SumOver(judged, [i]) == judged[i].candidate.bytes
  {
  }

  lemma {:induction false} MovedWithin(judged: seq<Judged>, attempts: seq<Attempt>)
    ensures SumOver(judged, MovedPlaces(attempts)) <= SumOver(judged, Indices(attempts))
  {
    if attempts != [] {
      var first, rest := attempts[0], attempts[1..];
      assert Indices(attempts) == [first.index] + Indices(rest);
      assert MovedPlaces(attempts) == (if first.ok then [first.index] else []) + MovedPlaces(rest);
      SumConcat(judged, [first.index], Indices(rest));
      SumConcat(judged, if first.ok then [first.index] else [], MovedPlaces(rest));
      MovedWithin(judged, rest);
    }
  }

  /** What is moved never exceeds what was promised. */
  lemma ReclaimedWithinSelected(judged: seq<Judged>, attempts: seq<Attempt>)
    requires Indices(attempts) <= SelectedIndices(judged)
    ensures SumOver(judged, MovedPlaces(attempts)) <= SumOver(judged, SelectedIndices(judged))
  {
    hide SelectedIndices, Indices;
    var tried, all := Indices(attempts), SelectedIndices(judged);
    MovedWithin(judged, attempts);
    assert all == tried + all[|tried|..];
    SumConcat(judged, tried, all[|tried|..]);
  }

  lemma {:induction false} SelectedPrefix(judged: seq<Judged>, i: nat)
    requires i <= |judged|
    ensures SelectedIndices(judged[..i]) <= SelectedIndices(judged)
    decreases |judged| - i
  {
    if i == |judged| {
      assert judged[..i] == judged;
    } else {
      SelectedPrefix(judged, i + 1);
      assert judged[..i + 1][..i] == judged[..i];
    }
  }

  // ------------------------------------------------------------- staging the selected candidates

  function CanonicalOf(judged: seq<Judged>, i: nat): Path {
    if i < |judged| && judged[i].decision.canonical.Some? then judged[i].decision.canonical.value else []
  }

  /** The staging renames the log must show for these attempts. */
  function Renames(judged: seq<Judged>, attempts: seq<Attempt>): seq<(Path, bool)> {
    seq(|attempts|, i requires 0 <= i < |attempts| => (CanonicalOf(judged, attempts[i].index), attempts[i].ok))
  }

  /** The canonical paths these attempts moved away. */
  ghost function Taken(judged: seq<Judged>, attempts: seq<Attempt>): set<Path> {
    set a | a in attempts && a.ok :: CanonicalOf(judged, a.index)
  }

  /** Outside quarantine, `r` is `t` less the trees at `tops`. */
  ghost predicate GoneAll(q: Path, t: Tree, tops: set<Path>, r: Tree) {
    forall p :: !(q < p) ==>
      && (p in r <==> p in t && forall a :: a in tops ==> !(a <= p))
      && (p in r ==> r[p] == t[p])
  }

  /** The same, when quarantine and directories above it may have been missing from `t`. */
  ghost predicate GoneFrom(q: Path, t: Tree, tops: set<Path>, r: Tree) {
    forall p :: !(q < p) ==>
      && (p in r <==> (p in t || p <= q) && forall a :: a in tops ==> !(a <= p))
      && (p in r ==> r[p] == if p in t then t[p] else Dir)
  }

  lemma GoneOneMore(q: Path, t: Tree, tops: set<Path>, r: Tree, a: Path, r': Tree)
    requires GoneAll(q, t, tops, r) && Gone(q, r, a, r')
    ensures GoneAll(q, t, tops + {a}, r')
  {
  }

  lemma TakenSnoc(judged: seq<Judged>, attempts: seq<Attempt>, a: Attempt)
    ensures Taken(judged, attempts + [a])
            == Taken(judged, attempts) + if a.ok then {CanonicalOf(judged, a.index)} else {}
    ensures Renames(judged, attempts + [a]) == Renames(judged, attempts) + [(CanonicalOf(judged, a.index), a.ok)]
    ensures Indices(attempts + [a]) == Indices(attempts) + [a.index]
  {
  }

  /** What the staging loop has done before index `i`. */
  ghost predicate Staging(judged: seq<Judged>, i: nat, attempts: seq<Attempt>, rows: seq<Row>, bytes: nat) {
    && i <= |judged|
    && Indices(attempts) == SelectedIndices(judged[..i])
    && rows == RowsOf(judged, attempts)
    && bytes == SumOver(judged, MovedPlaces(attempts))
  }

  lemma StagingStarts(judged: seq<Judged>)
    ensures Staging(judged, 0, [], RowsOf(judged, []), 0)
  {
    assert judged[..0] == [];
  }

  lemma StagingPasses(judged: seq<Judged>, i: nat, attempts: seq<Attempt>, rows: seq<Row>, bytes: nat)
    requires Staging(judged, i, attempts, rows, bytes) && i < |judged| && !Picked(judged[i])
    ensures Staging(judged, i + 1, attempts, rows, bytes)
  {
    hide SumOver, MovedPlaces, RowsOf;
    assert judged[..i + 1][..i] == judged[..i];
  }

  lemma StagingTries(judged: seq<Judged>, i: nat, attempts: seq<Attempt>, rows: seq<Row>, bytes: nat, ok: bool)
    requires Staging(judged, i, attempts, rows, bytes) && i < |judged| && Picked(judged[i])
    ensures |rows| == |judged|
    ensures Staging(judged, i + 1, attempts + [Attempt(i, ok)],
            if ok then rows[i := rows[i].(reclaimed := true)] else rows,
                    if ok then bytes + judged[i].candidate.bytes else bytes)
  {
    hide SumOver, MovedPlaces;
    var more := attempts + [Attempt(i, ok)];
    assert judged[..i + 1][..i] == judged[..i];
    TakenSnoc(judged, attempts, Attempt(i, ok));
    assert forall x :: x in more <==> x in attempts || x == Attempt(i, ok);
    assert Attempt(i, true) !in attempts by {
      forall k | 0 <= k < |attempts| ensures attempts[k].index < i {
        assert attempts[k].index == Indices(attempts)[k];
        assert Indices(attempts)[k] in SelectedIndices(judged[..i]);
      }
    }
    OneMoreMoved(judged, attempts, i, ok);
    if ok {
      assert rows[i := rows[i].(reclaimed := true)] == RowsOf(judged, more);
    } else {
      assert rows == RowsOf(judged, more);
    }
  }

  /** What is collected rather than fatal. */
  datatype Problem =
    | Unwalked(path: Path)
    | Unremoved(error: Removal.RemoveError)
    | Unstaged(path: Path)
    | CommandFailed(rule: string)

  function Unremovable(errors: seq<Removal.RemoveError>): seq<Problem> {
    seq(|errors|, i requires 0 <= i < |errors| => Unremoved(errors[i]))
  }

  function Unwalkable(paths: seq<Path>): seq<Problem> {
    seq(|paths|, i requires 0 <= i < |paths| => Unwalked(paths[i]))
  }

  /** There is a complaint for every attempt that failed, and no other. */
  ghost predicate Complaints(judged: seq<Judged>, attempts: seq<Attempt>, errors: seq<Problem>) {
    forall e :: e in errors <==>
                  exists i: nat ::
                    Attempt(i, false) in attempts && i < |judged| && e == Unstaged(judged[i].candidate.path)
  }

  lemma NoComplaints(judged: seq<Judged>)
    ensures Complaints(judged, [], [])
  {
  }

  lemma OneMoreComplaint(judged: seq<Judged>, attempts: seq<Attempt>, errors: seq<Problem>, i: nat, ok: bool)
    requires Complaints(judged, attempts, errors) && i < |judged|
    ensures Complaints(judged, attempts + [Attempt(i, ok)],
                       if ok then errors else errors + [Unstaged(judged[i].candidate.path)])
  {
    var more := attempts + [Attempt(i, ok)];
    assert forall x :: x in more <==> x in attempts || x == Attempt(i, ok);
    if !ok { assert Attempt(i, false) in more; }
  }

  /** A directory that a rename test made, where it was made or where it went. */
  ghost predicate OfTest(p: Path) {
    p != [] && (".reap-rename-test-" <= Last(p) || "rename-test-" <= Last(p))
  }

  /** Every removal that failed, but of a rename test's own directory, is among the problems. */
  ghost predicate Reported(log: seq<Event>, errors: seq<Problem>) {
    forall e :: e in log && Removal.FailsToRemove(e) && !OfTest(e.call.path) ==> Unremoved(Removal.Blame(e)) in errors
  }

  lemma ReportedNone(log: seq<Event>, errors: seq<Problem>)
    requires NothingRemoved(log)
    ensures Reported(log, errors)
  {
  }

  lemma ReportedTests(log: seq<Event>, root: Path, q: Path, from: Path, into: Path, errors: seq<Problem>)
    requires Quarantine.OnlyTests(log, from, into) && Quarantine.IsTest(root, q, from, into)
    ensures Reported(log, errors)
  {
  }

  lemma ReportedLater(log0: seq<Event>, log1: seq<Event>, log2: seq<Event>, errors: seq<Problem>)
    requires log0 <= log1 <= log2 && Reported(Since(log0, log1), errors) && Reported(Since(log1, log2), errors)
    ensures log0 <= log2 && Reported(Since(log0, log2), errors)
  {
    assert Since(log0, log2) == Since(log0, log1) + Since(log1, log2);
  }

  lemma ReportedAmong(log: seq<Event>, errors: seq<Problem>, more: seq<Problem>)
    requires Reported(log, errors) && forall x :: x in errors ==> x in more
    ensures Reported(log, more)
  {
  }

  lemma ReportedUnremovable(log: seq<Event>, stats: Removal.RemoveStats)
    requires Removal.Classed(log, stats)
    ensures Reported(log, Unremovable(stats.errors))
  {
    var errors := Unremovable(stats.errors);
    forall e | e in log && Removal.FailsToRemove(e) ensures Unremoved(Removal.Blame(e)) in errors {
      var i :| 0 <= i < |stats.errors| && stats.errors[i] == Removal.Blame(e);
      assert errors[i] == Unremoved(Removal.Blame(e));
    }
  }

  ghost predicate AllSucceeded(attempts: seq<Attempt>) {
    forall a :: a in attempts ==> a.ok
  }

  /** The disk after these attempts, which started from `t0`. */
  ghost predicate Moving(s: Setup, judged: seq<Judged>, attempts: seq<Attempt>, t0: Tree, log0: seq<Event>,
                         t: Tree, log: seq<Event>) {
    && Ran(s, t0, log0, t, log)
    && StagingAttempts(Since(log0, log)) == Renames(judged, attempts) && NothingMade(Since(log0, log))
    && GoneAll(s.q, t0, Taken(judged, attempts), t)
  }

  lemma MovingStarts(s: Setup, judged: seq<Judged>, t: Tree, log: seq<Event>)
    ensures Moving(s, judged, [], t, log, t, log)
  {
  }

  lemma MovingTries(s: Setup, judged: seq<Judged>, attempts: seq<Attempt>, a: Attempt, t0: Tree, log0: seq<Event>,
                    t1: Tree, log1: seq<Event>, t2: Tree, log2: seq<Event>)
    requires Moving(s, judged, attempts, t0, log0, t1, log1) && Ran(s, t1, log1, t2, log2)
    requires StagingAttempts(Since(log1, log2)) == [(CanonicalOf(judged, a.index), a.ok)]
             && NothingMade(Since(log1, log2))
    requires if a.ok then Gone(s.q, t1, CanonicalOf(judged, a.index), t2) else t2 == t1
    ensures Moving(s, judged, attempts + [a], t0, log0, t2, log2)
  {
    hide LawfulLog, Gone, GoneAll, StagingAttempts, Replay, Renames, Taken, Since;
    RanTransitive(s, t0, log0, t1, log1, t2, log2);
    StagingConcat(Since(log0, log1), Since(log1, log2));
    TakenSnoc(judged, attempts, a);
    if a.ok {
      GoneOneMore(s.q, t0, Taken(judged, attempts), t1, CanonicalOf(judged, a.index), t2);
    } else {
      assert Taken(judged, attempts + [a]) == Taken(judged, attempts);
    }
  }

  /** One candidate of the loop. */
  method StageOne(ex: Executor, c: Candidate, canonical: Path, ghost i: nat, ghost judged: seq<Judged>,
                  ghost attempts: seq<Attempt>, ghost t0: Tree, ghost log0: seq<Event>, ghost s: Setup)
    returns (ok: bool, ghost a: Attempt)
    requires ex.Valid() && s.q == ex.q && ValidSetup(s) && InRoot(s, canonical) && CanonicalOf(judged, i) == canonical
    requires Moving(s, judged, attempts, t0, log0, ex.disk.tree, ex.disk.log) && log0 <= ex.disk.log
    requires Cleared(ex.q, t0) ==> Owned(ex.q, ex.disk.tree, ex.staged)
    modifies ex, ex.disk, ex.process
    ensures ex.Valid() && old(ex.disk.faults) <= ex.disk.faults
    ensures a == Attempt(i, ok) && log0 <= ex.disk.log
    ensures old(ex.disk.log) <= ex.disk.log && NothingRemoved(Since(old(ex.disk.log), ex.disk.log))
    ensures Moving(s, judged, attempts + [a], t0, log0, ex.disk.tree, ex.disk.log)
    ensures Cleared(ex.q, t0) ==> Owned(ex.q, ex.disk.tree, ex.staged)
    ensures ex.disk.faults == old(ex.disk.faults) && Manifests.Documented(ex.q, t0, Since(log0, old(ex.disk.log))) ==>
              Manifests.Documented(ex.q, t0, Since(log0, ex.disk.log))
    ensures ex.process.counter == (old(ex.process.counter) + 1) % (Numerals.U64_MAX + 1)
    ensures ex.disk.faults == old(ex.disk.faults)
            && Manifests.WellNamed(Since(log0, old(ex.disk.log)), ex.process.pid, old(ex.process.counter)) ==>
              Manifests.WellNamed(Since(log0, ex.disk.log), ex.process.pid, old(ex.process.counter) + 1)
  {
    hide *;
    ghost var t1, log1, staged1 := ex.disk.tree, ex.disk.log, ex.staged;
    MovingLog(s, judged, attempts, t0, log0, t1, log1);
    ExecutorDests(ex);
    ghost var d;
    ok, d := ex.Stage(Item(c.rule, c.tier, c.bytes), canonical, s);
    a := Attempt(i, ok);
    ExecutorDests(ex);
    if ok {
      if Cleared(ex.q, t0) { StagedOwned(ex.q, t1, canonical, d, ex.disk.tree, staged1); }
      if ex.disk.faults == old(ex.disk.faults) {
        ghost var entry := ManifestEntry(Last(d), canonical, c.rule, c.tier, c.bytes);
        StagedAsShown(ex.q, t1, canonical, d, entry, log1, ex.disk.log);
      }
    }
    if ex.disk.faults == old(ex.disk.faults) && Manifests.Documented(ex.q, t0, Since(log0, log1)) {
      StillTold(s, t0, log0, t1, log1, canonical, ex.disk.log);
    }
    if ex.disk.faults == old(ex.disk.faults)
       && Manifests.WellNamed(Since(log0, log1), ex.process.pid, old(ex.process.counter)) {
      StillNamed(ex.q, t1, log0, log1, canonical, d, ex.disk.log, ex.process.pid, old(ex.process.counter));
    }
    MovingTries(s, judged, attempts, a, t0, log0, t1, log1, ex.disk.tree, ex.disk.log);
    MovingLog(s, judged, attempts + [a], t0, log0, ex.disk.tree, ex.disk.log);
  }

  /** Stages the selected candidates one by one until the budget is spent. */
  method StageAll(ex: Executor, budget: TimeBudget, judged: seq<Judged>, ghost s: Setup)
    returns (rows: seq<Row>, bytes: nat, errors: seq<Problem>, timedOut: bool, ghost attempts: seq<Attempt>)
    requires ex.Valid() && ex.staged == [] && s.q == ex.q && ValidSetup(s) && Sweepable(s, judged)
    modifies ex, ex.disk, ex.process, budget
    ensures ex.Valid() && old(ex.disk.faults) <= ex.disk.faults
    ensures Moving(s, judged, attempts, old(ex.disk.tree), old(ex.disk.log), ex.disk.tree, ex.disk.log)
    ensures rows == RowsOf(judged, attempts) && bytes == SumOver(judged, MovedPlaces(attempts))
    ensures if timedOut then budget.limit != 0 && Indices(attempts) < SelectedIndices(judged)
            else Indices(attempts) == SelectedIndices(judged)
    ensures (errors == [] <==> AllSucceeded(attempts)) && Complaints(judged, attempts, errors)
    ensures old(ex.disk.log) <= ex.disk.log && NothingRemoved(Since(old(ex.disk.log), ex.disk.log))
    // Once the budget is spent nothing is tried.
    ensures old(budget.Spent()) ==> attempts == []
    ensures Cleared(ex.q, old(ex.disk.tree)) ==> Owned(ex.q, ex.disk.tree, ex.staged)
    // Without faults, at every instant the manifest tells where the trees staged so far came from, all of them exactly
    // if the line of the last is written.
    ensures ex.disk.faults == old(ex.disk.faults) && Manifests.EndsWell(ex.q, old(ex.disk.tree)) ==>
              old(ex.disk.log) <= ex.disk.log
              && Manifests.Documented(ex.q, old(ex.disk.tree), Since(old(ex.disk.log), ex.disk.log))
    // From an empty manifest, and short of 2^64 names, that is at every instant but within a line.
    ensures ex.disk.faults == old(ex.disk.faults) && Manifests.EndsWell(ex.q, old(ex.disk.tree))
            && Manifests.Told(ex.q, old(ex.disk.tree)) == []
            && old(ex.process.counter) + |judged| <= Numerals.U64_MAX ==>
              old(ex.disk.log) <= ex.disk.log
              && Manifests.ToldBetweenLines(ex.q, old(ex.disk.tree), Since(old(ex.disk.log), ex.disk.log))
  {
    hide *;
    ghost var c0 := ex.process.counter;
    rows, bytes, errors, timedOut, attempts := RowsOf(judged, []), 0, [], false, [];
    ghost var t0, log0 := ex.disk.tree, ex.disk.log;
    StagingStarts(judged);
    MovingStarts(s, judged, t0, log0);
    assert AllSucceeded([]) by { NoAttempts(); }
    NoComplaints(judged);
    if Cleared(ex.q, t0) { RecoveredOwned(ex.q, t0); }
    if Manifests.EndsWell(ex.q, t0) { Manifests.DocumentedNothing(ex.q, t0); }
    MovingLog(s, judged, attempts, t0, log0, t0, log0);
    RemovedNone(log0, Since(log0, log0));
    NumberedFirst(c0, |judged|, ex.process.pid, log0);
    for i := 0 to |judged|
      invariant log0 <= ex.disk.log && NothingRemoved(Since(log0, ex.disk.log))
      invariant old(budget.Spent()) ==> attempts == [] && budget.Spent()
      invariant Numbered(ex.disk.faults == old(ex.disk.faults), c0, |judged|, i, ex.process.counter, ex.process.pid,
                         Since(log0, ex.disk.log))
      invariant ex.disk.faults == old(ex.disk.faults) && Manifests.EndsWell(ex.q, t0) ==>
                  Manifests.Documented(ex.q, t0, Since(log0, ex.disk.log))
      invariant ex.Valid() && old(ex.disk.faults) <= ex.disk.faults
      invariant Staging(judged, i, attempts, rows, bytes)
      invariant Moving(s, judged, attempts, t0, log0, ex.disk.tree, ex.disk.log)
      invariant (errors == [] <==> AllSucceeded(attempts)) && Complaints(judged, attempts, errors)
      invariant Cleared(ex.q, t0) ==> Owned(ex.q, ex.disk.tree, ex.staged)
      invariant !timedOut
    {
      if !Picked(judged[i]) {
        StagingPasses(judged, i, attempts, rows, bytes);
        NumberedPasses(ex.disk.faults == old(ex.disk.faults), c0, |judged|, i, ex.process.counter, ex.process.pid,
                       Since(log0, ex.disk.log));
        continue;
      }
      var spent := budget.Exhausted();
      if spent {
        timedOut := true;
        StagingStops(judged, i, attempts, rows, bytes);
        NamedSoFar(ex.q, t0, Since(log0, ex.disk.log), ex.process.pid, ex.process.counter, c0, |judged|, i);
        return;
      }
      SweepableAt(s, judged, i);
      var c := judged[i].candidate;
      ghost var a;
      var ok;
      ghost var counter, log1 := ex.process.counter, Since(log0, ex.disk.log);
      ghost var quiet := ex.disk.faults == old(ex.disk.faults);
      ghost var log2 := ex.disk.log;
      ok, a := StageOne(ex, c, judged[i].decision.canonical.value, i, judged, attempts, t0, log0, s);
      RemovedNoneLater(log0, log2, ex.disk.log);
      NumberedNext(quiet, ex.disk.faults == old(ex.disk.faults), c0, |judged|, i, counter, ex.process.pid, log1,
                   ex.process.counter, Since(log0, ex.disk.log));
      StagingTries(judged, i, attempts, rows, bytes, ok);
      OneMoreAttempt(attempts, a);
      OneMoreComplaint(judged, attempts, errors, i, ok);
      attempts := attempts + [a];
      if ok {
        rows := rows[i := rows[i].(reclaimed := true)];
        bytes := bytes + c.bytes;
      } else {
        errors := errors + [Unstaged(c.path)];
      }
    }
    StagingEnds(judged, attempts, rows, bytes);
    NamedSoFar(ex.q, t0, Since(log0, ex.disk.log), ex.process.pid, ex.process.counter, c0, |judged|, |judged|);
  }

  /** Unless the counter is to wrap, names are counted up, and without faults all staged trees bear one of their own. */
  ghost predicate Numbered(quiet: bool, c0: nat, n: nat, i: nat, counter: nat, pid: nat, log: seq<Event>) {
    c0 + n <= Numerals.U64_MAX ==> counter <= c0 + i && (quiet ==> Manifests.WellNamed(log, pid, counter))
  }

  lemma NumberedFirst(c0: nat, n: nat, pid: nat, log: seq<Event>)
    ensures Numbered(true, c0, n, 0, c0, pid, Since(log, log))
  {
    hide Manifests.WellNamed;
    Manifests.NoneNamed(pid, c0);
    assert Since(log, log) == [];
  }

  lemma NumberedPasses(quiet: bool, c0: nat, n: nat, i: nat, counter: nat, pid: nat, log: seq<Event>)
    requires Numbered(quiet, c0, n, i, counter, pid, log)
    ensures Numbered(quiet, c0, n, i + 1, counter, pid, log)
  {
  }

  lemma NumberedNext(quiet: bool, quiet': bool, c0: nat, n: nat, i: nat, counter: nat, pid: nat, log: seq<Event>,
                     counter': nat, log': seq<Event>)
    requires Numbered(quiet, c0, n, i, counter, pid, log) && i < n && (quiet' ==> quiet)
    requires counter' == (counter + 1) % (Numerals.U64_MAX + 1)
    requires quiet' && Manifests.WellNamed(log, pid, counter) ==> Manifests.WellNamed(log', pid, counter + 1)
    ensures Numbered(quiet', c0, n, i + 1, counter', pid, log')
  {
    hide Manifests.WellNamed;
  }

  lemma NamedSoFar(q: Path, t0: Tree, log: seq<Event>, pid: nat, counter: nat, c0: nat, n: nat, i: nat)
    ensures Manifests.Documented(q, t0, log) && Numbered(true, c0, n, i, counter, pid, log)
            && c0 + n <= Numerals.U64_MAX && Manifests.Told(q, t0) == [] ==>
              Manifests.ToldBetweenLines(q, t0, log)
  {
    hide Manifests.Documented, Manifests.Told, Manifests.Arrivals, Manifests.NamesApart, Manifests.NamedBelow,
      Manifests.ToldBetweenLines;
    if Manifests.Documented(q, t0, log) && Manifests.WellNamed(log, pid, counter) && Manifests.Told(q, t0) == [] {
      assert Manifests.Fresh([], Manifests.Arrivals(log));
      Manifests.DocumentedFresh(q, t0, log);
    }
  }

  lemma MovingLog(s: Setup, judged: seq<Judged>, attempts: seq<Attempt>, t0: Tree, log0: seq<Event>,
                  t: Tree, log: seq<Event>)
    requires Moving(s, judged, attempts, t0, log0, t, log)
    ensures log0 <= log && t == Replay(t0, Since(log0, log))
    ensures log == log0 ==> Since(log0, log) == []
  {
  }

  /** One staging without faults, after the log `log1`. */
  lemma StillTold(s: Setup, t0: Tree, log0: seq<Event>, t1: Tree, log1: seq<Event>, canonical: Path, log2: seq<Event>)
    requires ValidSetup(s) && InRoot(s, canonical) && Ready(s.q, t1)
    requires log0 <= log1 && t1 == Replay(t0, Since(log0, log1))
    requires Manifests.Documented(s.q, t0, Since(log0, log1))
    requires || (exists d :: IsDest(s.q, d) && log2 == log1 + [Event(Rename(canonical, d), false)])
             || (exists d, entry: ManifestEntry :: StagedAs(s.q, t1, canonical, d, entry, log1, log2))
    ensures log0 <= log2 && Manifests.Documented(s.q, t0, Since(log0, log2))
  {
    hide Manifests.Documented, ValidSetup, InRoot, Ready, Replay, IsDest, Permits;
    if d :| IsDest(s.q, d) && log2 == log1 + [Event(Rename(canonical, d), false)] {
      Manifests.UnstagedTold(s.q, t0, Since(log0, log1), canonical, d);
      assert Since(log0, log2) == Since(log0, log1) + [Event(Rename(canonical, d), false)];
    } else {
      var d, entry: ManifestEntry :| StagedAs(s.q, t1, canonical, d, entry, log1, log2);
      Manifests.StagedTold(s, t0, Since(log0, log1), t1, canonical, d, entry);
      assert Since(log0, log2) ==
             Since(log0, log1) + [Event(Rename(canonical, d), true)]
             + WritesOf(s.q, t1[ManifestPath(s.q)].lines, entry);
    }
  }

  lemma SinceMore(log0: seq<Event>, log1: seq<Event>, more: seq<Event>)
    requires log0 <= log1
    ensures log0 <= log1 + more && Since(log0, log1 + more) == Since(log0, log1) + more
  {
  }

  /** And its name is a new one. */
  lemma StillNamed(q: Path, t: Tree, log0: seq<Event>, log1: seq<Event>, a: Path, d: Path, log2: seq<Event>, pid: nat,
                   n: nat)
    requires log0 <= log1 && Manifests.WellNamed(Since(log0, log1), pid, n)
    requires || (exists x :: IsDest(q, x) && log2 == log1 + [Event(Rename(a, x), false)])
             || (d != [] && Quarantine.NamedAt(Last(d), pid, n)
                 && exists entry: ManifestEntry :: StagedAs(q, t, a, d, entry, log1, log2))
    ensures log0 <= log2 && Manifests.WellNamed(Since(log0, log2), pid, n + 1)
  {
    hide *;
    if x :| IsDest(q, x) && log2 == log1 + [Event(Rename(a, x), false)] {
      Manifests.StagingArrives(q, Since(log0, log1), a, x, [], ManifestEntry("", [], "", 0, 0));
      SinceMore(log0, log1, [Event(Rename(a, x), false)]);
      Manifests.NamedMore(Since(log0, log1), Since(log0, log2), pid, n);
    } else {
      var entry: ManifestEntry :| StagedAs(q, t, a, d, entry, log1, log2);
      StagedNamed(q, t, log0, log1, a, d, entry, log2, pid, n);
    }
  }

  lemma StagedNamed(q: Path, t: Tree, log0: seq<Event>, log1: seq<Event>, a: Path, d: Path, entry: ManifestEntry,
                    log2: seq<Event>, pid: nat, n: nat)
    requires log0 <= log1 && Manifests.WellNamed(Since(log0, log1), pid, n)
    requires d != [] && Quarantine.NamedAt(Last(d), pid, n) && StagedAs(q, t, a, d, entry, log1, log2)
    ensures log0 <= log2 && Manifests.WellNamed(Since(log0, log2), pid, n + 1)
  {
    hide Manifests.Arrivals, IsDest, Permits, Quarantine.NamedAt, Manifests.NamesApart, Manifests.NamedBelow,
      WritesOf, Since;
    var before, e, w := Since(log0, log1), [Event(Rename(a, d), true)], WritesOf(q, t[ManifestPath(q)].lines, entry);
    Manifests.StagingArrives(q, before, a, d, t[ManifestPath(q)].lines, entry);
    SinceMore(log0, log1, e);
    SinceMore(log0, log1 + e, w);
    Manifests.NamedNext(Manifests.Arrivals(before), Manifests.Arrival(a, d), pid, n);
  }

  /** From `log1` to `log2` the tree at `a` was staged as `d`, undisturbed. */
  ghost predicate StagedAs(q: Path, t: Tree, a: Path, d: Path, entry: ManifestEntry, log1: seq<Event>,
                           log2: seq<Event>) {
    && IsDest(q, d) && entry.entry == Last(d) && entry.original == a && Permits(t, Rename(a, d))
    && ManifestPath(q) in t && t[ManifestPath(q)].File?
    && log2 == log1 + [Event(Rename(a, d), true)] + WritesOf(q, t[ManifestPath(q)].lines, entry)
  }

  lemma StagedAsShown(q: Path, t: Tree, a: Path, d: Path, entry: ManifestEntry, log1: seq<Event>, log2: seq<Event>)
    requires IsDest(q, d) && entry.entry == Last(d) && entry.original == a && Permits(t, Rename(a, d))
    requires ManifestPath(q) in t && t[ManifestPath(q)].File?
    requires log2 == log1 + [Event(Rename(a, d), true)] + WritesOf(q, t[ManifestPath(q)].lines, entry)
    ensures StagedAs(q, t, a, d, entry, log1, log2)
  {
  }

  lemma NoAttempts()
    ensures AllSucceeded([])
  {
  }

  lemma OneMoreAttempt(attempts: seq<Attempt>, a: Attempt)
    ensures AllSucceeded(attempts + [a]) <==> AllSucceeded(attempts) && a.ok
  {
  }

  lemma SweepableAt(s: Setup, judged: seq<Judged>, i: nat)
    requires Sweepable(s, judged) && i < |judged| && Picked(judged[i])
    ensures judged[i].decision.canonical.Some? && InRoot(s, judged[i].decision.canonical.value)
    ensures CanonicalOf(judged, i) == judged[i].decision.canonical.value
  {
  }

  lemma StagingStops(judged: seq<Judged>, i: nat, attempts: seq<Attempt>, rows: seq<Row>, bytes: nat)
    requires Staging(judged, i, attempts, rows, bytes) && i < |judged| && Picked(judged[i])
    ensures rows == RowsOf(judged, attempts) && bytes == SumOver(judged, MovedPlaces(attempts))
    ensures Indices(attempts) < SelectedIndices(judged)
  {
    hide SumOver, MovedPlaces, RowsOf, Indices;
    SelectedPrefix(judged, i + 1);
    assert judged[..i + 1][..i] == judged[..i];
  }

  lemma StagingEnds(judged: seq<Judged>, attempts: seq<Attempt>, rows: seq<Row>, bytes: nat)
    requires Staging(judged, |judged|, attempts, rows, bytes)
    ensures rows == RowsOf(judged, attempts) && bytes == SumOver(judged, MovedPlaces(attempts))
    ensures Indices(attempts) == SelectedIndices(judged)
  {
    hide SumOver, MovedPlaces, RowsOf, Indices;
    assert judged[..|judged|] == judged;
  }

  // ------------------------------------------------------------- before anything is moved

  /** `p` is free for a directory to be made there. */
  predicate Makeable(t: Tree, p: Path) {
    p != [] && p !in t && InDir(t, p)
  }

  /** The scratch directories tried, one under each root in turn. */
  ghost predicate TriedUnder(roots: seq<Path>, tried: seq<Path>) {
    |tried| <= |roots|
    && forall i :: 0 <= i < |tried| ==>
         tried[i] != [] && Parent(tried[i]) == roots[i] && ".reap-rename-test-" <= Last(tried[i])
  }

  /** Something else stands where quarantine belongs, or a root is no directory, or holds the scratch directory's
      name. */
  ghost predicate Barred(q: Path, t: Tree, tried: seq<Path>) {
    !Openable(q, t) || exists i :: 0 <= i < |tried| && !Makeable(t, tried[i])
  }

  /** Opens quarantine, clears what an interrupted run left, and tests a rename from every root; `null` is a refusal. */
  method Prepare(disk: Disk, process: Quarantine.Process, q: Path, roots: seq<Path>, ghost s: Setup)
    returns (ex: Executor?, errors: seq<Problem>, ghost tried: seq<Path>)
    requires WellFormed(disk.tree) && ValidSetup(s) && s.q == q && forall r :: r in roots ==> r in s.roots
    modifies disk, process
    ensures WellFormed(disk.tree) && old(disk.faults) <= disk.faults
    ensures Ran(s, old(disk.tree), old(disk.log), disk.tree, disk.log)
    ensures StagingAttempts(Since(old(disk.log), disk.log)) == []
    ensures ex != null ==>
              fresh(ex) && ex.disk == disk && ex.process == process && ex.q == q && ex.staged == [] && ex.Valid()
    ensures ex != null ==> GoneFrom(q, old(disk.tree), {}, disk.tree)
    ensures ex != null && disk.faults == old(disk.faults) ==> errors == [] && Cleared(q, disk.tree)
    ensures TriedUnder(roots, tried) && (ex != null ==> |tried| == |roots|)
    ensures old(disk.log) <= disk.log && Reported(Since(old(disk.log), disk.log), errors)
    ensures disk.faults == old(disk.faults) ==> (ex == null <==> Barred(q, old(disk.tree), tried))
  {
    hide LawfulLog, Replay, StagingAttempts, Since, WellFormed, ValidSetup, Ready, Recovered, SameOutside, Cleared,
      OnlyLess,
      Leftovers, Executor.Valid, Unremovable, GoneFrom, Furnished, Openable, RanQuietly, Quarantine.Undisturbed,
      Quarantine.NothingAdded, Quarantine.Testable, Quarantine.IsTest, Makeable, TriedUnder, Reported,
      NothingRemoved, Removal.Classed, Quarantine.OnlyTests;
    NotRoot(s);
    errors, tried := [], [];
    NoneTried(roots);
    ghost var t0, log0 := disk.tree, disk.log;
    ex := Executor.Open(disk, process, q, s);
    ReportedNone(Since(log0, disk.log), errors);
    if ex == null {
      return;
    }
    ghost var t1, log1 := disk.tree, disk.log;
    ExecutorReady(ex);
    var recovered := ex.Recover(s);
    QuietMeans(s, t1, log1, disk.tree, disk.log);
    if recovered.entries > 0 {
      errors := Unremovable(recovered.stats.errors);
      NoneUnremovable(recovered.stats.errors);
      ReportedUnremovable(Since(log1, disk.log), recovered.stats);
    } else {
      ReportedNone(Since(log1, disk.log), errors);
    }
    ReportedNone(Since(log0, log1), errors);
    ReportedLater(log0, log1, disk.log, errors);
    RanOn(s, t0, log0, t1, log1, disk.tree, disk.log);
    ExecutorReady(ex);
    FurnishedAway(q, t0, t1, disk.tree);
    for i := 0 to |roots|
      invariant ex.Valid() && WellFormed(disk.tree) && old(disk.faults) <= disk.faults
      invariant ex.staged == [] && fresh(ex) && ex.disk == disk && ex.process == process && ex.q == q
      invariant Ran(s, t0, log0, disk.tree, disk.log) && StagingAttempts(Since(log0, disk.log)) == []
      invariant GoneFrom(q, t0, {}, disk.tree)
      invariant |tried| == i && TriedUnder(roots, tried)
      invariant log0 <= disk.log && Reported(Since(log0, disk.log), errors)
      invariant disk.faults == old(disk.faults) ==> errors == [] && Cleared(q, disk.tree) && !Barred(q, t0, tried)
    {
      ghost var t2, log2 := disk.tree, disk.log;
      ExecutorReady(ex);
      var ok;
      ghost var from, into;
      ok, from, into := Quarantine.TestRename(disk, process, q, roots[i], s);
      RanOn(s, t0, log0, t2, log2, disk.tree, disk.log);
      ReportedTests(Since(log2, disk.log), roots[i], q, from, into, errors);
      ReportedLater(log0, log2, disk.log, errors);
      ExecutorStays(ex, t2);
      OneMoreTried(s, roots, tried, from, into);
      if disk.faults == old(disk.faults) {
        TestableHere(s, t0, t2, roots[i], from, into);
        OneMoreBarred(q, t0, tried, from);
        StillCleared(q, t2, disk.tree);
      }
      tried := tried + [from];
      if !ok {
        ex := null;
        return;
      }
      StillAway(q, t0, t2, disk.tree);
    }
  }

  lemma NoneTried(roots: seq<Path>)
    ensures TriedUnder(roots, [])
  {
  }

  lemma OneMoreTried(s: Setup, roots: seq<Path>, tried: seq<Path>, from: Path, into: Path)
    requires TriedUnder(roots, tried) && |tried| < |roots| && Quarantine.IsTest(roots[|tried|], s.q, from, into)
    ensures TriedUnder(roots, tried + [from])
  {
  }

  lemma OneMoreBarred(q: Path, t: Tree, tried: seq<Path>, from: Path)
    ensures Barred(q, t, tried + [from]) <==> Barred(q, t, tried) || !Makeable(t, from)
  {
    hide Openable, Makeable;
    var more := tried + [from];
    assert more[|tried|] == from;
    if Barred(q, t, tried) && Openable(q, t) {
      var i :| 0 <= i < |tried| && !Makeable(t, tried[i]);
      assert more[i] == tried[i];
    }
  }

  /** With quarantine cleared, a scratch directory that can be made can be moved. */
  lemma TestableHere(s: Setup, t0: Tree, t: Tree, root: Path, from: Path, into: Path)
    requires ValidSetup(s) && root in s.roots && Quarantine.IsTest(root, s.q, from, into)
    requires Ready(s.q, t) && Cleared(s.q, t) && GoneFrom(s.q, t0, {}, t)
    ensures Quarantine.Testable(t, from, into) <==> Makeable(t0, from)
  {
    assert from == root + [Last(from)] && into == s.q + [Last(into)];
    assert Apart(root, s.q) && !(s.q <= from) && !(from <= s.q);
    assert Last(from)[0] == TEST_PREFIX[0] && Last(into)[0] == Quarantine.MOVED_PREFIX[0];
    assert MANIFEST[0] == 'm' && Last(ManifestPath(s.q)) == MANIFEST;
    if Permits(t, MkDir(from)) {
      var t1 := Do(t, MkDir(from));
      assert into !in t1 && s.q in t1 && t1[s.q] == Dir;
    }
  }

  lemma NotRoot(s: Setup)
    requires ValidSetup(s)
    ensures s.q != []
  {
  }

  lemma ExecutorReady(ex: Executor)
    requires ex.Valid()
    ensures WellFormed(ex.disk.tree) && Ready(ex.q, ex.disk.tree)
  {
  }

  /** A rename test keeps an executor that has staged nothing valid. */
  lemma ExecutorStays(ex: Executor, was: Tree)
    requires Ready(ex.q, was) && WellFormed(ex.disk.tree) && ex.staged == []
    requires Quarantine.Undisturbed(ex.q, was, ex.disk.tree)
    ensures ex.Valid()
  {
  }

  lemma NoneUnremovable(errors: seq<Removal.RemoveError>)
    ensures errors == [] <==> Unremovable(errors) == []
  {
  }

  lemma FurnishedAway(q: Path, t0: Tree, t1: Tree, t2: Tree)
    requires Furnished(q, t0, t1) && SameOutside(q, t1, t2)
    ensures GoneFrom(q, t0, {}, t2) && (Recovered(q, t1, t2) ==> Cleared(q, t2))
  {
    assert q < ManifestPath(q);
  }

  lemma StillAway(q: Path, t0: Tree, t1: Tree, t2: Tree)
    requires GoneFrom(q, t0, {}, t1) && SameOutside(q, t1, t2)
    ensures GoneFrom(q, t0, {}, t2)
  {
  }

  lemma StillCleared(q: Path, t1: Tree, t2: Tree)
    requires Cleared(q, t1) && Quarantine.NothingAdded(t1, t2)
    ensures Cleared(q, t2)
  {
  }

  lemma RanOn(s: Setup, t0: Tree, log0: seq<Event>, t1: Tree, log1: seq<Event>, t2: Tree, log2: seq<Event>)
    requires Ran(s, t0, log0, t1, log1) && Ran(s, t1, log1, t2, log2)
    ensures Ran(s, t0, log0, t2, log2)
    ensures StagingAttempts(Since(log0, log2))
            == StagingAttempts(Since(log0, log1)) + StagingAttempts(Since(log1, log2))
  {
    hide LawfulLog, Replay, StagingAttempts;
    RanTransitive(s, t0, log0, t1, log1, t2, log2);
    StagingConcat(Since(log0, log1), Since(log1, log2));
  }

  lemma RanOnFrom(s: Setup, t0: Tree, log0: seq<Event>, t1: Tree, log1: seq<Event>, t2: Tree, log2: seq<Event>)
    requires Ran(s, t0, log0, t1, log1) && Ran(s, t1, log1, t2, log2) && StagingAttempts(Since(log0, log1)) == []
    ensures Ran(s, t0, log0, t2, log2) && StagingAttempts(Since(log0, log2)) == StagingAttempts(Since(log1, log2))
  {
    hide LawfulLog, Replay, StagingAttempts;
    RanOn(s, t0, log0, t1, log1, t2, log2);
  }

  // ------------------------------------------------------------- command rules

  predicate ByTier(a: Plans.CommandCandidate, b: Plans.CommandCandidate) {
    a.tier <= b.tier
  }

  /** What a command does to the tree is its own: any change that leaves a tree. */
  ghost predicate Sane(effect: (Plans.CommandCandidate, Tree) -> Tree) {
    forall c, t :: WellFormed(t) ==> WellFormed(effect(c, t))
  }

  /** The tree after these commands, one after another. */
  ghost function Effects(effect: (Plans.CommandCandidate, Tree) -> Tree, started: seq<Plans.CommandCandidate>,
                         t: Tree): Tree {
    if started == [] then t
    else
      var n := |started| - 1;
      effect(started[n], Effects(effect, started[..n], t))
  }

  /** Of two commands the lower tier comes first, and within a tier the one listed first. */
  ghost predicate ComesFirst(commands: seq<Plans.CommandCandidate>, a: Plans.CommandCandidate,
                             b: Plans.CommandCandidate) {
    || a.tier < b.tier
    || (a.tier == b.tier && exists k, l :: 0 <= k < l < |commands| && commands[k] == a && commands[l] == b)
  }

  lemma NoEffects(effect: (Plans.CommandCandidate, Tree) -> Tree, t: Tree)
    ensures Effects(effect, [], t) == t
  {
  }

  /** Commands of the list that have a command line, in turn. */
  ghost predicate InTurn(commands: seq<Plans.CommandCandidate>, started: seq<Plans.CommandCandidate>) {
    && (forall c :: c in started ==> c in commands && c.argv != [])
    && (forall i, j :: 0 <= i < j < |started| ==> ComesFirst(commands, started[i], started[j]))
  }

  /** `started` are those at these places of the first `i`. */
  ghost predicate TakenAt(sorted: seq<Plans.CommandCandidate>, i: nat, at: seq<nat>,
                          started: seq<Plans.CommandCandidate>) {
    && i <= |sorted| && |at| == |started| <= i
    && (forall k :: 0 <= k < |at| ==> at[k] < i && started[k] == sorted[at[k]] && started[k].argv != [])
    && (forall k, l :: 0 <= k < l < |at| ==> at[k] < at[l])
  }

  lemma NoneTaken(sorted: seq<Plans.CommandCandidate>)
    ensures TakenAt(sorted, 0, [], []) && TakenAt(sorted, |sorted|, [], [])
  {
  }

  lemma OneMoreTaken(sorted: seq<Plans.CommandCandidate>, i: nat, at: seq<nat>, started: seq<Plans.CommandCandidate>)
    requires TakenAt(sorted, i, at, started) && i < |sorted|
    ensures TakenAt(sorted, i + 1, at, started)
    ensures sorted[i].argv != [] ==>
              TakenAt(sorted, i + 1, at + [i], started + [sorted[i]])
              && TakenAt(sorted, |sorted|, at + [i], started + [sorted[i]])
  {
  }

  lemma OneMoreEffect(effect: (Plans.CommandCandidate, Tree) -> Tree, started: seq<Plans.CommandCandidate>,
                      c: Plans.CommandCandidate, t: Tree)
    ensures Effects(effect, started + [c], t) == effect(c, Effects(effect, started, t))
  {
    assert (started + [c])[..|started|] == started;
  }

  lemma SortedComesFirst(commands: seq<Plans.CommandCandidate>, i: nat, j: nat)
    requires i < j < |commands|
    ensures ComesFirst(commands, SortBy(commands, ByTier)[i], SortBy(commands, ByTier)[j])
  {
    hide SortBy;
    var sorted := SortBy(commands, ByTier);
    assert TotalPreorder(ByTier);
    SortSorts(commands, ByTier);
    assert ByTier(sorted[i], sorted[j]);
    if sorted[i].tier == sorted[j].tier { SortStable(commands, ByTier, i, j); }
  }

  lemma TurnsTaken(commands: seq<Plans.CommandCandidate>, at: seq<nat>, started: seq<Plans.CommandCandidate>)
    requires TakenAt(SortBy(commands, ByTier), |commands|, at, started)
    ensures InTurn(commands, started)
  {
    hide SortBy, ComesFirst, TakenAt, ByTier;
    var sorted := SortBy(commands, ByTier);
    forall c | c in started ensures c in commands && c.argv != [] {
      var i :| 0 <= i < |started| && started[i] == c;
      TakenPlace(sorted, |commands|, at, started, i);
      SortedMember(commands, at[i]);
    }
    forall i, j | 0 <= i < j < |started| ensures ComesFirst(commands, started[i], started[j]) {
      TakenPlace(sorted, |commands|, at, started, i);
      TakenPlace(sorted, |commands|, at, started, j);
      SortedComesFirst(commands, at[i], at[j]);
    }
  }

  lemma SortedMember(commands: seq<Plans.CommandCandidate>, i: nat)
    requires i < |commands|
    ensures SortBy(commands, ByTier)[i] in commands
  {
    hide SortBy, ByTier;
    SortMembers(commands, ByTier);
    assert SortBy(commands, ByTier)[i] in SortBy(commands, ByTier);
  }

  lemma TakenPlace(sorted: seq<Plans.CommandCandidate>, n: nat, at: seq<nat>, started: seq<Plans.CommandCandidate>,
                   k: nat)
    requires TakenAt(sorted, n, at, started) && k < |started|
    ensures |at| == |started| && at[k] < n <= |sorted| && started[k] == sorted[at[k]] && started[k].argv != []
    ensures forall l :: k < l < |at| ==> at[k] < at[l]
  {
  }

  /** The command was started, or it is said that it failed. */
  ghost predicate Served(c: Plans.CommandCandidate, started: seq<Plans.CommandCandidate>, errors: seq<Problem>) {
    c in started || CommandFailed(c.rule) in errors
  }

  /** So many commands were started, in turn, and made `r` of `t`; with no limit, every one that has a command line was
      started or is said to have failed. */
  ghost predicate CommandsRan(commands: seq<Plans.CommandCandidate>, limit: nat,
                              effect: (Plans.CommandCandidate, Tree) -> Tree, t: Tree, r: Tree, ran: nat,
                              errors: seq<Problem>) {
    exists started :: RanThese(commands, limit, effect, t, r, ran, errors, started)
  }

  ghost predicate RanThese(commands: seq<Plans.CommandCandidate>, limit: nat,
                           effect: (Plans.CommandCandidate, Tree) -> Tree, t: Tree, r: Tree, ran: nat,
                           errors: seq<Problem>, started: seq<Plans.CommandCandidate>) {
    && ran == |started| && InTurn(commands, started) && r == Effects(effect, started, t)
    && (limit == 0 ==> forall c :: c in commands && c.argv != [] ==> Served(c, started, errors))
  }

  lemma NoneRan(commands: seq<Plans.CommandCandidate>, limit: nat, effect: (Plans.CommandCandidate, Tree) -> Tree,
                t: Tree, r: Tree, ran: nat, errors: seq<Problem>, started: seq<Plans.CommandCandidate>)
    requires RanThese(commands, limit, effect, t, r, ran, errors, started)
    ensures ran == 0 ==> r == t
  {
  }

  lemma CommandsRanAmong(commands: seq<Plans.CommandCandidate>, limit: nat,
                         effect: (Plans.CommandCandidate, Tree) -> Tree, t: Tree, r: Tree, ran: nat,
                         errors: seq<Problem>, started: seq<Plans.CommandCandidate>, more: seq<Problem>)
    requires RanThese(commands, limit, effect, t, r, ran, errors, started) && forall x :: x in errors ==> x in more
    ensures CommandsRan(commands, limit, effect, t, r, ran, more)
  {
    assert RanThese(commands, limit, effect, t, r, ran, more, started);
  }

  /** Runs the tools' own collectors, lowest tier first. */
  method RunCommandRules(disk: Disk, commands: seq<Plans.CommandCandidate>, budget: TimeBudget,
                         effect: (Plans.CommandCandidate, Tree) -> Tree)
    returns (ran: nat, errors: seq<Problem>, ghost started: seq<Plans.CommandCandidate>)
    requires WellFormed(disk.tree) && Sane(effect)
    modifies budget, disk`tree
    ensures WellFormed(disk.tree)
    ensures ran == |started| <= |commands| && |errors| <= |commands|
    ensures RanThese(commands, budget.limit, effect, old(disk.tree), disk.tree, ran, errors, started)
    // Once the budget is spent none is started.
    ensures old(budget.Spent()) ==> started == [] && errors == []
  {
    hide WellFormed, SortBy, ByTier, InTurn, TakenAt, Effects;
    ran, errors, started := 0, [], [];
    var sorted := SortBy(commands, ByTier);
    SortMembers(commands, ByTier);
    ghost var at: seq<nat> := [];
    NoneTaken(sorted);
    NoEffects(effect, disk.tree);
    for i := 0 to |sorted|
      invariant ran == |started| == |at| <= i && |errors| <= i
      invariant old(budget.Spent()) ==> i == 0 && budget.Spent()
      invariant TakenAt(sorted, i, at, started) && TakenAt(sorted, |sorted|, at, started)
      invariant WellFormed(disk.tree) && disk.tree == Effects(effect, started, old(disk.tree))
      invariant forall c :: c in sorted[..i] && c.argv != [] ==> Served(c, started, errors)
    {
      var spent := budget.Exhausted();
      if spent {
        break;
      }
      assert sorted[..i + 1] == sorted[..i] + [sorted[i]];
      OneMoreTaken(sorted, i, at, started);
      if sorted[i].argv == [] {
        continue;
      }
      var starts, clean := *, *;
      if starts {
        OneMoreEffect(effect, started, sorted[i], old(disk.tree));
        disk.tree := effect(sorted[i], disk.tree);
        ran, started, at := ran + 1, started + [sorted[i]], at + [i];
      }
      if !starts || !clean {
        errors := errors + [CommandFailed(sorted[i].rule)];
      }
    }
    TurnsTaken(commands, at, started);
    assert budget.limit == 0 ==> sorted[..|sorted|] == sorted;
  }

  // ------------------------------------------------------------- the whole sweep

  datatype Report = Report(
    rows: seq<Row>, selected: nat, rejected: nat, selectedBytes: nat, reclaimedBytes: nat,
    commandsRun: nat, applied: bool, timedOut: bool, errors: seq<Problem>)

  datatype Ending = Declined | Finished(code: int, report: Report)

  /** What planning and judging handed over. */
  datatype Selection = Selection(judged: seq<Judged>, commands: seq<Plans.CommandCandidate>, walkErrors: seq<Path>)

  /** A row for every candidate, in order: what was judged of it, and whether its rename succeeded. */
  ghost predicate Shown(judged: seq<Judged>, attempts: seq<Attempt>, rows: seq<Row>) {
    && |rows| == |judged|
    && forall i :: 0 <= i < |rows| ==>
         && rows[i].candidate == judged[i].candidate
         && rows[i].selected == judged[i].decision.selected
         && rows[i].rejectedBy == judged[i].decision.rejectedBy
         && (rows[i].reclaimed <==> Attempt(i, true) in attempts)
  }

  /** Rows, counts and bytes agree with the attempts made: bytes are promised for all that was selected, and reclaimed
      for what was moved. */
  ghost predicate Accounted(judged: seq<Judged>, attempts: seq<Attempt>, r: Report) {
    && Shown(judged, attempts, r.rows)
    && Indices(attempts) <= SelectedIndices(judged)
    && r.reclaimedBytes == SumOver(judged, MovedPlaces(attempts)) <= r.selectedBytes
    && r.selectedBytes == SumOver(judged, SelectedIndices(judged))
    && r.selected == |SelectedIndices(judged)| && r.selected + r.rejected == |judged|
  }

  /** A row says reclaimed exactly when that candidate's rename succeeded, and then it was selected. */
  lemma ReclaimedExactly(judged: seq<Judged>, attempts: seq<Attempt>, r: Report, i: nat)
    requires Accounted(judged, attempts, r) && i < |judged|
    ensures |r.rows| == |judged| && (r.rows[i].reclaimed <==> Attempt(i, true) in attempts)
    ensures r.rows[i].reclaimed ==> r.rows[i].selected
  {
    hide SumOver, MovedPlaces;
    if r.rows[i].reclaimed { AttemptsSelected(judged, attempts, i); }
  }

  lemma AttemptsSelected(judged: seq<Judged>, attempts: seq<Attempt>, i: nat)
    requires Indices(attempts) <= SelectedIndices(judged) && Attempt(i, true) in attempts
    ensures i < |judged| && Picked(judged[i])
  {
    hide SelectedIndices;
    var k :| 0 <= k < |attempts| && attempts[k] == Attempt(i, true);
    assert Indices(attempts)[k] == SelectedIndices(judged)[k];
    assert SelectedIndices(judged)[k] in SelectedIndices(judged);
  }

  lemma {:induction false} CountSelected(judged: seq<Judged>, attempts: seq<Attempt>)
    ensures Count(RowsOf(judged, attempts), IsSelected) == |SelectedIndices(judged)|
    ensures |SelectedIndices(judged)| <= |judged| == |RowsOf(judged, attempts)|
  {
    var rows := RowsOf(judged, attempts);
    if judged != [] {
      var n := |judged| - 1;
      CountSelected(judged[..n], attempts);
      assert rows == RowsOf(judged[..n], attempts) + [rows[n]];
      CountConcat(RowsOf(judged[..n], attempts), [rows[n]], IsSelected);
    }
  }

  lemma AccountedFor(judged: seq<Judged>, attempts: seq<Attempt>, r: Report)
    requires Indices(attempts) <= SelectedIndices(judged) && r.rows == RowsOf(judged, attempts)
    requires r.reclaimedBytes == SumOver(judged, MovedPlaces(attempts)) && r.selectedBytes == SelectedBytes(judged)
    requires r.selected == Count(r.rows, IsSelected) && r.rejected == |r.rows| - r.selected
    ensures Accounted(judged, attempts, r) && (r.selected == 0 <==> SelectedIndices(judged) == [])
  {
    hide SumOver, MovedPlaces, Count, SelectedIndices, Indices;
    CountSelected(judged, attempts);
    SelectedSum(judged);
    ReclaimedWithinSelected(judged, attempts);
  }

  /** A drain changes nothing outside quarantine, and a clean one leaves quarantine empty. */
  lemma DrainedAway(q: Path, t: Tree, r: Tree, staged: seq<Path>)
    requires PrunedAll(q, t, r, staged) && forall i :: 0 <= i < |staged| ==> IsDest(q, staged[i])
    ensures SameOutside(q, t, r)
    ensures Owned(q, t, staged) && NoneLeft(r, staged) ==> Cleared(q, r)
  {
    assert q < ManifestPath(q);
    forall x | x in staged ensures q < x { DestNotManifest(q, x); }
    forall p | !(q < p) && p in t ensures p in r {
      assert forall x :: x in staged ==> !(x <= p);
    }
  }

  lemma GoneAway(q: Path, t0: Tree, t1: Tree, tops: set<Path>, t2: Tree)
    requires GoneFrom(q, t0, {}, t1) && GoneAll(q, t1, tops, t2)
    ensures GoneFrom(q, t0, tops, t2)
  {
  }

  lemma SameAway(q: Path, t0: Tree, tops: set<Path>, t1: Tree, t2: Tree)
    requires GoneAll(q, t0, tops, t1) && SameOutside(q, t1, t2)
    ensures GoneAll(q, t0, tops, t2)
  {
  }

  /** What each exit code tells a scheduler. */
  ghost predicate CodeMeans(code: int, apply: bool, dryRun: bool, clean: bool, sel: Selection) {
    && code in {0, 2, 3, 4}
    && (code == 2 <==> apply && dryRun)
    && (code == 4 <==> apply && !dryRun && !clean)
    && (code == 3 <==>
          !(apply && dryRun) && (apply ==> clean) && SelectedIndices(sel.judged) == [] && sel.commands == [])
  }

  ghost predicate Tells(sel: Selection, attempts: seq<Attempt>, errors: seq<Problem>) {
    && (forall p :: p in sel.walkErrors ==> Unwalked(p) in errors)
    && (forall i :: 0 <= i < |sel.judged| && Attempt(i, false) in attempts ==>
          Unstaged(sel.judged[i].candidate.path) in errors)
  }

  lemma ToldAll(sel: Selection, attempts: seq<Attempt>, leftover: seq<Problem>, unstaged: seq<Problem>,
                more: seq<Problem>)
    requires Complaints(sel.judged, attempts, unstaged)
    ensures Tells(sel, attempts, Unwalkable(sel.walkErrors) + leftover + unstaged + more)
  {
    var walk := Unwalkable(sel.walkErrors);
    forall p | p in sel.walkErrors ensures Unwalked(p) in walk {
      var i :| 0 <= i < |sel.walkErrors| && sel.walkErrors[i] == p;
      assert walk[i] == Unwalked(p);
    }
  }

  lemma NothingAttempted(s: Setup, sel: Selection, t: Tree, log: seq<Event>)
    ensures Ran(s, t, log, t, log) && StagingAttempts(Since(log, log)) == [] == Renames(sel.judged, [])
    ensures SumOver(sel.judged, MovedPlaces([])) == 0 && Indices([]) <= SelectedIndices(sel.judged)
    ensures Tells(sel, [], Unwalkable(sel.walkErrors))
    ensures AllSucceeded([]) && (Unwalkable(sel.walkErrors) == [] <==> sel.walkErrors == [])
    ensures forall r :: r in RowsOf(sel.judged, []) ==> !r.reclaimed
  {
    RanNothing(s, t, log);
    NoComplaints(sel.judged);
    ToldAll(sel, [], [], [], []);
    assert Unwalkable(sel.walkErrors) + [] + [] + [] == Unwalkable(sel.walkErrors);
  }

  lemma ExecutorDests(ex: Executor)
    requires ex.Valid()
    ensures Ready(ex.q, ex.disk.tree) && WellFormed(ex.disk.tree)
    ensures ManifestPath(ex.q) in ex.disk.tree && ex.disk.tree[ManifestPath(ex.q)].File?
    ensures forall i :: 0 <= i < |ex.staged| ==> IsDest(ex.q, ex.staged[i]) && ex.staged[i] != []
  {
  }

  /** Stages the selected candidates and removes what was staged. Its log, cut off after any number of attempts, is one
      the next run picks up from. */
  method StageAndDrain(ex: Executor, budget: TimeBudget, judged: seq<Judged>, ghost s: Setup)
    returns (rows: seq<Row>, bytes: nat, unstaged: seq<Problem>, timedOut: bool, stats: Removal.RemoveStats,
             ghost attempts: seq<Attempt>, ghost m: nat)
    requires ex.Valid() && ex.staged == [] && s.q == ex.q && ValidSetup(s) && Sweepable(s, judged)
    modifies ex, ex.disk, ex.process, budget
    ensures ex.Valid() && old(ex.disk.faults) <= ex.disk.faults
    ensures Moving(s, judged, attempts, old(ex.disk.tree), old(ex.disk.log), ex.disk.tree, ex.disk.log)
    ensures rows == RowsOf(judged, attempts) && bytes == SumOver(judged, MovedPlaces(attempts))
    ensures if timedOut then budget.limit != 0 && Indices(attempts) < SelectedIndices(judged)
            else Indices(attempts) == SelectedIndices(judged)
    ensures (unstaged == [] <==> AllSucceeded(attempts)) && Complaints(judged, attempts, unstaged)
    ensures old(ex.disk.log) <= ex.disk.log
            && Reported(Since(old(ex.disk.log), ex.disk.log), Unremovable(stats.errors))
    // From a quarantine that held nothing else, a clean drain ends with an empty one, whenever the run was killed and
    // recovered or was not.
    ensures Cleared(ex.q, old(ex.disk.tree)) && stats.errors == [] ==>
              && old(ex.disk.log) <= ex.disk.log && Cleared(ex.q, ex.disk.tree)
              && StagedAndDrained(s, old(ex.disk.tree), Since(old(ex.disk.log), ex.disk.log), m)
    ensures ex.disk.faults == old(ex.disk.faults) ==>
              stats.errors == [] && ManifestPath(ex.q) in ex.disk.tree && ex.disk.tree[ManifestPath(ex.q)] == File([])
  {
    hide *;
    ghost var t0, log0 := ex.disk.tree, ex.disk.log;
    ExecutorDests(ex);
    rows, bytes, unstaged, timedOut, attempts := StageAll(ex, budget, judged, s);
    ghost var t1, log1 := ex.disk.tree, ex.disk.log;
    MovingLog(s, judged, attempts, t0, log0, t1, log1);
    m := |log1| - |log0|;
    ExecutorDests(ex);
    stats := ex.Drain(s);
    ReportedNone(Since(log0, log1), Unremovable(stats.errors));
    ReportedUnremovable(Since(log1, ex.disk.log), stats);
    ReportedLater(log0, log1, ex.disk.log, Unremovable(stats.errors));
    ExecutorDests(ex);
    DrainedAway(ex.q, t1, ex.disk.tree, ex.staged);
    MovingOn(s, judged, attempts, t0, log0, t1, log1, ex.disk.tree, ex.disk.log);
    if Cleared(ex.q, t0) && stats.errors == [] {
      PickUpFrom(s, judged, attempts, t0, log0, t1, log1, ex.disk.tree, ex.disk.log);
    }
  }

  lemma MovingOn(s: Setup, judged: seq<Judged>, attempts: seq<Attempt>, t0: Tree, log0: seq<Event>,
                 t1: Tree, log1: seq<Event>, t2: Tree, log2: seq<Event>)
    requires Moving(s, judged, attempts, t0, log0, t1, log1) && RanQuietly(s, t1, log1, t2, log2)
    requires SameOutside(s.q, t1, t2)
    ensures Moving(s, judged, attempts, t0, log0, t2, log2)
  {
    hide LawfulLog, StagingAttempts, Replay, Renames, Taken, Since, RanQuietly, GoneAll, SameOutside;
    QuietMeans(s, t1, log1, t2, log2);
    RanTransitive(s, t0, log0, t1, log1, t2, log2);
    StagingConcat(Since(log0, log1), Since(log1, log2));
    SameAway(s.q, t0, Taken(judged, attempts), t1, t2);
  }

  lemma PickUpFrom(s: Setup, judged: seq<Judged>, attempts: seq<Attempt>, t0: Tree, log0: seq<Event>,
                   t1: Tree, log1: seq<Event>, t2: Tree, log2: seq<Event>)
    requires Moving(s, judged, attempts, t0, log0, t1, log1) && RanQuietly(s, t1, log1, t2, log2)
    requires Moving(s, judged, attempts, t0, log0, t2, log2) && Ready(s.q, t0) && Cleared(s.q, t2)
    ensures log0 <= log1 && log0 <= log2
    ensures StagedAndDrained(s, t0, Since(log0, log2), |log1| - |log0|)
  {
    hide LawfulLog, StagingAttempts, Replay, Renames, Taken, GoneAll, Ready, Cleared, NothingMade, Quiet;
    assert Since(log0, log2)[|log1| - |log0|..] == Since(log1, log2);
  }

  /** What the armed part of a sweep hands to the report. */
  datatype Reclaimed = Reclaimed(rows: seq<Row>, bytes: nat, commandsRun: nat, timedOut: bool, errors: seq<Problem>)

  /** Quarantine is empty, with an empty manifest. */
  ghost predicate Emptied(q: Path, t: Tree) {
    Cleared(q, t) && ManifestPath(q) in t && t[ManifestPath(q)] == File([])
  }

  lemma MovingMeans(s: Setup, judged: seq<Judged>, attempts: seq<Attempt>, t0: Tree, log0: seq<Event>, t: Tree,
                    log: seq<Event>)
    requires Moving(s, judged, attempts, t0, log0, t, log)
    ensures Ran(s, t0, log0, t, log) && GoneAll(s.q, t0, Taken(judged, attempts), t)
    ensures StagingAttempts(Since(log0, log)) == Renames(judged, attempts)
  {
  }

  lemma NowEmptied(q: Path, t: Tree)
    requires Cleared(q, t) && ManifestPath(q) in t && t[ManifestPath(q)] == File([])
    ensures Emptied(q, t)
  {
  }

  /** The armed part of a sweep; `None` is the refusal to go on without a usable quarantine. `drained` is the tree
      before the command rules, which come last. */
  method Reclaim(disk: Disk, process: Quarantine.Process, maxRun: nat, q: Path, roots: seq<Path>, sel: Selection,
                 effect: (Plans.CommandCandidate, Tree) -> Tree, ghost s: Setup)
    returns (r: Option<Reclaimed>, ghost attempts: seq<Attempt>, ghost drained: Tree, ghost tried: seq<Path>)
    requires WellFormed(disk.tree) && ValidSetup(s) && s.q == q && forall r :: r in roots ==> r in s.roots
    requires Sweepable(s, sel.judged) && Sane(effect)
    modifies disk, process
    ensures WellFormed(disk.tree) && old(disk.faults) <= disk.faults
    ensures Ran(s, old(disk.tree), old(disk.log), drained, disk.log)
    ensures (r.Some? ==> r.value.commandsRun == 0) ==> disk.tree == drained
    ensures StagingAttempts(Since(old(disk.log), disk.log)) == Renames(sel.judged, attempts)
    ensures r.None? ==> attempts == []
    ensures r.Some? ==>
            r.value.rows == RowsOf(sel.judged, attempts) && r.value.bytes == SumOver(sel.judged, MovedPlaces(attempts))
    ensures r.Some? ==> r.value.commandsRun <= |sel.commands|
    ensures r.Some? ==>
              CommandsRan(sel.commands, maxRun, effect, drained, disk.tree, r.value.commandsRun, r.value.errors)
    ensures r.Some? ==>
              if r.value.timedOut then maxRun != 0 && Indices(attempts) < SelectedIndices(sel.judged)
              else Indices(attempts) == SelectedIndices(sel.judged)
    ensures r.Some? && r.value.errors == [] ==> AllSucceeded(attempts) && sel.walkErrors == []
    ensures r.Some? ==> Tells(sel, attempts, r.value.errors)
    ensures r.Some? ==> old(disk.log) <= disk.log && Reported(Since(old(disk.log), disk.log), r.value.errors)
    ensures r.Some? ==> GoneFrom(q, old(disk.tree), Taken(sel.judged, attempts), drained)
    ensures r.Some? && disk.faults == old(disk.faults) ==> Emptied(q, drained)
    ensures TriedUnder(roots, tried) && (r.Some? ==> |tried| == |roots|)
    ensures disk.faults == old(disk.faults) ==> (r.None? <==> Barred(q, old(disk.tree), tried))
  {
    hide *;
    ghost var t0, log0 := disk.tree, disk.log;
    NothingAttempted(s, sel, t0, log0);
    var ex, leftover;
    ex, leftover, tried := Prepare(disk, process, q, roots, s);
    if ex == null {
      return None, [], disk.tree, tried;
    }
    var budget := new TimeBudget(maxRun);
    ghost var t1, log1 := disk.tree, disk.log;
    var rows, bytes, unstaged, timedOut, stats;
    ghost var m;
    rows, bytes, unstaged, timedOut, stats, attempts, m := StageAndDrain(ex, budget, sel.judged, s);
    drained := disk.tree;
    MovingMeans(s, sel.judged, attempts, t1, log1, drained, disk.log);
    RanOnFrom(s, t0, log0, t1, log1, drained, disk.log);
    GoneAway(q, t0, t1, Taken(sel.judged, attempts), drained);
    if disk.faults == old(disk.faults) { NowEmptied(q, drained); }
    ExecutorDests(ex);
    var commandsRun, failed;
    ghost var started;
    commandsRun, failed, started := RunCommandRules(disk, sel.commands, budget, effect);
    NoneRan(sel.commands, maxRun, effect, drained, disk.tree, commandsRun, failed, started);
    var last := Unremovable(stats.errors) + failed;
    ToldAll(sel, attempts, leftover, unstaged, last);
    var errors := Unwalkable(sel.walkErrors) + leftover + unstaged + last;
    ReportedAmong(Since(log0, log1), leftover, errors);
    ReportedAmong(Since(log1, disk.log), Unremovable(stats.errors), errors);
    ReportedLater(log0, log1, disk.log, errors);
    CommandsRanAmong(sel.commands, maxRun, effect, drained, disk.tree, commandsRun, failed, started, errors);
    r := Some(Reclaimed(rows, bytes, commandsRun, timedOut, errors));
  }

  method Execute(disk: Disk, process: Quarantine.Process, maxRun: nat, q: Path, roots: seq<Path>, sel: Selection,
                 apply: bool, dryRun: bool, effect: (Plans.CommandCandidate, Tree) -> Tree, ghost s: Setup)
    returns (end: Ending, ghost attempts: seq<Attempt>, ghost drained: Tree, ghost tried: seq<Path>)
    requires WellFormed(disk.tree) && ValidSetup(s) && s.q == q && forall r :: r in roots ==> r in s.roots
    requires Sweepable(s, sel.judged) && Sane(effect)
    modifies disk, process
    ensures WellFormed(disk.tree) && old(disk.faults) <= disk.faults
    // Without both opt-ins nothing is even attempted.
    ensures !(apply && !dryRun) ==>
              end.Finished? && attempts == [] && disk.tree == old(disk.tree) == drained && disk.log == old(disk.log)
    // The log shows exactly the attempts reported, and nothing a run may not do; what comes after is the commands'.
    ensures Ran(s, old(disk.tree), old(disk.log), drained, disk.log)
    ensures (end.Finished? ==> end.report.commandsRun == 0) ==> disk.tree == drained
    ensures StagingAttempts(Since(old(disk.log), disk.log)) == Renames(sel.judged, attempts)
    ensures end.Declined? ==> attempts == []
    ensures end.Finished? ==> Accounted(sel.judged, attempts, end.report) && end.report.commandsRun <= |sel.commands|
    // Selected candidates are left untried only when the budget ran out.
    ensures end.Finished? && apply && !dryRun && !end.report.timedOut ==>
            Indices(attempts) == SelectedIndices(sel.judged)
    ensures end.Finished? && end.report.timedOut ==> maxRun != 0 && Indices(attempts) < SelectedIndices(sel.judged)
    ensures end.Finished? ==>
              end.report.applied == (end.report.commandsRun > 0 || exists r :: r in end.report.rows && r.reclaimed)
    ensures end.Finished? && end.report.errors == [] ==> AllSucceeded(attempts) && sel.walkErrors == []
    // No path that could not be read, no attempt that failed and no removal that failed goes unsaid.
    ensures end.Finished? ==> Tells(sel, attempts, end.report.errors)
    ensures end.Finished? ==>
              old(disk.log) <= disk.log && Reported(Since(old(disk.log), disk.log), end.report.errors)
    // The commands come last, and what they make of the tree is their own.
    ensures end.Finished? && apply && !dryRun ==>
              CommandsRan(sel.commands, maxRun, effect, drained, disk.tree, end.report.commandsRun, end.report.errors)
    // Exit codes.
    ensures end.Finished? ==> CodeMeans(end.code, apply, dryRun, end.report.errors == [], sel)
    // Whatever fails, outside quarantine a run that finishes takes nothing but the reclaimed trees; without faults it
    // leaves quarantine empty.
    ensures end.Finished? && apply && !dryRun ==> GoneFrom(q, old(disk.tree), Taken(sel.judged, attempts), drained)
    ensures end.Finished? && apply && !dryRun && disk.faults == old(disk.faults) ==> Emptied(q, drained)
    // It is refused only when armed, and without faults only where quarantine or a root is in the way.
    ensures TriedUnder(roots, tried) && (end.Declined? ==> apply && !dryRun)
    ensures end.Finished? && apply && !dryRun ==> |tried| == |roots|
    ensures apply && !dryRun && disk.faults == old(disk.faults) ==>
              (end.Declined? <==> Barred(q, old(disk.tree), tried))
  {
    hide SumOver, MovedPlaces, SelectedBytes, Tells, RowsOf, Indices, SelectedIndices, Renames, Taken, GoneFrom,
      Emptied, Barred, TriedUnder, AllSucceeded, Sweepable, Unwalkable, Ran, Since, StagingAttempts, WellFormed,
      Ready, ValidSetup, Count, Accounted, IsSelected, Sane, Reported, NothingRemoved, CommandsRan;
    var gate := GateOf(apply, dryRun);
    var judged := sel.judged;
    var done := Reclaimed(RowsOf(judged, []), 0, 0, false, Unwalkable(sel.walkErrors));
    var partial := false;
    attempts, drained, tried := [], disk.tree, [];
    NoneTried(roots);
    NothingAttempted(s, sel, disk.tree, disk.log);
    RemovedNone(disk.log, Since(disk.log, disk.log));
    ReportedNone(Since(disk.log, disk.log), done.errors);
    if gate.Armed? {
      var r;
      r, attempts, drained, tried := Reclaim(disk, process, maxRun, q, roots, sel, effect, s);
      if r.None? {
        return Declined, [], drained, tried;
      }
      done := r.value;
      partial := done.errors != [];
    }
    CountSelected(judged, attempts);
    var rows, selected := done.rows, Count(done.rows, IsSelected);
    var applied := done.commandsRun > 0 || exists r :: r in rows && r.reclaimed;
    var report := Report(rows, selected, |rows| - selected, SelectedBytes(judged), done.bytes, done.commandsRun,
                         applied, done.timedOut, done.errors);
    AccountedFor(judged, attempts, report);
    var code :=
      if gate.ConfigStillDry? then CONFIG
      else if partial then PARTIAL
      else if selected == 0 && sel.commands == [] then NOTHING_TO_DO
      else SUCCESS;
    end := Finished(code, report);
  }
}

/** Escalating through the tiers until enough space is free. */
module Escalations {
  import opened Paths
  import opened FileSystem
  import opened Options
  import opened CrashSafety
  import opened Worlds
  import opened Sweeps
  import Disks
  import Guards
  import Plans
  import Quarantine
  import Rules

  // ------------------------------------------------------------- one code for many tiers

  /** How much a code says about a run as a whole. */
  function Rank(code: int): nat {
    if code == CONFIG then 4
    else if code == INTERNAL then 3
    else if code == PARTIAL then 2
    else if code == SUCCESS then 1
    else 0
  }

  function Combine(a: int, b: int): int {
    if Rank(b) > Rank(a) then b else a
  }

  predicate Defined(code: int) {
    SUCCESS <= code <= PARTIAL
  }

  /** Folding codes is a join: its order does not matter, repeats do not matter, and "nothing to do" is its unit. */
  lemma CombineIsJoin(a: int, b: int, c: int)
    requires Defined(a) && Defined(b) && Defined(c)
    ensures Combine(Combine(a, b), c) == Combine(a, Combine(b, c))
    ensures Combine(a, b) == Combine(b, a) && Combine(a, a) == a
    ensures Combine(NOTHING_TO_DO, a) == a == Combine(a, NOTHING_TO_DO)
    ensures Rank(a) == Rank(b) ==> a == b
  {
  }

  /** The code reported for tiers that ended with these codes. */
  function Fold(codes: seq<int>): int {
    if codes == [] then NOTHING_TO_DO else Combine(Fold(codes[..|codes| - 1]), codes[|codes| - 1])
  }

  /** It is the most significant of them; only empty passes add up to nothing to do. */
  lemma {:induction false} FoldIsMaximum(codes: seq<int>)
    requires forall c :: c in codes ==> Defined(c)
    ensures codes != [] ==> Fold(codes) in codes
    ensures forall c :: c in codes ==> Rank(c) <= Rank(Fold(codes))
    ensures Fold(codes) == NOTHING_TO_DO <==> forall c :: c in codes ==> c == NOTHING_TO_DO
  {
    hide Fold, Combine, Rank, Defined;
    if codes == [] {
      FoldNothing();
    } else {
      var earlier, last := codes[..|codes| - 1], codes[|codes| - 1];
      assert codes == earlier + [last];
      FoldIsMaximum(earlier);
      FoldSnoc(earlier, last);
      CombineIsLarger(Fold(earlier), last);
      assert forall c :: c in codes <==> c in earlier || c == last;
    }
  }

  /** What a scheduler is told of several tiers: 2 (configuration) if any said so, else 1 (internal error), else 4
      (partly failed), else 0 (work was done), and 3 (nothing to do) only if none of these was said. */
  ghost predicate MostSignificant(codes: seq<int>, code: int) {
    && code in {0, 1, 2, 3, 4}
    && (code == 2 <==> 2 in codes)
    && (code == 1 <==> 1 in codes && 2 !in codes)
    && (code == 4 <==> 4 in codes && 2 !in codes && 1 !in codes)
    && (code == 0 <==> 0 in codes && 2 !in codes && 1 !in codes && 4 !in codes)
  }

  lemma {:induction false} FoldIsMostSignificant(codes: seq<int>)
    ensures MostSignificant(codes, Fold(codes))
  {
    if codes != [] {
      var earlier, last := codes[..|codes| - 1], codes[|codes| - 1];
      assert codes == earlier + [last];
      FoldIsMostSignificant(earlier);
      assert forall c :: c in codes <==> c in earlier || c == last;
    }
  }

  lemma CombineIsLarger(a: int, b: int)
    requires (a == NOTHING_TO_DO || Defined(a)) && Defined(b)
    ensures Combine(a, b) == b || (Combine(a, b) == a && (a == NOTHING_TO_DO ==> b == NOTHING_TO_DO))
    ensures Rank(a) <= Rank(Combine(a, b)) && Rank(b) <= Rank(Combine(a, b))
    ensures Combine(a, b) == NOTHING_TO_DO <==> a == NOTHING_TO_DO && b == NOTHING_TO_DO
  {
  }

  ghost predicate AllIdle(codes: seq<int>) {
    forall c :: c in codes ==> c == NOTHING_TO_DO
  }

  ghost predicate AllDefined(codes: seq<int>) {
    forall c :: c in codes ==> Defined(c)
  }

  lemma FoldNothing()
    ensures Fold([]) == NOTHING_TO_DO
  {
  }

  lemma FoldSnoc(codes: seq<int>, code: int)
    ensures Fold(codes + [code]) == Combine(Fold(codes), code)
  {
    assert (codes + [code])[..|codes|] == codes;
  }

  // ------------------------------------------------------------- the tiers

  /** One tier's own part of the run: from the tree it found to the one its drain left. */
  datatype Leg = Leg(before: Tree, log0: seq<Event>, after: Tree, log: seq<Event>)

  /** Every tier ran lawfully, one after another; between them the tree is the command rules'. */
  ghost predicate Legs(s: Setup, legs: seq<Leg>, log0: seq<Event>, log: seq<Event>) {
    && (forall leg :: leg in legs ==> Ran(s, leg.before, leg.log0, leg.after, leg.log))
    && (forall i :: 0 <= i < |legs| - 1 ==> legs[i].log == legs[i + 1].log0)
    && (if legs == [] then log == log0 else legs[0].log0 == log0 && legs[|legs| - 1].log == log)
  }

  /** What a tier that ended planned, attempted and reported. */
  datatype TierRun = TierRun(plan: Plans.Plan, judged: seq<Judged>, attempts: seq<Attempt>, report: Report)
  {
    function Selection(): Selection {
      Sweeps.Selection(judged, plan.commands, plan.walkErrors)
    }
  }

  /** What every tier is run with. */
  datatype Settings = Settings(q: Path, cfg: Rules.Config, os: string, maxRun: nat, apply: bool, dryRun: bool)
  {
    predicate Armed() {
      apply && !dryRun
    }
  }

  /** The tier was planned and judged on the tree it found, and it did and reported what `code` says. */
  ghost predicate TierRan(s: Setup, g: Settings, w: World, tier: nat, ctx: Guards.GuardContext, code: int,
                          run: TierRun, leg: Leg) {
    && JudgedFor(w.(tree := leg.before), g.cfg, g.os, tier, ctx, run.plan, run.judged)
    && CodeMeans(code, g.apply, g.dryRun, run.report.errors == [], run.Selection())
    && Accounted(run.judged, run.attempts, run.report)
    && Ran(s, leg.before, leg.log0, leg.after, leg.log)
    && StagingAttempts(Since(leg.log0, leg.log)) == Renames(run.judged, run.attempts)
    && (g.Armed() && !run.report.timedOut ==> Indices(run.attempts) == SelectedIndices(run.judged))
    && (run.report.timedOut ==> g.maxRun != 0 && Indices(run.attempts) < SelectedIndices(run.judged))
    && (if g.Armed() then GoneFrom(g.q, leg.before, Taken(run.judged, run.attempts), leg.after)
        else leg.after == leg.before && leg.log == leg.log0 && run.attempts == [])
  }

  /** Every tier that ended did so, each on the tree the one before left, its command rules aside. */
  ghost predicate TiersRan(s: Setup, g: Settings, seen: seq<World>, ctx: seq<Guards.GuardContext>,
                           codes: seq<int>, runs: seq<TierRun>, legs: seq<Leg>) {
    && |codes| == |runs| <= |legs| && |codes| <= |seen| && |codes| <= |ctx|
    && (forall t :: 0 <= t < |codes| ==> TierRan(s, g, seen[t], t, ctx[t], codes[t], runs[t], legs[t]))
    && (forall t :: 0 <= t < |legs| - 1 && t < |runs| && runs[t].report.commandsRun == 0 ==>
          legs[t + 1].before == legs[t].after)
  }

  /** Where the tiers run so far have left the tree. */
  ghost predicate LeftAt(t0: Tree, runs: seq<TierRun>, legs: seq<Leg>, t: Tree) {
    && (if legs == [] then t == t0 else legs[0].before == t0)
    && (legs != [] && |runs| == |legs| && runs[|runs| - 1].report.commandsRun == 0 ==> t == legs[|legs| - 1].after)
  }

  lemma NoTiers(s: Setup, g: Settings, seen: seq<World>, ctx: seq<Guards.GuardContext>, t0: Tree)
    ensures TiersRan(s, g, seen, ctx, [], [], []) && LeftAt(t0, [], [], t0)
  {
  }

  lemma OneMoreTier(s: Setup, g: Settings, seen: seq<World>, ctx: seq<Guards.GuardContext>, codes: seq<int>,
                    runs: seq<TierRun>, legs: seq<Leg>, code: int, run: TierRun, leg: Leg, t0: Tree, t: Tree)
    requires TiersRan(s, g, seen, ctx, codes, runs, legs) && |codes| == |legs| && |codes| < |seen| && |codes| < |ctx|
    requires LeftAt(t0, runs, legs, leg.before)
    requires TierRan(s, g, seen[|codes|], |codes|, ctx[|codes|], code, run, leg)
    requires run.report.commandsRun == 0 ==> t == leg.after
    ensures TiersRan(s, g, seen, ctx, codes + [code], runs + [run], legs + [leg])
    ensures LeftAt(t0, runs + [run], legs + [leg], t)
  {
    hide TierRan;
  }

  lemma RefusedTier(s: Setup, g: Settings, seen: seq<World>, ctx: seq<Guards.GuardContext>, codes: seq<int>,
                    runs: seq<TierRun>, legs: seq<Leg>, leg: Leg, t0: Tree, t: Tree)
    requires TiersRan(s, g, seen, ctx, codes, runs, legs) && |codes| == |legs|
    requires LeftAt(t0, runs, legs, leg.before)
    ensures TiersRan(s, g, seen, ctx, codes, runs, legs + [leg]) && LeftAt(t0, runs, legs + [leg], t)
  {
    hide TierRan;
  }

  lemma TierEnds(s: Setup, g: Settings, w: World, tier: nat, ctx: Guards.GuardContext, code: int, run: TierRun,
                 leg: Leg)
    requires JudgedFor(w.(tree := leg.before), g.cfg, g.os, tier, ctx, run.plan, run.judged)
    requires CodeMeans(code, g.apply, g.dryRun, run.report.errors == [], run.Selection())
    requires Accounted(run.judged, run.attempts, run.report)
    requires Ran(s, leg.before, leg.log0, leg.after, leg.log)
    requires StagingAttempts(Since(leg.log0, leg.log)) == Renames(run.judged, run.attempts)
    requires g.Armed() && !run.report.timedOut ==> Indices(run.attempts) == SelectedIndices(run.judged)
    requires run.report.timedOut ==> g.maxRun != 0 && Indices(run.attempts) < SelectedIndices(run.judged)
    requires if g.Armed() then GoneFrom(g.q, leg.before, Taken(run.judged, run.attempts), leg.after)
             else leg.after == leg.before && leg.log == leg.log0 && run.attempts == []
    ensures TierRan(s, g, w, tier, ctx, code, run, leg)
  {
  }

  /** What the tiers run so far attempted. */
  ghost predicate Escalated(s: Setup, armed: bool, codes: seq<int>, legs: seq<Leg>, log0: seq<Event>, log: seq<Event>) {
    && AllDefined(codes) && Legs(s, legs, log0, log) && log0 <= log
    && (!armed ==> log == log0)
    && (AllIdle(codes) ==> StagingAttempts(Since(log0, log)) == [])
  }

  lemma NotEscalated(s: Setup, armed: bool, log: seq<Event>)
    ensures Escalated(s, armed, [], [], log, log)
  {
  }

  lemma OneMoreLeg(s: Setup, legs: seq<Leg>, log0: seq<Event>, leg: Leg)
    requires Legs(s, legs, log0, leg.log0) && Ran(s, leg.before, leg.log0, leg.after, leg.log)
    ensures Legs(s, legs + [leg], log0, leg.log)
  {
    hide Ran;
  }

  lemma StagedSince(log0: seq<Event>, log1: seq<Event>, log2: seq<Event>)
    requires log0 <= log1 <= log2
    ensures log0 <= log2
    ensures StagingAttempts(Since(log0, log2))
            == StagingAttempts(Since(log0, log1)) + StagingAttempts(Since(log1, log2))
  {
    assert Since(log0, log2) == Since(log0, log1) + Since(log1, log2);
    StagingConcat(Since(log0, log1), Since(log1, log2));
  }

  lemma AccountedPrefix(judged: seq<Judged>, attempts: seq<Attempt>, r: Report)
    requires Accounted(judged, attempts, r)
    ensures Indices(attempts) <= SelectedIndices(judged)
  {
  }

  lemma EscalatedOnce(s: Setup, g: Settings, codes: seq<int>, legs: seq<Leg>, log0: seq<Event>, leg: Leg, code: int,
                      run: TierRun, w: World, tier: nat, ctx: Guards.GuardContext)
    requires Escalated(s, g.Armed(), codes, legs, log0, leg.log0) && TierRan(s, g, w, tier, ctx, code, run, leg)
    ensures Escalated(s, g.Armed(), codes + [code], legs + [leg], log0, leg.log)
  {
    hide StagingAttempts, SelectedIndices, LawfulLog, Replay, Legs, JudgedFor, GoneFrom, Taken;
    OneMoreLeg(s, legs, log0, leg);
    StagedSince(log0, leg.log0, leg.log);
    AccountedPrefix(run.judged, run.attempts, run.report);
    assert forall c :: c in codes + [code] <==> c in codes || c == code;
    if AllIdle(codes + [code]) {
      assert code in codes + [code];
      assert |Indices(run.attempts)| == |run.attempts|;
    }
  }

  lemma RefusedLeg(s: Setup, armed: bool, codes: seq<int>, legs: seq<Leg>, log0: seq<Event>, leg: Leg)
    requires Escalated(s, armed, codes, legs, log0, leg.log0) && Ran(s, leg.before, leg.log0, leg.after, leg.log)
    ensures Legs(s, legs + [leg], log0, leg.log)
  {
    hide Ran, Legs;
    OneMoreLeg(s, legs, log0, leg);
  }

  lemma Escalates(s: Setup, armed: bool, codes: seq<int>, legs: seq<Leg>, log0: seq<Event>, log: seq<Event>)
    requires Escalated(s, armed, codes, legs, log0, log)
    ensures AllDefined(codes) && Legs(s, legs, log0, log) && log0 <= log && (!armed ==> log == log0)
    ensures Fold(codes) == NOTHING_TO_DO ==> AllIdle(codes) && StagingAttempts(Since(log0, log)) == []
    ensures MostSignificant(codes, Fold(codes))
  {
    hide StagingAttempts, Legs, MostSignificant;
    FoldIsMostSignificant(codes);
    FoldIsMaximum(codes);
  }

  /** Nothing was in the way of using quarantine from these roots. */
  ghost predicate Unbarred(q: Path, t: Tree, roots: seq<Path>) {
    exists tried :: TriedUnder(roots, tried) && |tried| == |roots| && !Barred(q, t, tried)
  }

  ghost predicate AllUnbarred(q: Path, roots: seq<Path>, legs: seq<Leg>) {
    forall leg :: leg in legs ==> Unbarred(q, leg.before, roots)
  }

  lemma NoneBarred(q: Path, roots: seq<Path>)
    ensures AllUnbarred(q, roots, [])
  {
  }

  lemma OneMoreUnbarred(q: Path, roots: seq<Path>, legs: seq<Leg>, leg: Leg, tried: seq<Path>)
    requires AllUnbarred(q, roots, legs)
    requires TriedUnder(roots, tried) && |tried| == |roots| && !Barred(q, leg.before, tried)
    ensures AllUnbarred(q, roots, legs + [leg])
  {
    hide TriedUnder, Barred;
  }

  /** One tier: plans, judges and sweeps. */
  method RunTier(disk: Disks.Disk, process: Quarantine.Process, roots: seq<Path>, g: Settings, w: World, tier: nat,
                 ctx: Guards.GuardContext, effect: (Plans.CommandCandidate, Tree) -> Tree, ghost s: Setup)
    returns (end: Ending, ghost run: TierRun, ghost leg: Leg, ghost tried: seq<Path>)
    requires WellFormed(disk.tree) && ValidSetup(s) && s.q == g.q && forall r :: r in roots ==> r in s.roots
    requires Plans.RootsDistinct(g.cfg.roots) && Sane(effect) && forall r :: r in ctx.roots ==> r in s.roots
    modifies disk, process
    ensures WellFormed(disk.tree) && old(disk.faults) <= disk.faults
    ensures leg.before == old(disk.tree) && leg.log0 == old(disk.log) && leg.log == disk.log
    ensures Ran(s, leg.before, leg.log0, leg.after, leg.log)
    ensures end.Finished? ==> run.report == end.report && TierRan(s, g, w, tier, ctx, end.code, run, leg)
    ensures end.Finished? && end.report.commandsRun == 0 ==> disk.tree == leg.after
    ensures TriedUnder(roots, tried) && (end.Declined? ==> g.Armed()) && (!g.Armed() ==> disk.log == old(disk.log))
    ensures end.Finished? && g.Armed() ==> |tried| == |roots|
    ensures g.Armed() && disk.faults == old(disk.faults) ==> (end.Declined? <==> Barred(g.q, leg.before, tried))
  {
    hide Sweepable, Ran, StagingAttempts, Since, WellFormed, ValidSetup, Accounted, Renames, AllSucceeded, CodeMeans,
      SelectedIndices, Indices, Sane, JudgedFor, Emptied, TierRan, GoneFrom, Taken, Barred, TriedUnder;
    ghost var t0, log0 := disk.tree, disk.log;
    var plan, judged := Select(w.(tree := disk.tree), g.cfg, g.os, tier, ctx, s);
    var sel := Selection(judged, plan.commands, plan.walkErrors);
    ghost var attempts, drained;
    end, attempts, drained, tried := Execute(disk, process, g.maxRun, g.q, roots, sel, g.apply, g.dryRun, effect, s);
    leg := Leg(t0, log0, drained, disk.log);
    run := *;
    if end.Finished? {
      run := TierRun(plan, judged, attempts, end.report);
      TierEnds(s, g, w, tier, ctx, end.code, run, leg);
    }
  }

  /** Plans, judges and sweeps tier after tier while a measurement says space is still short. `free` holds what the
      measurements yield, the first before any tier and then one after each; `seen` and `ctx` what else is measured
      before each tier, which is planned on the tree the ones before it left. `None` is a refusal: free space cannot be
      measured, or quarantine cannot be used. */
  method UntilFree(disk: Disks.Disk, process: Quarantine.Process, roots: seq<Path>, g: Settings, seen: seq<World>,
                   ctx: seq<Guards.GuardContext>, free: seq<Option<bool>>,
                   effect: (Plans.CommandCandidate, Tree) -> Tree, ghost s: Setup)
    returns (code: Option<int>, ghost codes: seq<int>, ghost runs: seq<TierRun>, ghost legs: seq<Leg>,
      ghost tried: seq<Path>)
    requires WellFormed(disk.tree) && ValidSetup(s) && s.q == g.q && forall r :: r in roots ==> r in s.roots
    requires |seen| == |ctx| == 3 && |free| == 4
    requires Plans.RootsDistinct(g.cfg.roots) && Sane(effect)
    requires forall t :: 0 <= t < |ctx| ==> forall r :: r in ctx[t].roots ==> r in s.roots
    modifies disk, process
    ensures WellFormed(disk.tree) && |codes| <= 3 && old(disk.faults) <= disk.faults
    // Each tier that ended was planned and judged on the tree it found, which the one before left, and did what it
    // reports.
    ensures TiersRan(s, g, seen, ctx, codes, runs, legs) && LeftAt(old(disk.tree), runs, legs, disk.tree)
    ensures |legs| == |codes| + if code.None? && free[0].Some? then 1 else 0
    // Tier `t` ends only if a shortfall was measured at first and after every lower tier, and both opt-ins are given.
    ensures forall t :: 0 <= t < |codes| ==> free[t] == Some(false) && (t > 0 ==> g.Armed())
    ensures code.Some? ==> AllDefined(codes) && code.value == Fold(codes) && MostSignificant(codes, code.value)
    // It stops early only for a reason.
    ensures code.Some? && |codes| < 3 && free[|codes|] == Some(false) ==> !g.Armed() && |codes| == 1
    ensures code.None? && free[0].Some? ==> g.Armed() && |codes| < 3 && free[|codes|] == Some(false)
    ensures free[0] == Some(true) ==> code == Some(NOTHING_TO_DO)
    ensures free[0].None? ==> code.None?
    ensures !g.Armed() && free[0] == Some(false) ==> |codes| == 1 && disk.log == old(disk.log)
    // Without faults it refuses a tier exactly where quarantine or a root is in the way of that tier.
    ensures TriedUnder(roots, tried)
    ensures disk.faults == old(disk.faults) && code.None? && free[0].Some? ==> Barred(g.q, legs[|codes|].before, tried)
    ensures disk.faults == old(disk.faults) && g.Armed() ==> AllUnbarred(g.q, roots, legs[..|codes|])
    // "Nothing to do" means that no tier moved anything.
    ensures Legs(s, legs, old(disk.log), disk.log) && old(disk.log) <= disk.log
    ensures code == Some(NOTHING_TO_DO) ==> AllIdle(codes) && StagingAttempts(Since(old(disk.log), disk.log)) == []
  {
    Tiers();
    hide *;
    var armed := g.Armed();
    codes, runs, legs, tried := [], [], [], [];
    NoneTried(roots);
    NoneBarred(g.q, roots);
    assert legs[..0] == [];
    ghost var t0, log0 := disk.tree, disk.log;
    NotEscalated(s, armed, log0);
    NoTiers(s, g, seen, ctx, t0);
    FoldNothing();
    Escalates(s, armed, codes, legs, log0, disk.log);
    match free[0] {
      case None => return None, [], [], [], [];
      case Some(met) => if met { return Some(NOTHING_TO_DO), [], [], [], []; }
    }
    var overall := NOTHING_TO_DO;
    for tier := 0 to Rules.MAX_TIER + 1
      invariant WellFormed(disk.tree) && |codes| == tier && overall == Fold(codes) && old(disk.faults) <= disk.faults
      invariant forall t :: 0 <= t <= tier && t <= Rules.MAX_TIER ==> free[t] == Some(false)
      invariant tier > 0 ==> armed && free[tier] == Some(false)
      invariant Escalated(s, armed, codes, legs, log0, disk.log)
      invariant |legs| == tier && TiersRan(s, g, seen, ctx, codes, runs, legs) && LeftAt(t0, runs, legs, disk.tree)
      invariant TriedUnder(roots, tried)
      invariant disk.faults == old(disk.faults) && armed ==> AllUnbarred(g.q, roots, legs)
    {
      Escalates(s, armed, codes, legs, log0, disk.log);
      var end;
      ghost var run, leg;
      end, run, leg, tried := RunTier(disk, process, roots, g, seen[tier], tier, ctx[tier], effect, s);
      LogGrows(s, leg, log0);
      if end.Declined? {
        RefusedLeg(s, armed, codes, legs, log0, leg);
        RefusedTier(s, g, seen, ctx, codes, runs, legs, leg, t0, disk.tree);
        assert (legs + [leg])[..|codes|] == legs;
        return None, codes, runs, legs + [leg], tried;
      }
      EscalatedOnce(s, g, codes, legs, log0, leg, end.code, run, seen[tier], tier, ctx[tier]);
      OneMoreTier(s, g, seen, ctx, codes, runs, legs, end.code, run, leg, t0, disk.tree);
      if armed && disk.faults == old(disk.faults) { OneMoreUnbarred(g.q, roots, legs, leg, tried); }
      FoldSnoc(codes, end.code);
      codes, runs, legs := codes + [end.code], runs + [run], legs + [leg];
      assert legs[..|codes|] == legs;
      overall := Combine(overall, end.code);
      Escalates(s, armed, codes, legs, log0, disk.log);
      if !armed {
        break;
      }
      if free[tier + 1] != Some(false) {
        return Some(overall), codes, runs, legs, tried;
      }
    }
    Escalates(s, armed, codes, legs, log0, disk.log);
    assert legs[..|codes|] == legs;
    code := Some(overall);
  }

  lemma Tiers()
    ensures Rules.MAX_TIER == 2
  {
  }

  lemma LogGrows(s: Setup, leg: Leg, log0: seq<Event>)
    requires Ran(s, leg.before, leg.log0, leg.after, leg.log) && log0 <= leg.log0
    ensures log0 <= leg.log
  {
  }
}

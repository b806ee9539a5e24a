# reap: what its planner, guards and executor promise

`reap` proposes directories for removal, judges each by a stack of guards, and removes what is left in two steps: one
atomic rename into a quarantine directory, then a recursive removal there. This project models that logic and proves the
promises it is built on: a kill at any instant leaves no half-removed tree, the plan is exactly the declared set of
directories, the path that was checked is the path that is acted on, and sweeping twice is sweeping once.

## How it is built

- `Paths`, `FileSystem`, `Resolve`: paths as sequences of components, the filesystem as a finite map from canonical paths to
  nodes, and `canonicalize` / `symlink_metadata` over it, links included.
- `Disk`: the running system. Every call may fail for reasons of its own, chosen freely, so each result holds for every
  pattern of failures; `faults` counts them, so that failure-free runs can be told apart. Every attempt is logged, and a kill
  leaves the tree of some prefix of the log.
- `Removal`, `Quarantine`, `Executor`, `Manifest`, `CrashSafety`: the code that removes, as methods over that disk, and what holds of
  every log such code can produce, cut off anywhere and continued by any number of later runs.
- `World`, `Rules`, `Plan`, `Explain`, `Heartbeat`, `Guard`: the read-only half. Measurements, globs, git, open files and pid
  liveness are functions the model is given.
- `Sweep`, `Escalation`, `Replanning`, `Idempotence`, `Counterexamples`: selection, the staging loop with its accounts, exit
  codes, escalation through the tiers, what a second sweep finds and selects, and inputs that show where a promise ends.
- `Numerals`, `Calendar`, `Rfc3339`, `Measure`, `DetectRoots`: day numbers and dates, timestamps as text, the two measuring
  loops, and the search for roots.

`dafny verify dfyconfig.toml` checks the whole project.

## Where the code and its documentation differ

- `docs/safety-model.md:215-218` says that after a kill the manifest tells where each staged tree came from. A kill between the
  rename and the manifest line (`crates/reap-cli/src/executor.rs:206-232`) leaves a tree the manifest does not mention:
  `Manifests.KilledAfterRename`, for instance `Manifests.KilledForInstance`. Without faults and with names not used before,
  a kill leaves every staged tree told exactly if it does not fall between a staging rename and the end of its line
  (`Manifests.StagedTold`, `Sweeps.StageAll`), and `Executors.Executor.Recover` clears quarantine all the same.
- A drain empties the manifest whenever this run's own trees are gone (`crates/reap-cli/src/executor.rs:241`), even when an
  earlier run's leftovers are still there: `Executors.RecoverThenDrain`, and `Executors.FaultForgets` for a run that does it.
- More evidence never selects, with one exception: a pin marker named `.git` above a root makes a worktree there, and what the
  git guard rejected may pass (`Guards.MorePinsNeverSelect`, `Counterexamples.PinMarkerSelects`).
- A second sweep finds exactly what the first rejected, and selects nothing, if and only if every rejected candidate is found
  without the help of anything that was staged (`Idempotence.SweepIsIdempotent`; candidates of roots spelled through something
  staged are lost in any case, `Counterexamples.StagedLinkLosesRoot`). Where a rule asked for an entry that was staged, the
  second sweep may lose a rejected candidate (`Counterexamples.StagedMarkerLosesCandidate`), or find its directory by another
  rule and select it (`Counterexamples.StagedMarkerSelects`). `Idempotence.SecondPlan` says what it finds and selects in every
  case, told from the tree before the first sweep.
- The printer writes years past 9999 with five digits, and the parser refuses them; `Rfc3339.RoundTrip` says exactly when the
  round trip holds. The parser also lets through day 31 in every month, and signs on single numbers: `Rfc3339.ParseExactly` says
  which texts are read, `Rfc3339.DayRollsOver` which instant such a day is.
- No path of the list of whole paths that are never removed (`crates/reap-core/src/guard.rs:127-149`) is ever rejected for being
  on it: each has fewer than three components, which is refused first (`Guards.ShortOnes`).
- The last pass of the search for roots, which drops covered directories, never finds any to drop: claimed directories are
  not searched, so they are apart already (`DetectRoots.ClaimedApart`).

## Model

| member | source | states |
|---|---|---|
| Removal.RemoveTree | crates/reap-cli/src/executor.rs:73-119 | Removing a tree terminates; nothing outside it changes, link targets included; every node is attempted at most once and children before their directory; directories and files count the calls that took effect, every call that failed is told, with the errors the counts add up to the nodes reached, and each reached survivor has exactly one error; no errors means nothing is left |
| Removal.RmdirPermitted | crates/reap-cli/src/executor.rs:80-86 | When a directory comes back to the top of the stack and nothing below it survived, the kernel lets it be removed |
| FileSystem.StaysOrGoes | crates/reap-cli/src/executor.rs:73-119 | A node stays, or goes to `rmdir` as an empty directory, to `unlink` as anything else, or to `rename` with the tree it is in |
| FileSystem.ReplacesLike | crates/reap-cli/src/executor.rs:206-213 | What a rename replaces is of the same kind and holds nothing |
| CrashSafety.LogKeeps | crates/reap-cli/src/executor.rs:165-245 | Whatever a run attempts and whichever attempts fail, outside quarantine there is what was there at the start, less whole staged trees, plus directories the runs made themselves |
| CrashSafety.AnySessionLeavesWholeTrees | docs/safety-model.md:211-222 | The same for any sequence of runs, each ended or cut off after any step |
| CrashSafety.NeverHalfRemoved | docs/safety-model.md:222 | A node missing outside quarantine went with a whole tree staged by one rename, and nothing that stood in that tree is left where it stood |
| CrashSafety.OnlyScratchAdded | crates/reap-cli/src/quarantine.rs:64-106 | What runs add outside quarantine is directories above it and rename-test directories directly under a root, empty unless declared a root |
| CrashSafety.RecoverFromAnyPoint | crates/reap-cli/src/executor.rs:165-191 | Kill a run anywhere between its first staging and the end of its drain, then recover without faults: besides the manifest, quarantine itself and what was there at the start less the trees staged by then is all there is |
| CrashSafety.RecoveryFinishesTheRun | crates/reap-cli/src/executor.rs:165-191 | Killed after its last staging and recovered, a run ends where the uninterrupted run ends, up to what the manifest says; `Sweeps.StageAndDrain` shows that its logs are of this kind |
| CrashSafety.KilledAnywhere | crates/reap-cli/src/executor.rs:165-191 | The log of staging and draining, cut off after any attempt and recovered from: exactly the trees staged by then are gone, quarantine is empty, and from the last staging on the outcome is that of the uninterrupted run |
| CrashSafety.ReadyStays | crates/reap-cli/src/executor.rs:197-245 | No attempt of a run removes or moves the quarantine directory or its manifest |
| CrashSafety.StepKeeps | crates/reap-cli/src/executor.rs:197-245 | One successful change keeps the whole-trees invariant |
| CrashSafety.SessionLawful | crates/reap-cli/src/executor.rs:165-245 | Runs cut off anywhere and continued by later runs make up one log of the same kind |
| Quarantine.NamesDiffer | crates/reap-cli/src/quarantine.rs:32-41 | Two names of one process differ whenever their counters do, whatever the clock says |
| Quarantine.Process.UniqueName | crates/reap-cli/src/quarantine.rs:32-41 | A name is its prefix, the pid in decimal, and the clock and the old counter in hexadecimal, dashes between; the counter advances modulo 2^64 |
| Quarantine.TestRename | crates/reap-cli/src/quarantine.rs:64-106 | It makes a scratch directory, moves it and removes it where it was or went, and nothing else; it answers yes exactly if the scratch directory was moved, and then nothing outside quarantine has changed, cleaned up or not; it leaves quarantine and its manifest alone; killed anywhere it can leave a scratch directory; without faults it passes exactly if the kernel can make and move the directory, and leaves nothing |
| Quarantine.UndisturbedTest | crates/reap-cli/src/quarantine.rs:75-88 | Made, moved if that is possible, and removed where it ended up, the scratch directory leaves no trace |
| Executors.Executor.Open | crates/reap-cli/src/executor.rs:137-149 | Whatever fails, an executor that was yielded has added just what was missing: levels down to quarantine, and an empty manifest; without faults it refuses exactly if some level is no directory or another node has the name of the manifest |
| Executors.Executor.Append | crates/reap-cli/src/executor.rs:247-252 | The line and its newline are written one after the other, and the first write to fail is the last: at most the one entry is added to those that decode; without faults the entry has a line of its own after whole lines, and after a line left open it has none and that line is spoiled |
| Executors.Executor.Stage | crates/reap-cli/src/executor.rs:197-233 | Staging happens whole or not at all: outside quarantine exactly the tree at the canonical path is gone, inside it is at the process's next name; then a line that says so is written, as far as the writes go, and a line that cannot be written does not undo it; the log shows one rename with its result; without a fault only a missing tree or a taken name stops it |
| Executors.Executor.Drain | crates/reap-cli/src/executor.rs:236-245 | Draining touches only what this run staged and the manifest; files and directories are counted by the calls that took effect; no errors means that all of it is gone, that the manifest is emptied or as it was, and that the leftovers are those not staged by this run; with errors the manifest stays; without faults it is emptied |
| Executors.Executor.Recover | crates/reap-cli/src/executor.rs:165-191 | Recovery changes nothing outside quarantine and only takes away inside; files and directories are counted by the calls that took effect; the manifest is truncated only if entries were found and no error met; without faults every leftover is found, counted and removed |
| Manifests.StagedTold | docs/safety-model.md:215-218 | Staging one more tree without faults, after any number of its calls the manifest tells where every tree staged so far came from but perhaps the last, and with names not used before the last too exactly if the log does not end within its line |
| Manifests.NamedNext | crates/reap-cli/src/quarantine.rs:32-41 | The names of one process whose counter has not wrapped are all new, so that the condition on names holds of its arrivals |
| Manifests.LineTold | crates/reap-cli/src/executor.rs:217-230 | The writes of a staged tree's line never lose a line written before, and the tree is told from the second write on |
| Manifests.KilledAfterRename | crates/reap-cli/src/executor.rs:206-232 | For any tree staged under a name the manifest does not hold: a kill right after the rename leaves a lawful log and a tree in quarantine that the manifest does not mention |
| Manifests.KilledForInstance | crates/reap-cli/src/executor.rs:206-232 | There is such a case: one root, one directory in it, an empty manifest |
| Executors.Executor.ReadManifest | crates/reap-cli/src/executor.rs:254-262 | Reading yields the entries of the lines that hold one, newline or not, in order, or nothing when the file cannot be read |
| Executors.Executor.TruncateManifest | crates/reap-cli/src/executor.rs:268-280 | Truncation leaves everything but the manifest alone and either empties it or changes nothing |
| Executors.LeftBehind | crates/reap-cli/src/executor.rs:236-245 | After a clean drain the leftovers are exactly those that this run did not stage |
| Executors.RecoverTwice | crates/reap-cli/src/executor.rs:165-191 | Recovering twice without faults, the second pass finds no entry, changes nothing and returns an empty manifest if there was anything to recover |
| Executors.RecoverThenDrain | crates/reap-cli/src/executor.rs:165-245 | A drain that follows a recovery empties the manifest and leaves exactly what the recovery left, which is nothing unless the recovery met a fault |
| Executors.FaultForgets | crates/reap-cli/src/executor.rs:241 | Any leftover directory can survive a failing removal while the manifest is emptied, by a log of calls that a run may make |
| Executors.Resume | crates/reap-cli/src/commands/sweep.rs:197-240 | Opening and recovering, in the run after one killed at any attempt of its staging and draining, finishes that run: quarantine is empty, exactly the trees staged by then are gone |
| Sweeps.DrainedAway | crates/reap-cli/src/executor.rs:236-245 | A drain changes nothing outside quarantine, and if quarantine held only what this run staged, a clean one leaves only the manifest |
| Executors.AllEntries | crates/reap-cli/src/executor.rs:165-191 | Removing the listed entries touches nothing outside quarantine, and if the listing was complete leaves it empty |
| Resolve.WalkConcat | crates/reap-core/src/guard.rs:261-344 | Resolving a path is resolving its front and going on from there with the links left over |
| Resolve.CanonicalizeMeans | crates/reap-core/src/guard.rs:261-306 | A path resolves to what its components lead to step by step from the top: up, along an entry, or through one of at most 40 links, each replaced by its target |
| Resolve.LStatMeans | crates/reap-core/src/fsmeta.rs:101-104 | What is found at a path is the entry itself, link or not, of the directory its front leads to |
| Worlds.HasMeans | crates/reap-core/src/fsmeta.rs:101-104 | A directory has an entry exactly if it resolves to one that holds it and it may be examined |
| Resolve.CanonicalizeSnoc | crates/reap-core/src/guard.rs:292-306 | Below a resolved directory a component that is not a link adds itself to the canonical path |
| Guards.CheckContainment | crates/reap-core/src/guard.rs:261-344 | The loop accepts exactly the paths strictly below the declared root by link-free components whose first canonical root is the declared one, and returns their canonical path |
| Guards.ContainedSpelling | crates/reap-core/src/guard.rs:240-344 | A contained path of plain components is at its canonical root followed by the components it was walked by, strictly below it |
| Guards.FirstHolding | crates/reap-core/src/guard.rs:308-317 | The root found strictly holds the path and no earlier one does, and when none is found no root does |
| Guards.CanonicalRoots | crates/reap-core/src/guard.rs:683-689 | The canonical roots are exactly the places that declared roots resolve to |
| Guards.CanonicalRootsInOrder | crates/reap-core/src/guard.rs:683-689 | Canonical roots are listed in the order their roots are declared |
| Guards.CheckPin | crates/reap-core/src/guard.rs:356-368 | Rejects exactly when the marker is in the candidate or in a directory from there up to the root |
| Guards.Worktree | crates/reap-core/src/guard.rs:444-453 | The nearest directory at or above with a `.git` entry, and no nearer one has it |
| Guards.FindWorktree | crates/reap-core/src/guard.rs:444-453 | The upward loop finds that directory |
| Guards.CheckGit | crates/reap-core/src/guard.rs:461-479 | Passes only what git calls ignored; without a worktree the guard is skipped; anything unknown rejects |
| Guards.Evaluate | crates/reap-core/src/guard.rs:525-665 | In terms of paths and times: the guard named is the first that objects, and a candidate is selected exactly if none does, with the place it resolves to; the table is in order, covers every guard, has one rejection at most, and guards past the stop are not reached; a row that passes says its guard does not object, a row that rejects that it does, or that the floor objects to the place |
| Guards.StopMeans | crates/reap-core/src/guard.rs:525-625 | The stack stops where the first objection is: to the floor or a denied path, to no place inside its own root, to the place on the floor, to depth, a marker, a live claim, git, idle time or a process |
| Guards.FloorMeans | crates/reap-core/src/guard.rs:120-219 | The floor passes exactly a path of three plain components or more, none of which is secret, that is neither the home directory nor one of its own |
| Guards.UserDenyMeans | crates/reap-core/src/guard.rs:222-233 | A denied path rejects itself and everything below it, and nothing else does |
| Guards.ContainedMeans | crates/reap-core/src/guard.rs:261-344 | A candidate lies at a place exactly if it resolves there, was walked from its root through no link, and of the canonical roots strictly above the place the first is its own |
| Guards.HeartbeatsMean | crates/reap-core/src/guard.rs:375-433 | Rejects exactly if an entry unreadable, with its process alive or young enough bears the candidate's name, or claims a path equal to it, above it or below it, or any path if unreadable; or if the rule asks for orphans and the entries could not be listed |
| Guards.GitMeans | crates/reap-core/src/guard.rs:444-479 | Passes or is skipped exactly if git ignores the candidate in the nearest worktree, if there is one |
| Guards.ProcessesMean | crates/reap-core/src/guard.rs:490-515 | Passes exactly if both questions were answered and no process works in the candidate or holds something in it open |
| Guards.ShortOnes | crates/reap-core/src/guard.rs:127-149 | Each path of the list of whole paths is too short to get past the component count anyway |
| Guards.Finish | crates/reap-core/src/guard.rs:627-665 | Rebuilding and sorting the rows yields the full table for the guards that ran |
| Guards.MoreEvidenceNeverSelects | crates/reap-core/src/guard.rs:525-625 | More deny entries, heartbeats, working directories or open files never turn a rejection into a selection |
| Guards.MorePinsNeverSelect | crates/reap-core/src/guard.rs:356-368 | Adding entries named like the pin marker anywhere in the tree never turns a rejection into a selection, unless the marker is called `.git`; then a candidate selected with them was selected before exactly if the git guard did not reject it |
| Counterexamples.PinMarkerSelects | crates/reap-core/src/guard.rs:444-479 | With the marker called `.git`, one entry above the root turns a rejection into a selection |
| Guards.SelectedOnce | crates/reap-core/src/guard.rs:308-323 | However roots nest, with canonical roots distinct two selected candidates with one canonical path are one candidate |
| Heartbeats.ReadOne | crates/reap-core/src/heartbeat.rs:142-200 | An unreadable file becomes an unreadable record; else the newer of declared and file time, the declared interval with the default where it is absent and one where it is zero, and exactly the absolute paths claimed |
| Rules.StructureOk | crates/reap-core/src/plan.rs:124-154 | The sibling is beside the candidate and the ancestor entry somewhere from its parent up to the root |
| Rules.FindHit | crates/reap-core/src/plan.rs:243-249 | The search yields the first rule in file order that hits within its own depth cap |
| Rules.PathRules | crates/reap-core/src/plan.rs:170-173 | The path rules of this platform up to the tier, no other |
| Rules.FirstHitMeans | crates/reap-core/src/plan.rs:105-163 | The rule that wins is the first of the file, for this platform and tier, that names the directory by its last component or a pattern, reaches that deep, and has its sibling and its ancestor entry |
| Rules.HitMeans | crates/reap-core/src/plan.rs:105-163 | A rule in scope hits exactly the directories it finds in that sense |
| Rules.SameLettersMeans | crates/reap-core/src/plan.rs:105-118 | Names are the same without case exactly if letter by letter they are, or differ by a capital |
| Rules.CarriesMade | crates/reap-core/src/plan.rs:251-266 | A candidate carries name, tier, idle time and orphan flag of its rule, the depth cap of the rule or else of its root, its own depth, and the size and idle time measured in its place |
| Plans.Walker.Next | crates/reap-core/src/plan.rs:214-227 | The walker yields its next step and queues the sorted children of a directory it may list and is not too deep for |
| Plans.Walker.SkipCurrentDir | crates/reap-core/src/plan.rs:269-270 | Skipping drops exactly the children just queued |
| Plans.PlanRoot | crates/reap-core/src/plan.rs:208-271 | The candidates of a root are exactly the real directories reached through open, unhit directories and hit themselves, each once, and each carries what one of the rules says and what is measured in its place; the errors are exactly the directories gone into that cannot be listed and the entries of such that cannot be examined |
| Plans.MakePlan | crates/reap-core/src/plan.rs:166-294 | In terms of rules, roots and measurements: the plan holds exactly what each root walked is to propose, each once per root, with what the first rule of the file to find it says; in the order of paths and then of roots; commands are the command rules of this platform and tier in file order with name, tier and command line; skipped roots and unmatched rules are exactly those, in file order, and the places that could not be read exactly those |
| Plans.PlannedMeans | crates/reap-core/src/plan.rs:208-271 | A plan by the walk's own terms is one in terms of what each rule asks for and says |
| Plans.Commands | crates/reap-core/src/plan.rs:274-283 | The loop lists the command rules of this platform and tier, in file order, with name, tier and command line |
| Plans.PlanOrdered | crates/reap-core/src/plan.rs:292 | Sorting puts candidates in the order of their paths, and those of one path in the order of their roots |
| Plans.ProposalsApart | crates/reap-core/src/plan.rs:268-271 | No proposal of a root lies inside another |
| Plans.WalkedSpelling | crates/reap-core/src/plan.rs:208-241 | A path walked through real directories resolves to the root's place followed by the components walked |
| Plans.HigherTierCovers | crates/reap-core/src/plan.rs:170-173 | Whatever is proposed at one tier lies at or inside something proposed under the same root at any higher tier |
| Plans.WalkDepth | crates/reap-core/src/plan.rs:208-212 | The walk goes as deep as the largest cap of any rule and no deeper; without rules it is the root's own |
| Plans.Unmatched | crates/reap-core/src/plan.rs:285-290 | A rule is reported as unmatched exactly when no candidate carries its name |
| Explain.BestRoot | crates/reap-core/src/plan.rs:410-419 | The root explained against is the first longest one strictly holding the path |
| Explain.ExplainPath | crates/reap-core/src/plan.rs:402-524 | Each rule's trace is the one thing there is to say of it, in terms of platform, tier, name, pattern, depth, sibling and ancestor; there is a candidate exactly if some rule matched below a root, and it carries what the first of them says and what is measured there; the kind is that of the node |
| Explain.OutcomeMeans | crates/reap-core/src/plan.rs:429-487 | Whatever is said of a rule is so, and none of what would be said before it |
| Explain.CheckAncestor | crates/reap-core/src/plan.rs:526-543 | The second upward search, written out on its own, finds exactly what the planner's does |
| Explain.MatchedIsHit | crates/reap-core/src/plan.rs:429-487 | A rule traced as matched is exactly one the planner would use and that hits |
| Explain.FirstMatchedIsFirstHit | crates/reap-core/src/plan.rs:429-507 | The first rule `explain` calls matched is the first that hits |
| Explain.ExplainAgrees | crates/reap-core/src/plan.rs:243-271 | Below one root through open directories, the plan proposes a directory exactly if `explain` yields a candidate for it and for no ancestor below the root, and the candidates are equal |
| Sweeps.Select | crates/reap-cli/src/select.rs:91-104 | Planning and judging yields the candidates in plan order, each selected exactly if every guard lets it pass, with a canonical path inside a canonical root, and each rejected by the guard that objects first in terms of paths and times |
| Sweeps.SelectedOnceInPlan | crates/reap-core/src/guard.rs:308-323 | No two selected candidates of a plan share a canonical path when canonical roots are distinct |
| Sweeps.TimeBudget.Exhausted | crates/reap-cli/src/executor.rs:300-302 | A limit of zero never expires, and once expired a budget stays so |
| Sweeps.Prepare | crates/reap-cli/src/commands/sweep.rs:197-240 | Before anything moves, nothing is staged; no removal that fails in recovery goes unsaid; whatever fails, an executor that is ready finds the outside unchanged but for directories above quarantine that were missing; without faults quarantine ends empty, and it is refused exactly if something else stands in the way of quarantine, or a root is no directory or holds the scratch directory's name |
| Sweeps.StageAll | crates/reap-cli/src/commands/sweep.rs:242-276 | The attempts are the selected candidates in order, cut short only by the budget, and none is made once it is spent; rows and bytes are those of the renames that succeeded, and there is a complaint for each that failed; outside quarantine exactly those trees are gone; without faults and from an empty manifest, it tells at every instant where all staged trees came from exactly if that instant is not within a line |
| Sweeps.StageAndDrain | crates/reap-cli/src/commands/sweep.rs:242-283 | Staging and draining outside quarantine takes exactly the trees of the successful attempts; started with quarantine empty and ended without removal errors, its log is one that may be cut off anywhere and picked up by the next run |
| Sweeps.StageOne | crates/reap-cli/src/commands/sweep.rs:263-270 | One turn of the loop adds one attempt to the log and to the account, and keeps quarantine and manifest in order |
| Sweeps.Reclaim | crates/reap-cli/src/commands/sweep.rs:197-288 | The armed part: refuses before anything is staged, without faults exactly where quarantine or a root is in the way, or accounts for every attempt; whatever fails, the drained tree has lost exactly the trees staged; without faults quarantine and manifest are empty; what comes after is the command rules', which may change the tree as they like |
| Sweeps.Execute | crates/reap-cli/src/commands/sweep.rs:176-346 | Unarmed, nothing is attempted; armed, the log shows exactly the attempts reported; every row shows what was judged of its candidate and whether its rename succeeded; bytes are promised for all selected candidates and reclaimed for those moved; commands come last, in turn; exit codes mean what they say; no unreadable path, failed attempt or failed removal goes unsaid; whatever fails, up to the command rules a run that finishes takes nothing outside quarantine but the reclaimed trees; without faults it leaves quarantine empty and is refused exactly where quarantine or a root is in the way |
| Sweeps.ReclaimedExactly | crates/reap-cli/src/commands/sweep.rs:247-271 | A row says reclaimed exactly when that candidate's rename succeeded, and then it was selected |
| Sweeps.ReclaimedWithinSelected | crates/reap-cli/src/commands/sweep.rs:265-266 | What is moved never exceeds what was promised, as sums over the places in the selection |
| Sweeps.SelectedSum | crates/reap-cli/src/select.rs:36-38 | The bytes promised are the sum over the places of the selected candidates |
| Sweeps.CountSelected | crates/reap-cli/src/commands/sweep.rs:300 | The count in the totals is the number of selected indices |
| Sweeps.RunCommandRules | crates/reap-cli/src/commands/commands_runner.rs:26-76 | Commands with a command line are started by tier and then in the order listed, the count is of those started, the tree is what they made of it one after another; none is started once the budget is spent, and without a limit each was started or is said to have failed |
| Escalations.CombineIsJoin | crates/reap-cli/src/commands/sweep.rs:157-170 | Folding codes is associative, commutative and idempotent with "nothing to do" as its unit |
| Escalations.FoldIsMaximum | crates/reap-cli/src/commands/sweep.rs:107-127 | The code of an escalation is one of its tiers' and none ranks above it, and it is "nothing to do" only if all are |
| Escalations.FoldIsMostSignificant | crates/reap-cli/src/commands/sweep.rs:152-170 | The code of an escalation is 2 if any tier's was, else 1, else 4, else 0, and 3 if none of these was |
| Escalations.UntilFree | crates/reap-cli/src/commands/sweep.rs:64-150 | Every tier that ended was planned and judged on the tree it found, which the one before left, and its code, report, attempts and log are those of a sweep of that plan; a tier runs only if a shortfall was measured at first and after every lower tier; it stops early only for a reason; unarmed it runs one; without faults a tier is refused only where quarantine or a root is in its way; the code is 2, 1, 4 or 0, the first of these that a tier ended with, else 3, and 3 means that nothing was moved |
| Escalations.RunTier | crates/reap-cli/src/commands/sweep.rs:64-150 | One tier plans and judges on the tree it finds, and what it attempts and reports is accounted for |
| Idempotence.PinsStay | crates/reap-core/src/guard.rs:356-368 | A sweep never removes an entry that pins a directory still there under a root left alone |
| Idempotence.NoGitStaged | crates/reap-core/src/guard.rs:185-219 | The floor on the resolved path keeps every `.git` entry from being staged |
| Replanning.ProposedAgain | crates/reap-core/src/plan.rs:166-293 | The proposals of a root after a sweep, and what they carry, told from the tree before: the directories reached through open ones that are still there, hit by a first rule that needs nothing staged, where no directory above is |
| Replanning.FoundStill | crates/reap-core/src/plan.rs:124-154 | The rule that found a directory is the first that still does, if it needs nothing staged |
| Idempotence.JudgedAgain | crates/reap-core/src/guard.rs:525-625 | Any candidate in a directory still there is judged as before, with the canonical roots computed anew |
| Idempotence.SurvivesUnselected | crates/reap-cli/src/commands/sweep.rs:247-271 | With roots apart, a proposal survives exactly if it was not selected |
| Replanning.WalkedAgain | crates/reap-core/src/plan.rs:176-206 | A root is walked again exactly if it was walked before and nothing that resolving it looks at, links included, was staged |
| Idempotence.SecondPlan | crates/reap-cli/src/commands/sweep.rs:247-271 | After a sweep that took all that was selected, the second plan holds exactly what is to be proposed still, and exactly those of it are selected that the guards let pass before |
| Idempotence.SweepIsIdempotent | crates/reap-cli/src/commands/sweep.rs:247-271 | The second plan is exactly the candidates rejected before under roots left alone, if and only if each of them is found without the help of anything staged; and then nothing is selected |
| Idempotence.NoMarkerStaged | crates/reap-core/src/plan.rs:124-154 | A candidate is found still if the rule that found it asks for no entry by the name of one that was staged |
| Idempotence.CleanSweepLeavesNothing | crates/reap-cli/src/commands/sweep.rs:247-271 | All of this from what a caller can check before the sweep, roots, missing and linked ones among them, lying apart: what the second look finds, what it selects, and when that is what was rejected and nothing |
| Idempotence.SweepTwice | crates/reap-cli/src/commands/sweep.rs:39-52 | Planning, judging, sweeping and then planning and judging again as a new run does, the first run on a machine included: if the sweep reported no error, stayed within its budget and ran no command, the second look is the one foretold |
| Idempotence.CanonicalRootSpared | crates/reap-core/src/guard.rs:683-689 | A root spelled canonically is never in the way: nothing at or above it is staged |
| Counterexamples.StagedLinkLosesRoot | crates/reap-core/src/plan.rs:176-206 | A clean sweep stages the link its second root is spelled through, and what was rejected there is not found again |
| Counterexamples.StagedMarkerLosesCandidate | crates/reap-core/src/plan.rs:124-132 | A clean sweep stages the sibling a rule asks for, and what the rule had found is not found again |
| Counterexamples.StagedMarkerSelects | crates/reap-core/src/plan.rs:124-132 | A clean sweep stages the sibling a rule asks for, and the second sweep finds the directory by a later rule and selects it |
| Resolve.WalkBacked | crates/reap-core/src/guard.rs:261-344 | Where a second tree adds nothing that resolving a path in the first looks at, what resolves in the second resolves alike in the first, and all that was looked at is in the second |
| Calendar.DaysRoundTrip | crates/reap-core/src/time.rs:30-41 | Every day number becomes a valid date that becomes the same day number |
| Calendar.DateRoundTrip | crates/reap-core/src/time.rs:140-148 | Every valid date becomes a day number that becomes the same date |
| Calendar.CivilFollowsCalendar | crates/reap-core/src/time.rs:30-41 | The next day number is the next day of the leap-year calendar |
| Calendar.NextDayNumber | crates/reap-core/src/time.rs:140-148 | The next calendar day has the next number |
| Calendar.YearOfEraFinds | crates/reap-core/src/time.rs:34 | The closed formula finds the year of the era a day lies in |
| Calendar.Epoch | crates/reap-core/src/time.rs:27 | Day zero is 1970-01-01 |
| Calendar.NoOverflow | crates/reap-core/src/time.rs:18-41 | For every `u64` of seconds each intermediate value, day and month of the year among them, and each cast is in range |
| Numerals.PadReads | crates/reap-core/src/time.rs:23 | A padded number reads back, and is wider than its field exactly when it does not fit |
| Numerals.ShowWrites | crates/reap-cli/src/quarantine.rs:36-40 | A number is written in digits of its base that read back as the number, without needless zeros |
| Rfc3339.RoundTrip | crates/reap-core/src/time.rs:18-137 | Printing then parsing gives the second back for exactly the seconds before the year 10000, and nothing after |
| Rfc3339.LocalTimeParses | crates/reap-core/src/time.rs:81-137 | Any local time in a four-digit year, with any two-digit offset and any fraction, parses to the instant it denotes, or to nothing if that is before the epoch |
| Rfc3339.ParseExactly | crates/reap-core/src/time.rs:81-137 | A text is read as a second exactly if, ASCII white space around it aside, it consists of numbers of the right widths, each with a sign of its own if its type allows one, separators, an optional fraction and a zone, its fields are in range, and that is the second it denotes |
| Rfc3339.ParseOfWritten | crates/reap-core/src/time.rs:81-137 | With any fields written in padded numbers, separator, fraction, zone and white space around, the text is accepted exactly if the fields are in range and the instant is not before the epoch, and then yields that instant |
| Rfc3339.ZonelessRefused | crates/reap-core/src/time.rs:126-128 | A date and time without a zone is refused, however its numbers are written, whatever its fraction and the white space around |
| Rfc3339.DayRollsOver | crates/reap-core/src/time.rs:96-98 | A day past the end of its month is that many days into the next |
| Measure.TreeSize | crates/reap-core/src/fsmeta.rs:42-69 | With one size per inode, bytes are at least the total over distinct inodes in blocks of 512 up to 64 bits, and exactly that if links tell of every repeat; files, directories and errors are counted, each step as one of them |
| Measure.SpaceExactly | crates/reap-core/src/fsmeta.rs:64-67 | With one size per inode, the space counted is that of the set of inodes exactly if every repeated entry with blocks has a link count above one and so had an earlier entry of its inode; otherwise it is more |
| Measure.ConsistentTold | crates/reap-core/src/fsmeta.rs:64-67 | A tree in which every inode met twice has one size and a link count above one meets that condition |
| Measure.OrderIrrelevant | crates/reap-core/src/fsmeta.rs:42-69 | Two walks that meet the same entries in any order measure alike, if in one of them every inode met twice has one size and a link count above one |
| Measure.CountedTwice | crates/reap-core/src/fsmeta.rs:64-66 | Any entry with blocks and a link count of one, met twice, is counted twice |
| Measure.IdleFor | crates/reap-core/src/fsmeta.rs:78-99 | Idle time is at most the time since the entry's own modification, or since the epoch if it has none, and since that of each of its first entries, and is as long as one of these; for a time in the future it is zero |
| DetectRoots.Roots | crates/reap-cli/src/commands/init.rs:80-137 | The conventional directories there are, the preferred ones first; else, in the order of paths, exactly the directories at most three levels below home, reached through entries that are followed, that hold a project while none above them does: no two nest, and they cover every directory in reach that holds one |
| DetectRoots.Search | crates/reap-cli/src/commands/init.rs:91-125 | The bounded search terminates and finds exactly the claimed directories |
| DetectRoots.SearchDir | crates/reap-cli/src/commands/init.rs:99-114 | One pass over the entries finds the subdirectories to go on to and whether one is a project |
| DetectRoots.DropCovered | crates/reap-cli/src/commands/init.rs:127-136 | On sorted directories one pass leaves an antichain that covers them all |
| DetectRoots.ClaimedApart | crates/reap-cli/src/commands/init.rs:116-121 | No claimed directory lies in another |
| DetectRoots.ClaimedAlong | crates/reap-cli/src/commands/init.rs:116-125 | Every directory in reach that holds a project is claimed or lies in a claimed one |
| DetectRoots.ClaimedMeans | crates/reap-cli/src/commands/init.rs:84-125 | What the search claims is what is to be declared, in terms of listings cut at five hundred, directories that are no links, project marks, hidden names and names that never hold code |
| DetectRoots.ConventionalPlaces | crates/reap-cli/src/commands/init.rs:80-87 | The conventional roots are those of the names that are directories, in the order of the names |
| Paths.AncestorFirst | crates/reap-cli/src/commands/init.rs:128 | Component-wise sorting puts a directory before what it holds |
| Paths.PathOrderMeans | crates/reap-core/src/plan.rs:292 | Paths are ordered component by component and components character by character |
| Paths.SortStable | crates/reap-core/src/plan.rs:292 | Sorting keeps the order of what it does not tell apart |

## Left out

- TOML and JSON decoding, glob compilation, configuration checks, message texts, log output, tables, scheduler units and the other
  commands: user interface and library parsing.
- Git, open files, working directories, pid liveness, free space, permissions and read errors: functions or free choices the
  model is given; all results hold for every answer.
- What a command rule's process does is any change of the tree that leaves a tree; statements about the disk are about the tree
  at the end of the drain, before such processes start, and logs and sessions of runs hold no changes of theirs.
- Other processes changing the tree during a run, and names that are not text.
- Quarantine and the roots the executor is given are canonical paths apart from each other, as `crates/reap-cli/src/executor.rs:162-164`
  assumes; mount points are not modelled, so a rename across filesystems is one of the failures that may happen.
- Quarantine.TestRename: removes its scratch directory by one `rmdir`, because the directory was just made and holds nothing; the source calls the recursive removal of the library.
- Executors.Executor.Append: a write that stops short leaves some part of the line; the part is not spelled out, only that it does not decode and spoils the line appended after it.
- Plans.PlanRoot: the order in which the paths that could not be read are collected, and their messages.
- Measure.TreeSize: takes what the walk yields as a sequence of entries instead of walking the tree map, which has no inodes; counters other than bytes are unbounded.
- Rfc3339.ParseExactly: text is ASCII, so that characters and bytes are the same; on other text the source may index inside a character.
- Rfc3339.RoundTrip: times are whole seconds from the epoch on; the printer drops fractions and prints earlier times as the epoch.
- Sweeps.RunCommandRules: which commands can be started and which of them fail is left open.
- Sweeps.Execute: byte totals are unbounded, where the source adds in `u64`.
- Escalations.UntilFree: whether enough is free is given at each measurement, instead of computed from percentages.

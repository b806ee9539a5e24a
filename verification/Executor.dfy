/** Staging, draining and recovery: the only code that removes anything. */
module Executors {
  import opened Paths
  import opened FileSystem
  import opened Disks
  import opened CrashSafety
  import opened Removal
  import opened Quarantine
  import opened Numerals

  /** What the executor uses of a planned candidate. */
  datatype Item = Item(rule: string, tier: nat, bytes: nat)

  datatype Recovery = Recovery(entries: nat, stats: RemoveStats, fromManifest: seq<ManifestEntry>)

  function Merge(a: RemoveStats, b: RemoveStats): RemoveStats {
    RemoveStats(a.files + b.files, a.dirs + b.dirs, a.errors + b.errors)
  }

  /** The lines of a manifest that decode; the last one may lack its newline. */
  function Decoded(lines: seq<Line>): seq<ManifestEntry> {
    if lines == [] then []
    else
      var last := lines[|lines| - 1];
      Decoded(lines[..|lines| - 1]) + if last.Staged? || last.Unended? then [last.staged] else []
  }

  /** What is appended next goes on with the last line. */
  predicate EndsOpen(lines: seq<Line>) {
    lines != [] && (lines[|lines| - 1].Torn? || lines[|lines| - 1].Unended?)
  }

  function Ended(lines: seq<Line>): (r: seq<Line>)
    ensures Decoded(r) <= Decoded(lines) && (!EndsOpen(lines) ==> r == lines)
  {
    if EndsOpen(lines) then lines[..|lines| - 1] else lines
  }

  lemma DecodedSnoc(lines: seq<Line>, line: Line)
    ensures Decoded(lines + [line]) == Decoded(lines) + if line.Staged? || line.Unended? then [line.staged] else []
  {
    assert (lines + [line])[..|lines|] == lines;
  }

  /** The manifest while one more line is written: stopped within it, before its newline, and whole. A line that was
      left open is spoiled, and spoils what is written after it. */
  function Begun(lines: seq<Line>): (r: seq<Line>)
    ensures Decoded(r) == Decoded(Ended(lines))
  {
    DecodedSnoc(Ended(lines), Torn);
    Ended(lines) + [Torn]
  }

  function Unfinished(lines: seq<Line>, entry: ManifestEntry): (r: seq<Line>)
    ensures Decoded(r) == Decoded(Ended(lines)) + if EndsOpen(lines) then [] else [entry]
  {
    var line := if EndsOpen(lines) then Torn else Unended(entry);
    DecodedSnoc(Ended(lines), line);
    Ended(lines) + [line]
  }

  function Appended(lines: seq<Line>, entry: ManifestEntry): (r: seq<Line>)
    ensures Decoded(r) == Decoded(Ended(lines)) + if EndsOpen(lines) then [] else [entry]
    ensures !EndsOpen(r)
  {
    var line := if EndsOpen(lines) then Text("") else Staged(entry);
    DecodedSnoc(Ended(lines), line);
    Ended(lines) + [line]
  }

  /** The entry has a line of its own after whole lines; after one left open it has none, and that one is spoiled. */
  ghost predicate LineAdded(lines: seq<Line>, entry: ManifestEntry, r: seq<Line>) {
    if lines == [] || lines[|lines| - 1].Staged? || lines[|lines| - 1].Text? then r == lines + [Staged(entry)]
    else |r| == |lines| && r[..|r| - 1] == lines[..|r| - 1] && r[|r| - 1].Text?
  }

  lemma AppendedAdds(lines: seq<Line>, entry: ManifestEntry)
    ensures LineAdded(lines, entry, Appended(lines, entry))
  {
  }

  /** At these places stand the lines that hold an entry, newline or no newline, and these are the entries. */
  ghost predicate DecodedAt(lines: seq<Line>, places: seq<nat>, entries: seq<ManifestEntry>) {
    && Increasing(places) && |places| == |entries|
    && (forall i: nat :: i in places <==> i < |lines| && (lines[i].Staged? || lines[i].Unended?))
    && (forall k :: 0 <= k < |entries| ==> places[k] in places && lines[places[k]].staged == entries[k])
  }

  lemma {:induction false} DecodedPlaces(lines: seq<Line>) returns (places: seq<nat>)
    ensures DecodedAt(lines, places, Decoded(lines))
  {
    if lines == [] {
      places := [];
    } else {
      hide DecodedAt, Decoded;
      var n := |lines| - 1;
      places := DecodedPlaces(lines[..n]);
      DecodedSnoc(lines[..n], lines[n]);
      NextDecoded(lines[..n], lines[n], places, Decoded(lines[..n]));
      assert lines == lines[..n] + [lines[n]];
      places := places + if lines[n].Staged? || lines[n].Unended? then [n] else [];
    }
  }

  lemma NextDecoded(lines: seq<Line>, line: Line, places: seq<nat>, entries: seq<ManifestEntry>)
    requires DecodedAt(lines, places, entries)
    ensures var more := line.Staged? || line.Unended?;
            DecodedAt(lines + [line], places + if more then [|lines|] else [],
                      entries + if more then [line.staged] else [])
  {
    NextPlace(places, |lines|);
    assert places + [] == places && entries + [] == entries;
  }

  /** The writes that add one line, undisturbed. */
  function WritesOf(q: Path, lines: seq<Line>, entry: ManifestEntry): seq<Event> {
    [Event(Write(ManifestPath(q), Begun(lines)), true), Event(Write(ManifestPath(q), Unfinished(lines, entry)), true),
     Event(Write(ManifestPath(q), Appended(lines, entry)), true)]
  }

  /** The first `k` writes took effect, and the next, if there is one, was tried and failed. */
  ghost predicate WroteUpTo(writes: seq<Event>, log0: seq<Event>, log: seq<Event>, k: int) {
    && 0 <= k <= |writes|
    && log == log0 + writes[..k] + if k < |writes| then [Event(writes[k].call, false)] else []
  }

  ghost predicate WroteInTurn(q: Path, lines: seq<Line>, entry: ManifestEntry, log0: seq<Event>, log: seq<Event>) {
    exists k :: WroteUpTo(WritesOf(q, lines, entry), log0, log, k)
  }

  lemma WritesInTurn(q: Path, lines: seq<Line>, entry: ManifestEntry, log0: seq<Event>)
    ensures var writes := WritesOf(q, lines, entry);
            && |writes| == 3 && log0 + writes[..0] == log0
            && log0 + writes[..1] == log0 + [writes[0]]
            && log0 + writes[..2] == log0 + [writes[0]] + [writes[1]]
            && log0 + writes[..3] == log0 + [writes[0]] + [writes[1]] + [writes[2]]
            && writes[0] == Event(Write(ManifestPath(q), Begun(lines)), true)
            && writes[1] == Event(Write(ManifestPath(q), Unfinished(lines, entry)), true)
            && writes[2] == Event(Write(ManifestPath(q), Appended(lines, entry)), true)
  {
  }

  lemma ClassedNothing(log: seq<Event>)
    ensures Classed(Since(log, log), RemoveStats(0, 0, []))
  {
  }

  /** The counts of two passes, one after the other, are those of their calls. */
  lemma ClassedMerge(log0: seq<Event>, log1: seq<Event>, log2: seq<Event>, a: RemoveStats, b: RemoveStats)
    requires log0 <= log1 <= log2 && Classed(Since(log0, log1), a) && Classed(Since(log1, log2), b)
    ensures log0 <= log2 && Classed(Since(log0, log2), Merge(a, b))
  {
    assert Since(log0, log2) == Since(log0, log1) + Since(log1, log2);
    CountConcat(Since(log0, log1), Since(log1, log2), RemovesDir);
    CountConcat(Since(log0, log1), Since(log1, log2), RemovesFile);
  }

  lemma ClassedWrite(log0: seq<Event>, log1: seq<Event>, e: Event, stats: RemoveStats)
    requires log0 <= log1 && Classed(Since(log0, log1), stats) && e.call.Write?
    ensures log0 <= log1 + [e] && Classed(Since(log0, log1 + [e]), stats)
  {
    assert Since(log0, log1 + [e]) == Since(log0, log1) + [e];
    CountConcat(Since(log0, log1), [e], RemovesDir);
    CountConcat(Since(log0, log1), [e], RemovesFile);
  }

  /** No removal was attempted. */
  ghost predicate NothingRemoved(log: seq<Event>) {
    forall e :: e in log ==> !e.call.RmDir? && !e.call.Unlink?
  }

  lemma RemovedNone(log: seq<Event>, none: seq<Event>)
    requires none == Since(log, log)
    ensures NothingRemoved(none)
  {
  }

  lemma RemovedNoneMore(log0: seq<Event>, log: seq<Event>, e: Event)
    requires log0 <= log && NothingRemoved(Since(log0, log)) && !e.call.RmDir? && !e.call.Unlink?
    ensures log0 <= log + [e] && NothingRemoved(Since(log0, log + [e]))
  {
  }

  /** The run so far has only made directories and written files. */
  ghost predicate Making(s: Setup, t0: Tree, log0: seq<Event>, t: Tree, log: seq<Event>) {
    && log0 <= log && Ran(s, t0, log0, t, log)
    && StagingAttempts(Since(log0, log)) == [] && NothingRemoved(Since(log0, log))
  }

  lemma MakingStarts(s: Setup, t: Tree, log: seq<Event>)
    ensures Making(s, t, log, t, log)
  {
    RanNothing(s, t, log);
  }

  lemma MakingMore(s: Setup, t0: Tree, log0: seq<Event>, t: Tree, log: seq<Event>, e: Event)
    requires Making(s, t0, log0, t, log) && (e.call.MkDir? || e.call.Write?)
    requires log0 <= log ==> Attempts(s, Since(log0, log), e.call)
    requires e.ok ==> Permits(t, e.call)
    ensures Making(s, t0, log0, Apply(t, e), log + [e])
  {
    hide Ran, StagingAttempts, NothingRemoved, Attempts, Permits;
    RanSnoc(s, t0, log0, t, log, e);
    RemovedNoneMore(log0, log, e);
  }

  lemma MakingMeans(s: Setup, t0: Tree, log0: seq<Event>, t: Tree, log: seq<Event>)
    requires Making(s, t0, log0, t, log)
    ensures log0 <= log && Ran(s, t0, log0, t, log)
    ensures StagingAttempts(Since(log0, log)) == [] && NothingRemoved(Since(log0, log))
  {
  }

  lemma RemovedNoneLater(log0: seq<Event>, log1: seq<Event>, log2: seq<Event>)
    requires log0 <= log1 <= log2 && NothingRemoved(Since(log0, log1)) && NothingRemoved(Since(log1, log2))
    ensures log0 <= log2 && NothingRemoved(Since(log0, log2))
  {
    assert Since(log0, log2) == Since(log0, log1) + Since(log1, log2);
  }

  /** Writing a line removes nothing. */
  lemma WrittenOnly(q: Path, lines: seq<Line>, entry: ManifestEntry, log0: seq<Event>, log: seq<Event>)
    requires WroteInTurn(q, lines, entry, log0, log)
    ensures log0 <= log && NothingRemoved(Since(log0, log))
  {
    hide Begun, Unfinished, Appended;
    var k :| WroteUpTo(WritesOf(q, lines, entry), log0, log, k);
  }

  /** A place in quarantine made by `stage`. */
  predicate IsDest(q: Path, d: Path) {
    d != [] && Parent(d) == q && "staged-" <= Last(d)
  }

  lemma DestNamed(q: Path, name: Name)
    requires STAGED_PREFIX <= name
    ensures IsDest(q, q + [name]) && Last(q + [name]) == name && q + [name] != []
  {
  }

  lemma DestNotManifest(q: Path, d: Path)
    requires IsDest(q, d)
    ensures q < d && !(d <= ManifestPath(q)) && !(ManifestPath(q) <= d)
  {
    assert Last(ManifestPath(q)) == MANIFEST && MANIFEST[0] == 'm' && Last(d)[0] == 's';
    assert |d| == |ManifestPath(q)|;
  }

  class Executor {
    const disk: Disk
    const process: Process
    const q: Path
    var staged: seq<Path>

    constructor (disk: Disk, process: Process, q: Path)
      ensures this.disk == disk && this.process == process && this.q == q && staged == []
    {
      this.disk, this.process, this.q, staged := disk, process, q, [];
    }

    ghost predicate Valid()
      reads this, disk
    {
      Ready(q, disk.tree) && forall i :: 0 <= i < |staged| ==> IsDest(q, staged[i])
    }

    method TruncateManifest(ghost s: Setup)
      requires Ready(q, disk.tree) && s.q == q
      modifies disk
      ensures Ready(q, disk.tree) && old(disk.faults) <= disk.faults
      ensures RanQuietly(s, old(disk.tree), old(disk.log), disk.tree, disk.log)
      ensures SameButManifest(q, old(disk.tree), disk.tree)
      ensures disk.tree[ManifestPath(q)] == File([]) || disk.tree == old(disk.tree)
      ensures exists ok :: disk.log == old(disk.log) + [Event(Write(ManifestPath(q), []), ok)]
      ensures disk.faults == old(disk.faults) ==> disk.tree[ManifestPath(q)] == File([])
    {
      var ok := disk.Attempt(Write(ManifestPath(q), []));
      assert Parent(ManifestPath(q)) == q;
      QuietNothing(s, old(disk.tree), old(disk.log));
      QuietSnoc(s, old(disk.tree), old(disk.log), old(disk.tree), old(disk.log), Event(Write(ManifestPath(q), []), ok));
    }

    method ReadManifest() returns (entries: seq<ManifestEntry>)
      requires Ready(q, disk.tree)
      modifies disk`faults
      ensures old(disk.faults) <= disk.faults
      ensures entries == [] || entries == Decoded(disk.tree[ManifestPath(q)].lines)
      ensures disk.faults == old(disk.faults) ==> entries == Decoded(disk.tree[ManifestPath(q)].lines)
      ensures disk.faults == old(disk.faults) ==>
                exists places :: DecodedAt(disk.tree[ManifestPath(q)].lines, places, entries)
    {
      ghost var places := DecodedPlaces(disk.tree[ManifestPath(q)].lines);
      var r := disk.Stat(ManifestPath(q));
      entries := if r.Found? then Decoded(r.node.lines) else [];
    }

    /** A line becomes an entry once it is complete but for its newline; the writing may stop before that or before the
        newline. */
    method Append(entry: ManifestEntry, ghost s: Setup)
      requires Ready(q, disk.tree) && s.q == q
      modifies disk
      ensures Ready(q, disk.tree) && old(disk.faults) <= disk.faults
      ensures RanQuietly(s, old(disk.tree), old(disk.log), disk.tree, disk.log)
      ensures SameButManifest(q, old(disk.tree), disk.tree)
      ensures Decoded(disk.tree[ManifestPath(q)].lines) <= Decoded(old(disk.tree)[ManifestPath(q)].lines) + [entry]
      // The first write to fail is the last.
      ensures WroteInTurn(q, old(disk.tree)[ManifestPath(q)].lines, entry, old(disk.log), disk.log)
      ensures disk.faults == old(disk.faults) ==>
                && disk.tree[ManifestPath(q)] == File(Appended(old(disk.tree)[ManifestPath(q)].lines, entry))
                && disk.log == old(disk.log) + WritesOf(q, old(disk.tree)[ManifestPath(q)].lines, entry)
                && LineAdded(old(disk.tree)[ManifestPath(q)].lines, entry, disk.tree[ManifestPath(q)].lines)
    {
      hide Decoded, Ended, EndsOpen, LineAdded, Appended, Begun, Unfinished, RanQuietly, WellFormed;
      var m := ManifestPath(q);
      ghost var t0, log0 := disk.tree, disk.log;
      var lines := disk.tree[m].lines;
      AppendedAdds(lines, entry);
      ghost var writes := WritesOf(q, lines, entry);
      WritesInTurn(q, lines, entry, log0);
      assert Parent(m) == q;
      QuietNothing(s, t0, log0);
      assert Decoded(Ended(lines)) <= Decoded(lines) <= Decoded(lines) + [entry];
      var begun := disk.Attempt(Write(m, Begun(lines)));
      ghost var t1, log1 := disk.tree, disk.log;
      QuietSnoc(s, t0, log0, t0, log0, Event(Write(m, Begun(lines)), begun));
      if !begun {
        assert WroteUpTo(writes, log0, disk.log, 0);
        return;
      }
      var told := disk.Attempt(Write(m, Unfinished(lines, entry)));
      ghost var t2, log2 := disk.tree, disk.log;
      QuietSnoc(s, t0, log0, t1, log1, Event(Write(m, Unfinished(lines, entry)), told));
      if !told {
        assert WroteUpTo(writes, log0, disk.log, 1);
        return;
      }
      var whole := disk.Attempt(Write(m, Appended(lines, entry)));
      QuietSnoc(s, t0, log0, t2, log2, Event(Write(m, Appended(lines, entry)), whole));
      assert WroteUpTo(writes, log0, disk.log, if whole then 3 else 2);
    }

    /** Moves one candidate into quarantine by a single rename. */
    method Stage(item: Item, canonical: Path, ghost s: Setup) returns (ok: bool, ghost d: Path)
      requires Valid() && s.q == q && ValidSetup(s) && InRoot(s, canonical)
      modifies this, disk, process
      ensures Valid() && old(disk.faults) <= disk.faults
      ensures Ran(s, old(disk.tree), old(disk.log), disk.tree, disk.log)
      ensures StagingAttempts(Since(old(disk.log), disk.log)) == [(canonical, ok)]
      ensures NothingMade(Since(old(disk.log), disk.log))
      ensures old(disk.log) <= disk.log && NothingRemoved(Since(old(disk.log), disk.log))
      // The name in quarantine is the process's next one.
      ensures d != [] && IsDest(q, d) && NamedAt(Last(d), process.pid, old(process.counter))
      ensures process.counter == (old(process.counter) + 1) % (U64_MAX + 1)
      // It either happened whole or not at all.
      ensures !ok ==> disk.tree == old(disk.tree) && staged == old(staged)
      ensures !ok ==> disk.log == old(disk.log) + [Event(Rename(canonical, d), false)]
      ensures ok ==>
                && staged == old(staged) + [d] && Gone(q, old(disk.tree), canonical, disk.tree)
                && Permits(old(disk.tree), Rename(canonical, d)) && !(canonical <= d)
                && SameButManifest(q, Moved(old(disk.tree), canonical, d), disk.tree)
      // A line that says where the tree came from is written after the rename, as far as that goes.
      ensures ok ==> WroteInTurn(q, old(disk.tree)[ManifestPath(q)].lines,
                                 ManifestEntry(Last(d), canonical, item.rule, item.tier, item.bytes),
                                 old(disk.log) + [Event(Rename(canonical, d), true)], disk.log)
      ensures ok && disk.faults == old(disk.faults) ==>
                var entry := ManifestEntry(Last(d), canonical, item.rule, item.tier, item.bytes);
                var lines := old(disk.tree)[ManifestPath(q)].lines;
                && disk.tree[ManifestPath(q)] == File(Appended(lines, entry))
                && disk.log == old(disk.log) + [Event(Rename(canonical, d), true)] + WritesOf(q, lines, entry)
      // Without a fault only a missing tree or a name already taken can stop it.
      ensures disk.faults == old(disk.faults) && !ok ==> canonical !in old(disk.tree) || d in old(disk.tree)
    {
      hide WroteInTurn, NothingRemoved, LineAdded, Ran, StagingAttempts, NothingMade, Since, WellFormed, Gone,
        SameButManifest, Permits, Do, ValidSetup, InRoot, Appended, Decoded, NameOf, NamedAt, RanQuietly,
        WritesOf, IsDest;
      var name := process.UniqueName(STAGED_PREFIX);
      NamedNow(name, process.pid, old(process.counter));
      var dest := q + [name];
      d := dest;
      DestNamed(q, name);
      DestNotManifest(q, dest);
      StageAttempt(s, disk.tree, canonical, dest);
      ghost var t0, log0 := disk.tree, disk.log;
      ok := disk.Attempt(Rename(canonical, dest));
      StageTried(s, t0, log0, canonical, dest, ok);
      RemovedNone(log0, Since(log0, log0));
      RemovedNoneMore(log0, log0, Event(Rename(canonical, dest), ok));
      ghost var t1, log1 := disk.tree, disk.log;
      if !ok {
        return;
      }
      StagedAway(s, t0, canonical, dest);
      // The tree is out of the way already: a manifest line that cannot be written does not undo that.
      Append(ManifestEntry(name, canonical, item.rule, item.tier, item.bytes), s);
      WrittenOnly(q, t1[ManifestPath(q)].lines, ManifestEntry(name, canonical, item.rule, item.tier, item.bytes), log1,
                  disk.log);
      RemovedNoneLater(log0, log1, disk.log);
      StageOver(s, t0, log0, t1, log1, disk.tree, disk.log, canonical);
      GoneButManifest(q, t0, canonical, t1, disk.tree);
      staged := staged + [dest];
    }

    /** Removes one tree from quarantine. */
    method Clear(top: Path, ghost s: Setup) returns (stats: RemoveStats)
      requires Ready(q, disk.tree) && s.q == q && top != [] && Parent(top) == q && top != ManifestPath(q)
      modifies disk
      ensures Ready(q, disk.tree) && old(disk.faults) <= disk.faults
      ensures RanQuietly(s, old(disk.tree), old(disk.log), disk.tree, disk.log)
      ensures Pruned(old(disk.tree), disk.tree, top)
      ensures disk.tree[ManifestPath(q)] == old(disk.tree)[ManifestPath(q)]
      ensures old(disk.log) <= disk.log && Classed(Since(old(disk.log), disk.log), stats)
      ensures stats.errors == [] ==> forall p :: p in disk.tree ==> !(top <= p)
      ensures disk.faults == old(disk.faults) ==> stats.errors == []
    {
      ghost var reached;
      ghost var t0, log0 := disk.tree, disk.log;
      stats, reached := RemoveTree(disk, top);
      ClearedOne(s, t0, disk.tree, top, log0, disk.log, stats, reached);
    }

    /** Removes what was staged since the executor was opened. The manifest goes only if none of that is left, whatever
        an earlier run may have left beside it. */
    method Drain(ghost s: Setup) returns (stats: RemoveStats)
      requires Valid() && s.q == q
      modifies disk
      ensures Valid() && old(disk.faults) <= disk.faults
      ensures RanQuietly(s, old(disk.tree), old(disk.log), disk.tree, disk.log)
      ensures PrunedAll(q, old(disk.tree), disk.tree, staged)
      ensures stats.errors == [] ==> NoneLeft(disk.tree, staged)
      ensures stats.errors != [] ==> disk.tree[ManifestPath(q)] == old(disk.tree)[ManifestPath(q)]
      ensures disk.tree[ManifestPath(q)] == File([]) || disk.tree[ManifestPath(q)] == old(disk.tree)[ManifestPath(q)]
      // What is left over then was not staged by this run.
      ensures stats.errors == [] ==> Leftovers(q, disk.tree) == Leftovers(q, old(disk.tree)) - set d | d in staged
      // The counts are those of the calls that took effect.
      ensures old(disk.log) <= disk.log && Classed(Since(old(disk.log), disk.log), stats)
      ensures disk.faults == old(disk.faults) ==> stats.errors == [] && disk.tree[ManifestPath(q)] == File([])
    {
      hide RanQuietly, WellFormed, PrunedAll, NoneLeft, Classed, Since;
      stats := RemoveStats(0, 0, []);
      ghost var t0, log0 := disk.tree, disk.log;
      QuietNothing(s, t0, log0);
      PrunedNothing(q, t0);
      ClassedNothing(log0);
      for i := 0 to |staged|
        invariant log0 <= disk.log && Classed(Since(log0, disk.log), stats)
        invariant Ready(q, disk.tree) && old(disk.faults) <= disk.faults
        invariant RanQuietly(s, t0, log0, disk.tree, disk.log)
        invariant PrunedAll(q, t0, disk.tree, staged[..i])
        invariant disk.tree[ManifestPath(q)] == t0[ManifestPath(q)]
        invariant stats.errors == [] ==> NoneLeft(disk.tree, staged[..i])
        invariant disk.faults == old(disk.faults) ==> stats.errors == []
      {
        ghost var t1, log1 := disk.tree, disk.log;
        DestNotManifest(q, staged[i]);
        var one := Clear(staged[i], s);
        QuietTransitive(s, t0, log0, t1, log1, disk.tree, disk.log);
        PrunedOneMore(q, t0, t1, disk.tree, staged[..i], staged[i]);
        assert staged[..i + 1] == staged[..i] + [staged[i]];
        ClassedMerge(log0, log1, disk.log, stats, one);
        stats := Merge(stats, one);
      }
      assert staged[..|staged|] == staged;
      if stats.errors == [] {
        ghost var t1, log1 := disk.tree, disk.log;
        TruncateManifest(s);
        ClassedWrite(log0, log1, disk.log[|log1|], stats);
        QuietTransitive(s, t0, log0, t1, log1, disk.tree, disk.log);
        PrunedButManifest(q, t0, t1, disk.tree, staged);
        LeftBehind(q, t0, disk.tree, staged);
      }
    }

    /** Clears whatever is in quarantine but the manifest, without asking where it came from. */
    method Recover(ghost s: Setup) returns (rec: Recovery)
      requires Valid() && s.q == q
      modifies disk
      ensures Valid() && old(disk.faults) <= disk.faults
      ensures RanQuietly(s, old(disk.tree), old(disk.log), disk.tree, disk.log)
      ensures SameOutside(q, old(disk.tree), disk.tree)
      ensures OnlyLess(q, old(disk.tree), disk.tree)
      ensures rec.fromManifest == [] || rec.fromManifest == Decoded(old(disk.tree)[ManifestPath(q)].lines)
      ensures rec.entries <= |Leftovers(q, old(disk.tree))|
      ensures old(disk.log) <= disk.log && Classed(Since(old(disk.log), disk.log), rec.stats)
      ensures rec.entries == 0 ==> NothingRemoved(Since(old(disk.log), disk.log))
      // The manifest is truncated only by a pass that cleared something and met no error.
      ensures rec.entries == 0 || rec.stats.errors != [] ==>
                disk.tree[ManifestPath(q)] == old(disk.tree)[ManifestPath(q)]
      // Without faults everything left behind is found and removed.
      ensures disk.faults == old(disk.faults) ==>
                && Recovered(q, old(disk.tree), disk.tree)
                && rec.stats.errors == [] && rec.entries == |Leftovers(q, old(disk.tree))|
                && (rec.entries > 0 ==> disk.tree[ManifestPath(q)] == File([]))
                && rec.fromManifest == Decoded(old(disk.tree)[ManifestPath(q)].lines)
    {
      hide RanQuietly, WellFormed, PrunedAll, NoneLeft, Recovered, SameOutside,
        Leftovers, IsListing, OnlyLess, Classed, Since;
      var lines := ReadManifest();
      rec := Recovery(0, RemoveStats(0, 0, []), lines);
      ghost var t0, log0 := disk.tree, disk.log;
      QuietNothing(s, t0, log0);
      PrunedNothing(q, t0);
      ClassedNothing(log0);
      RemovedNone(log0, Since(log0, log0));
      var entries := disk.List(q);
      ghost var faults := disk.faults;
      if entries.None? {
        NotCleared(q, t0);
        return;
      }
      ghost var tops: seq<Path> := [];
      for i := 0 to |entries.value|
        invariant Ready(q, disk.tree) && faults <= disk.faults
        invariant RanQuietly(s, t0, log0, disk.tree, disk.log)
        invariant log0 <= disk.log && Classed(Since(log0, disk.log), rec.stats)
        invariant tops == [] ==> disk.log == log0
        invariant PrunedAll(q, t0, disk.tree, tops) && tops == Entries(q, entries.value[..i])
        invariant disk.tree[ManifestPath(q)] == t0[ManifestPath(q)]
        invariant rec.entries == |tops| && rec.fromManifest == lines
        invariant rec.stats.errors == [] ==> NoneLeft(disk.tree, tops)
        invariant disk.faults == old(disk.faults) ==> rec.stats.errors == []
      {
        var path := entries.value[i];
        assert entries.value[..i + 1] == entries.value[..i] + [path];
        EntriesSnoc(q, entries.value[..i], path);
        if path == ManifestPath(q) {
          continue;
        }
        ghost var t1, log1 := disk.tree, disk.log;
        ListedInQuarantine(q, t0, entries.value, i);
        var one := Clear(path, s);
        QuietTransitive(s, t0, log0, t1, log1, disk.tree, disk.log);
        PrunedOneMore(q, t0, t1, disk.tree, tops, path);
        tops := tops + [path];
        ClassedMerge(log0, log1, disk.log, rec.stats, one);
        rec := rec.(entries := rec.entries + 1, stats := Merge(rec.stats, one));
      }
      assert entries.value[..|entries.value|] == entries.value;
      ghost var t1, log1 := disk.tree, disk.log;
      AllEntries(q, t0, t1, entries.value);
      if rec.entries > 0 && rec.stats.errors == [] {
        TruncateManifest(s);
        ClassedWrite(log0, log1, disk.log[|log1|], rec.stats);
        QuietTransitive(s, t0, log0, t1, log1, disk.tree, disk.log);
        TruncatedToo(q, t0, t1, disk.tree);
      }
    }

    /** Opens quarantine, creating it if need be; `null` is the refusal to sweep without it. */
    static method Open(disk: Disk, process: Process, dir: Path, ghost s: Setup) returns (ex: Executor?)
      requires WellFormed(disk.tree) && dir != [] && s.q == dir
      modifies disk
      ensures WellFormed(disk.tree) && old(disk.faults) <= disk.faults
      ensures Ran(s, old(disk.tree), old(disk.log), disk.tree, disk.log)
      ensures StagingAttempts(Since(old(disk.log), disk.log)) == []
      ensures old(disk.log) <= disk.log && NothingRemoved(Since(old(disk.log), disk.log))
      ensures ex != null ==>
                fresh(ex) && ex.disk == disk && ex.process == process && ex.q == dir && ex.staged == [] && ex.Valid()
      // It adds only what is missing, and without faults refuses only where something else stands in the way.
      ensures ex != null ==> Furnished(dir, old(disk.tree), disk.tree)
      ensures disk.faults == old(disk.faults) ==> (ex != null <==> Openable(dir, old(disk.tree)))
    {
      hide Ran, StagingAttempts, Since, Permits, OpenedTo, Openable, Furnished, NothingRemoved, Making;
      ghost var t0, log0 := disk.tree, disk.log;
      MakingStarts(s, t0, log0);
      OpenStarts(dir, t0);
      // `create_dir_all`
      for i := 1 to |dir| + 1
        invariant WellFormed(disk.tree) && old(disk.faults) <= disk.faults
        invariant Making(s, t0, log0, disk.tree, disk.log)
        invariant i > 1 ==> dir[..i - 1] in disk.tree && disk.tree[dir[..i - 1]] == Dir
        invariant OpenedTo(dir, t0, disk.tree, i - 1)
      {
        var p := dir[..i];
        ghost var t1, log1 := disk.tree, disk.log;
        var there := disk.Stat(p);
        if !(there.Found? && there.node == Dir) {
          var ok := disk.Attempt(MkDir(p));
          MakingMore(s, t0, log0, t1, log1, Event(MkDir(p), ok));
          if !ok {
            MakingMeans(s, t0, log0, disk.tree, disk.log);
            if disk.faults == old(disk.faults) { NoWay(dir, t0, t1, i); }
            return null;
          }
          MadeDir(t1, p);
        }
        OneLevel(dir, t0, t1, i, disk.tree);
      }
      assert dir[..|dir|] == dir;
      var m := ManifestPath(dir);
      assert Parent(m) == dir;
      ghost var t1, log1 := disk.tree, disk.log;
      ManifestThere(dir, t0, t1);
      var there := disk.Stat(m);
      MakingMeans(s, t0, log0, disk.tree, disk.log);
      if there.Refused? || (there.Found? && !there.node.File?) {
        return null;
      }
      if there.Missing? {
        var ok := disk.Attempt(Write(m, []));
        MakingMore(s, t0, log0, t1, log1, Event(Write(m, []), ok));
        MakingMeans(s, t0, log0, disk.tree, disk.log);
        if !ok {
          if disk.faults == old(disk.faults) { ManifestWritable(dir, t1); }
          return null;
        }
        MadeFile(t1, m);
      }
      AllOpened(dir, t0, t1, disk.tree);
      ex := new Executor(disk, process, dir);
    }
  }

  // ------------------------------------------------------------- a quarantine that may not be there yet

  ghost predicate Level(q: Path, t: Tree, k: nat)
    requires 0 < k <= |q|
  {
    if q[..k] in t then t[q[..k]] == Dir else Last(q[..k]) != DOTDOT
  }

  /** Nothing but directories stands on the way to quarantine, and nothing but a file in the manifest's place. */
  ghost predicate Openable(q: Path, t: Tree) {
    && (forall k :: 0 < k <= |q| ==> Level(q, t, k))
    && (ManifestPath(q) in t ==> t[ManifestPath(q)].File?)
  }

  /** `r` is `t` with the directories on the way to quarantine down to the `n`th. */
  ghost predicate OpenedTo(q: Path, t: Tree, r: Tree, n: nat) {
    forall p :: (p in r <==> p in t || (p <= q && |p| <= n)) && (p in r ==> r[p] == if p in t then t[p] else Dir)
  }

  /** `r` is `t` with quarantine, the directories above it and its manifest, where they were missing. */
  ghost predicate Furnished(q: Path, t: Tree, r: Tree) {
    forall p ::
      && (p in r <==> p in t || p <= q || p == q + ["manifest.jsonl"])
      && (p in r ==> r[p] == if p in t then t[p] else if p <= q then Dir else File([]))
  }

  lemma OpenStarts(q: Path, t: Tree)
    requires WellFormed(t)
    ensures OpenedTo(q, t, t, 0)
  {
  }

  lemma OneLevel(q: Path, t: Tree, r: Tree, i: nat, r': Tree)
    requires 0 < i <= |q| && OpenedTo(q, t, r, i - 1)
    requires if q[..i] in r then r[q[..i]] == Dir && r' == r else r' == r[q[..i] := Dir]
    ensures OpenedTo(q, t, r', i)
  {
    forall p | p <= q && |p| == i ensures p == q[..i] {}
  }

  lemma NoWay(q: Path, t: Tree, r: Tree, i: nat)
    requires WellFormed(t) && 0 < i <= |q| && OpenedTo(q, t, r, i - 1) && !Permits(r, MkDir(q[..i]))
    requires q[..i] in r ==> r[q[..i]] != Dir
    requires i > 1 ==> q[..i - 1] in r && r[q[..i - 1]] == Dir
    ensures !Openable(q, t)
  {
    assert Parent(q[..i]) == q[..i - 1];
    assert !Level(q, t, i);
  }

  lemma ManifestThere(q: Path, t: Tree, r: Tree)
    requires OpenedTo(q, t, r, |q|)
    ensures ManifestPath(q) in r <==> ManifestPath(q) in t
    ensures ManifestPath(q) in r ==> r[ManifestPath(q)] == t[ManifestPath(q)]
    ensures ManifestPath(q) in r && !r[ManifestPath(q)].File? ==> !Openable(q, t)
  {
  }

  lemma ManifestWritable(q: Path, t: Tree)
    requires q in t && t[q] == Dir && ManifestPath(q) !in t
    ensures Permits(t, Write(ManifestPath(q), []))
  {
    assert Parent(ManifestPath(q)) == q;
  }

  lemma AllOpened(q: Path, t: Tree, r: Tree, r': Tree)
    requires OpenedTo(q, t, r, |q|) && WellFormed(r) && q in r && r[q] == Dir
    requires if ManifestPath(q) in r then r[ManifestPath(q)].File? && r' == r else r' == r[ManifestPath(q) := File([])]
    ensures Furnished(q, t, r') && Openable(q, t)
  {
    forall k | 0 < k <= |q| ensures Level(q, t, k) {
      if k < |q| { AncestorIsDir(r, q[..k], q); } else { assert q[..k] == q; }
      assert Last(q[..k]) == q[k - 1];
    }
  }

  /** A quarantine that is there already is left as it is. */
  lemma OpenedReady(q: Path, t: Tree, r: Tree)
    requires Ready(q, t) && Furnished(q, t, r)
    ensures r == t && Openable(q, t)
  {
    forall p | p <= q ensures p in t && t[p] == Dir { if p != q { AncestorIsDir(t, p, q); } }
    forall k | 0 < k <= |q| ensures Level(q, t, k) {
      if k < |q| { AncestorIsDir(t, q[..k], q); } else { assert q[..k] == q; }
    }
    assert forall p :: p in r <==> p in t;
  }

  lemma MadeDir(t: Tree, p: Path)
    requires Permits(t, MkDir(p))
    ensures Apply(t, Event(MkDir(p), true)) == t[p := Dir]
  {
  }

  lemma MadeFile(t: Tree, p: Path)
    requires Permits(t, Write(p, []))
    ensures Apply(t, Event(Write(p, []), true)) == t[p := File([])]
  {
  }

  /** Outside quarantine, `r` is `t` less the tree at `a`. */
  ghost predicate Gone(q: Path, t: Tree, a: Path, r: Tree) {
    forall p :: !(q < p) ==> (p in r <==> p in t && !(a <= p)) && (p in r ==> r[p] == t[p])
  }

  lemma StagedAway(s: Setup, t: Tree, a: Path, dest: Path)
    requires ValidSetup(s) && Ready(s.q, t) && InRoot(s, a) && IsDest(s.q, dest)
    requires Permits(t, Rename(a, dest))
    ensures Ready(s.q, Do(t, Rename(a, dest))) && Gone(s.q, t, a, Do(t, Rename(a, dest)))
    ensures Do(t, Rename(a, dest))[ManifestPath(s.q)] == t[ManifestPath(s.q)]
  {
    DoKeepsWellFormed(t, Rename(a, dest));
    DestNotManifest(s.q, dest);
    RootsApart(s, a, a);
    assert !(dest <= s.q);
    assert !(a <= ManifestPath(s.q)) by {
      if a <= ManifestPath(s.q) { PrefixesCompare(a, s.q, ManifestPath(s.q)); }
    }
  }

  lemma StageAttempt(s: Setup, t: Tree, a: Path, dest: Path)
    requires ValidSetup(s) && Ready(s.q, t) && InRoot(s, a) && IsDest(s.q, dest)
    ensures !(a <= dest) && forall before :: Attempts(s, before, Rename(a, dest))
    ensures Permits(t, Rename(a, dest)) ==> Do(t, Rename(a, dest)) == Moved(t, a, dest)
    ensures !Permits(t, Rename(a, dest)) ==> a !in t || dest in t
  {
    RootsApart(s, a, a);
    DestNotManifest(s.q, dest);
    if a <= dest { PrefixesCompare(a, s.q, dest); }
  }

  lemma StageTried(s: Setup, t: Tree, log: seq<Event>, a: Path, dest: Path, ok: bool)
    requires ValidSetup(s) && Ready(s.q, t) && InRoot(s, a) && IsDest(s.q, dest)
    requires ok ==> Permits(t, Rename(a, dest))
    ensures var e := Event(Rename(a, dest), ok);
            && log <= log + [e] && Ran(s, t, log, Apply(t, e), log + [e])
            && StagingAttempts(Since(log, log + [e])) == [(a, ok)] && NothingMade(Since(log, log + [e]))
  {
    hide ValidSetup, InRoot, Permits, Ran, StagingAttempts, Ready;
    StageAttempt(s, t, a, dest);
    RanNothing(s, t, log);
    RanSnoc(s, t, log, t, log, Event(Rename(a, dest), ok));
  }

  lemma StageOver(s: Setup, t0: Tree, log0: seq<Event>, t1: Tree, log1: seq<Event>, t2: Tree, log2: seq<Event>, a: Path)
    requires Ran(s, t0, log0, t1, log1) && log0 <= log1 && RanQuietly(s, t1, log1, t2, log2)
    requires StagingAttempts(Since(log0, log1)) == [(a, true)] && NothingMade(Since(log0, log1))
    ensures log0 <= log2 && Ran(s, t0, log0, t2, log2)
    ensures StagingAttempts(Since(log0, log2)) == [(a, true)] && NothingMade(Since(log0, log2))
  {
    hide Ran, StagingAttempts, RanQuietly;
    QuietMeans(s, t1, log1, t2, log2);
    RanTransitive(s, t0, log0, t1, log1, t2, log2);
    assert Since(log0, log2) == Since(log0, log1) + Since(log1, log2);
    StagingConcat(Since(log0, log1), Since(log1, log2));
  }

  lemma GoneButManifest(q: Path, t: Tree, a: Path, r: Tree, r': Tree)
    requires Gone(q, t, a, r) && SameButManifest(q, r, r')
    ensures Gone(q, t, a, r')
  {
  }

  /** But for the manifest, `r` is `t` with some nodes at or below `tops` gone. */
  ghost predicate PrunedAll(q: Path, t: Tree, r: Tree, tops: seq<Path>) {
    forall p :: p != ManifestPath(q) ==>
      && (p in r ==> p in t && r[p] == t[p])
      && (p in t && (forall x :: x in tops ==> !(x <= p)) ==> p in r)
  }

  ghost predicate NoneLeft(t: Tree, tops: seq<Path>) {
    forall x, p :: x in tops && p in t ==> !(x <= p)
  }

  lemma PrunedNothing(q: Path, t: Tree)
    ensures PrunedAll(q, t, t, []) && NoneLeft(t, [])
  {
  }

  lemma PrunedOneMore(q: Path, t: Tree, r: Tree, r': Tree, tops: seq<Path>, top: Path)
    requires PrunedAll(q, t, r, tops) && Pruned(r, r', top)
    ensures PrunedAll(q, t, r', tops + [top])
    ensures NoneLeft(r, tops) && (forall p :: p in r' ==> !(top <= p)) ==> NoneLeft(r', tops + [top])
  {
    var more := tops + [top];
    assert top in more && forall x :: x in tops ==> x in more;
    forall p | p in t && p != ManifestPath(q) && forall x :: x in more ==> !(x <= p) ensures p in r' {}
  }

  lemma PrunedButManifest(q: Path, t: Tree, r: Tree, r': Tree, tops: seq<Path>)
    requires PrunedAll(q, t, r, tops) && SameButManifest(q, r, r')
    requires forall i :: 0 <= i < |tops| ==> IsDest(q, tops[i])
    ensures PrunedAll(q, t, r', tops)
    ensures NoneLeft(r, tops) ==> NoneLeft(r', tops)
  {
    forall x | x in tops ensures !(x <= ManifestPath(q)) { DestNotManifest(q, x); }
  }

  lemma ClearedOne(s: Setup, t0: Tree, t: Tree, top: Path, log0: seq<Event>, log: seq<Event>, stats: RemoveStats,
                   reached: set<Path>)
    requires Ready(s.q, t0) && WellFormed(t) && log0 <= log
    requires top != [] && Parent(top) == s.q && top != ManifestPath(s.q)
    requires Outcome(t0, t, top, Since(log0, log), stats, reached)
    ensures Ready(s.q, t) && t[ManifestPath(s.q)] == t0[ManifestPath(s.q)]
    ensures RanQuietly(s, t0, log0, t, log)
  {
    var d := Since(log0, log);
    assert s.q < top && |top| == |ManifestPath(s.q)| && !(top <= ManifestPath(s.q));
    RanHonest(s, t0, d);
  }

  ghost predicate OnlyLess(q: Path, t: Tree, r: Tree) {
    forall p :: p in r && p != ManifestPath(q) ==> p in t && r[p] == t[p]
  }

  // ------------------------------------------------------------- recovery

  /** The listed paths a recovery removes. */
  ghost function Entries(q: Path, listed: seq<Path>): seq<Path> {
    if listed == [] then []
    else
      var p := listed[|listed| - 1];
      Entries(q, listed[..|listed| - 1]) + if p == ManifestPath(q) then [] else [p]
  }

  lemma EntriesSnoc(q: Path, listed: seq<Path>, p: Path)
    ensures Entries(q, listed + [p]) == Entries(q, listed) + if p == ManifestPath(q) then [] else [p]
  {
  }

  lemma {:induction false} EntriesMembers(q: Path, listed: seq<Path>)
    requires forall i, j :: 0 <= i < j < |listed| ==> listed[i] != listed[j]
    ensures forall p :: p in Entries(q, listed) <==> p in listed && p != ManifestPath(q)
    ensures |set p | p in listed && p != ManifestPath(q)| == |Entries(q, listed)|
    decreases |listed|
  {
    if listed != [] {
      var p, rest := listed[|listed| - 1], listed[..|listed| - 1];
      EntriesMembers(q, rest);
      assert forall x :: x in listed <==> x in rest || x == p;
      assert p !in rest;
      var a := set x | x in listed && x != ManifestPath(q);
      var b := set x | x in rest && x != ManifestPath(q);
      if p == ManifestPath(q) { assert a == b; } else { assert a == b + {p} && p !in b; }
    }
  }

  lemma ListedInQuarantine(q: Path, t: Tree, listed: seq<Path>, i: nat)
    requires IsListing(t, q, listed) && i < |listed|
    ensures listed[i] != [] && Parent(listed[i]) == q && listed[i] in t
  {
  }

  lemma NotCleared(q: Path, t: Tree)
    ensures SameOutside(q, t, t) && OnlyLess(q, t, t)
  {
  }

  /** What removing the listed entries did to the tree. */
  lemma AllEntries(q: Path, t: Tree, r: Tree, listed: seq<Path>)
    requires Ready(q, t) && Ready(q, r) && IsListing(t, q, listed)
    requires PrunedAll(q, t, r, Entries(q, listed)) && r[ManifestPath(q)] == t[ManifestPath(q)]
    ensures SameOutside(q, t, r) && OnlyLess(q, t, r)
    ensures |Entries(q, listed)| <= |Leftovers(q, t)|
    ensures (forall x :: x in t && x != [] && Parent(x) == q ==> x in listed) ==>
              |Entries(q, listed)| == |Leftovers(q, t)| && (NoneLeft(r, Entries(q, listed)) ==> Recovered(q, t, r))
  {
    var tops := Entries(q, listed);
    EntriesMembers(q, listed);
    forall x | x in tops ensures q < x {}
    var found := set p | p in listed && p != ManifestPath(q);
    assert found <= Leftovers(q, t);
    SubsetSize(found, Leftovers(q, t));
    if forall x :: x in t && x != [] && Parent(x) == q ==> x in listed {
      assert found == Leftovers(q, t);
      if NoneLeft(r, tops) {
        forall p | p in r && q < p ensures p == ManifestPath(q) {
          OnlyManifestBelow(q, t, r, p, listed);
        }
      }
    }
  }

  lemma SubsetSize<T>(a: set<T>, b: set<T>)
    requires a <= b
    ensures |a| <= |b|
  {
    assert b == a + (b - a);
  }

  lemma OnlyManifestBelow(q: Path, t: Tree, r: Tree, p: Path, listed: seq<Path>)
    requires Ready(q, r) && p in r && q < p
    requires forall x :: x in r && x != ManifestPath(q) ==> x in t
    requires forall x :: x in t && x != [] && Parent(x) == q ==> x in listed
    requires NoneLeft(r, Entries(q, listed))
    requires forall x :: x in listed && x != ManifestPath(q) ==> x in Entries(q, listed)
    ensures p == ManifestPath(q)
  {
    var c := ChildTowards(r, q, p);
    if c != ManifestPath(q) {
      assert false;
    } else if c != p {
      AncestorIsDir(r, c, p);
    }
  }

  lemma TruncatedToo(q: Path, t: Tree, r: Tree, r': Tree)
    requires SameOutside(q, t, r) && SameButManifest(q, r, r')
    ensures SameOutside(q, t, r')
    ensures OnlyLess(q, t, r) ==> OnlyLess(q, t, r')
    ensures Recovered(q, t, r) ==> Recovered(q, t, r')
  {
  }

  // ------------------------------------------------------------- who owns what is in quarantine

  /** Quarantine holds only its manifest and trees this run staged. */
  ghost predicate Owned(q: Path, t: Tree, staged: seq<Path>) {
    forall p :: p in t && q < p && p != ManifestPath(q) ==> exists d :: d in staged && d <= p
  }

  lemma RecoveredOwned(q: Path, t: Tree)
    requires Cleared(q, t)
    ensures Owned(q, t, [])
  {
  }

  lemma StagedOwned(q: Path, t: Tree, a: Path, d: Path, r: Tree, staged: seq<Path>)
    requires Owned(q, t, staged) && !(a <= d) && SameButManifest(q, Moved(t, a, d), r)
    ensures Owned(q, r, staged + [d])
  {
    forall p | p in r && q < p && p != ManifestPath(q) ensures exists x :: x in staged + [d] && x <= p {
      if d <= p {
        assert d in staged + [d];
      } else {
        var x :| x in staged && x <= p;
        assert x in staged + [d];
      }
    }
  }

  /** What a clean drain leaves behind is what this run did not stage. */
  lemma LeftBehind(q: Path, t: Tree, r: Tree, staged: seq<Path>)
    requires PrunedAll(q, t, r, staged) && NoneLeft(r, staged)
    requires forall i :: 0 <= i < |staged| ==> IsDest(q, staged[i])
    ensures Leftovers(q, r) == Leftovers(q, t) - set d | d in staged
  {
    forall x | x in Leftovers(q, t) && x !in staged ensures x in r {
      forall d | d in staged ensures !(d <= x) {
        assert IsDest(q, d) && |d| == |x|;
        assert d <= x ==> d == x;
      }
    }
    forall x | x in Leftovers(q, r) ensures x !in staged {}
  }

  // ------------------------------------------------------------- recovering

  /** Recovering twice is recovering once: the second pass finds nothing and changes nothing. */
  method RecoverTwice(ex: Executor, ghost s: Setup) returns (first: Recovery, second: Recovery, ghost between: Tree)
    requires ex.Valid() && s.q == ex.q
    modifies ex.disk
    ensures ex.Valid() && old(ex.disk.faults) <= ex.disk.faults
    ensures ex.disk.faults == old(ex.disk.faults) ==>
              && first.entries == |Leftovers(ex.q, old(ex.disk.tree))| && Recovered(ex.q, old(ex.disk.tree), between)
              && second.entries == 0 && second.stats.errors == [] && ex.disk.tree == between
              && second.fromManifest == if first.entries > 0 then [] else first.fromManifest
  {
    ghost var t0 := ex.disk.tree;
    first := ex.Recover(s);
    between := ex.disk.tree;
    second := ex.Recover(s);
    if ex.disk.faults == old(ex.disk.faults) {
      NothingLeftOver(ex.q, t0, between);
      NothingMore(ex.q, between, ex.disk.tree);
    }
  }

  lemma NothingLeftOver(q: Path, t: Tree, r: Tree)
    requires Recovered(q, t, r)
    ensures Leftovers(q, r) == {}
  {
  }

  lemma NothingMore(q: Path, t: Tree, r: Tree)
    requires Cleared(q, t) && Recovered(q, t, r) && OnlyLess(q, t, r)
    requires ManifestPath(q) in t && ManifestPath(q) in r && t[ManifestPath(q)] == r[ManifestPath(q)]
    ensures r == t
  {
    assert forall p :: p in r <==> p in t;
  }

  /** A recovery and a drain of nothing. The drain empties the manifest without looking at what the recovery left, so a
      tree whose removal failed stays behind with nothing to say where it came from. */
  method RecoverThenDrain(ex: Executor, ghost s: Setup)
    returns (rec: Recovery, stats: RemoveStats, ghost between: Tree, ghost faults: nat)
    requires ex.Valid() && s.q == ex.q && ex.staged == []
    modifies ex.disk
    ensures ex.Valid() && old(ex.disk.faults) <= faults <= ex.disk.faults
    ensures SameOutside(ex.q, old(ex.disk.tree), between) && OnlyLess(ex.q, old(ex.disk.tree), between)
    ensures faults == old(ex.disk.faults) ==> Cleared(ex.q, between)
    // A drain without faults forgets exactly what the recovery before it left.
    ensures ex.disk.faults == faults ==>
              && ex.disk.tree[ManifestPath(ex.q)] == File([]) && SameButManifest(ex.q, between, ex.disk.tree)
              && Leftovers(ex.q, ex.disk.tree) == Leftovers(ex.q, between)
  {
    rec := ex.Recover(s);
    between, faults := ex.disk.tree, ex.disk.faults;
    if faults == old(ex.disk.faults) { RecoveredClear(ex.q, old(ex.disk.tree), between); }
    stats := ex.Drain(s);
    NothingPruned(ex.q, between, ex.disk.tree);
  }

  lemma RecoveredClear(q: Path, t: Tree, r: Tree)
    requires Recovered(q, t, r)
    ensures Cleared(q, r)
  {
  }

  lemma NothingPruned(q: Path, t: Tree, r: Tree)
    requires PrunedAll(q, t, r, [])
    ensures SameButManifest(q, t, r) && Leftovers(q, r) == Leftovers(q, t)
  {
  }

  /** A log such a run leaves when the one `rmdir` of its recovery fails: the leftover is still there, and the manifest,
      whatever it told, is empty. */
  lemma FaultForgets(s: Setup, t: Tree, x: Path)
    requires ValidSetup(s) && Ready(s.q, t) && x in Leftovers(s.q, t) && t[x] == Dir
    ensures var log := [Event(RmDir(x), false), Event(Write(ManifestPath(s.q), []), true)];
            && LawfulLog(s, t, log)
            && x in Leftovers(s.q, Replay(t, log)) && Replay(t, log)[ManifestPath(s.q)] == File([])
  {
    var m := ManifestPath(s.q);
    var e1, e2 := Event(RmDir(x), false), Event(Write(m, []), true);
    ManifestRewritable(s.q, t);
    RanNothing(s, t, []);
    RanSnoc(s, t, [], t, [], e1);
    RanSnoc(s, t, [], t, [e1], e2);
    assert [] + [e1] == [e1] && [e1] + [e2] == [e1, e2] && Since([], [e1, e2]) == [e1, e2];
  }

  lemma ManifestRewritable(q: Path, t: Tree)
    requires Ready(q, t)
    ensures Permits(t, Write(ManifestPath(q), []))
  {
    assert Parent(ManifestPath(q)) == q;
  }

  /** The start of the run after one that was killed after `k` attempts of its staging and draining, or was not. */
  method Resume(disk: Disk, process: Process, q: Path, ghost s: Setup, ghost t0: Tree, ghost log: seq<Event>,
                ghost m: nat, ghost k: nat)
    returns (ex: Executor?)
    requires ValidSetup(s) && s.q == q && StagedAndDrained(s, t0, log, m) && k <= |log|
    requires disk.tree == Replay(t0, log[..k])
    modifies disk
    ensures disk.faults == old(disk.faults) ==>
              ex != null && PickedUp(s, t0, log, m, k, disk.tree) && Leftovers(q, disk.tree) == {}
    ensures ex != null ==> fresh(ex) && ex.disk == disk && ex.q == q && ex.staged == [] && ex.Valid()
  {
    hide LawfulLog, Ready, Recovered, PickedUp, Leftovers, ValidSetup, Openable, Furnished, Cleared, Kept, Quiet,
      NothingMade;
    LawfulPrefix(s, t0, log, k);
    ReadyStays(s, t0, log[..k]);
    ReadyMeans(q, disk.tree);
    ex := Executor.Open(disk, process, q, s);
    if ex == null {
      return;
    }
    OpenedReady(q, old(disk.tree), disk.tree);
    var _ := ex.Recover(s);
    if disk.faults == old(disk.faults) {
      KilledAnywhere(s, t0, log, m, k, disk.tree);
      NothingLeftOver(q, old(disk.tree), disk.tree);
    }
  }

  lemma ReadyMeans(q: Path, t: Tree)
    requires Ready(q, t)
    ensures WellFormed(t) && q != [] && Openable(q, t)
  {
    OpenedAlready(q, t);
    OpenedReady(q, t, t);
  }

  lemma OpenedAlready(q: Path, t: Tree)
    requires Ready(q, t)
    ensures Furnished(q, t, t)
  {
    forall p | p <= q ensures p in t && t[p] == Dir { if p != q { AncestorIsDir(t, p, q); } }
  }
}

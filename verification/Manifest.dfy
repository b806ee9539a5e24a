/** What the manifest tells of the trees in quarantine, at every instant of a staging loop. */
module Manifests {
  import opened Paths
  import opened FileSystem
  import opened CrashSafety
  import opened Executors
  import opened Quarantine

  /** A tree staged: where from and where to. */
  datatype Arrival = Arrival(origin: Path, dest: Path)

  predicate Arrives(e: Event) {
    e.ok && IsStaging(e.call)
  }

  /** The trees a log staged, in order. */
  function Arrivals(log: seq<Event>): seq<Arrival> {
    if log == [] then []
    else
      var e := log[|log| - 1];
      Arrivals(log[..|log| - 1]) + if Arrives(e) then [Arrival(e.call.path, e.call.to)] else []
  }

  /** The manifest's entries that decode. */
  function Told(q: Path, t: Tree): seq<ManifestEntry> {
    var m := ManifestPath(q);
    if m in t && t[m].File? then Decoded(t[m].lines) else []
  }

  predicate EndsWell(q: Path, t: Tree) {
    var m := ManifestPath(q);
    m in t && t[m].File? && !EndsOpen(t[m].lines)
  }

  predicate TellsOf(e: ManifestEntry, a: Arrival) {
    a.dest != [] && e.entry == Last(a.dest) && e.original == a.origin
  }

  ghost predicate TellsAll(entries: seq<ManifestEntry>, arrivals: seq<Arrival>) {
    forall a :: a in arrivals ==> exists e :: e in entries && TellsOf(e, a)
  }

  function AllButLast(arrivals: seq<Arrival>): seq<Arrival> {
    if arrivals == [] then [] else arrivals[..|arrivals| - 1]
  }

  /** The log stops between a staging rename and the whole line it is followed by. */
  predicate MidLine(log: seq<Event>) {
    || (|log| >= 1 && Arrives(log[|log| - 1]))
    || (|log| >= 2 && Arrives(log[|log| - 2]))
  }

  ghost predicate Names(e: ManifestEntry, a: Arrival) {
    a.dest != [] && e.entry == Last(a.dest)
  }

  ghost predicate NamesApart(arrivals: seq<Arrival>) {
    forall i, j :: 0 <= i < j < |arrivals| ==>
      arrivals[i].dest == [] || arrivals[j].dest == [] || Last(arrivals[i].dest) != Last(arrivals[j].dest)
  }

  /** The names in quarantine are new: each differs from the others and from those the manifest held before. */
  ghost predicate Fresh(told: seq<ManifestEntry>, arrivals: seq<Arrival>) {
    (forall e, a :: e in told && a in arrivals ==> !Names(e, a)) && NamesApart(arrivals)
  }

  /** Killed with this log, the manifest tells where every tree staged so far came from but perhaps the last, and with
      fresh names the last too exactly if the kill did not fall within its line. */
  ghost predicate ToldExactly(q: Path, t0: Tree, t: Tree, log: seq<Event>) {
    && TellsAll(Told(q, t), AllButLast(Arrivals(log)))
    && (Fresh(Told(q, t0), Arrivals(log)) ==> (TellsAll(Told(q, t), Arrivals(log)) <==> !MidLine(log)))
  }

  /** Every entry was there before or tells of a tree staged since. */
  ghost predicate Traced(before: seq<ManifestEntry>, told: seq<ManifestEntry>, arrivals: seq<Arrival>) {
    forall e :: e in told ==> e in before || exists a :: a in arrivals && Names(e, a)
  }

  ghost predicate ToldUpTo(q: Path, t0: Tree, log: seq<Event>) {
    forall k :: 0 <= k <= |log| ==> ToldExactly(q, t0, Replay(t0, log[..k]), log[..k])
  }

  /** So it is at every instant of the log, and its end is between two candidates. */
  ghost predicate Documented(q: Path, t0: Tree, log: seq<Event>) {
    && ToldUpTo(q, t0, log) && !MidLine(log)
    && TellsAll(Told(q, Replay(t0, log)), Arrivals(log))
    && Traced(Told(q, t0), Told(q, Replay(t0, log)), Arrivals(log))
    && EndsWell(q, Replay(t0, log))
  }

  /** At every instant of the log the manifest tells all trees staged so far exactly if that instant is not within a
      line. */
  ghost predicate ToldBetweenLines(q: Path, t0: Tree, log: seq<Event>) {
    forall k :: 0 <= k <= |log| ==>
      (TellsAll(Told(q, Replay(t0, log[..k])), Arrivals(log[..k])) <==> !MidLine(log[..k]))
  }

  lemma DocumentedFresh(q: Path, t0: Tree, log: seq<Event>)
    requires Documented(q, t0, log) && Fresh(Told(q, t0), Arrivals(log))
    ensures ToldBetweenLines(q, t0, log)
  {
    hide Told, TellsAll, Arrivals, MidLine, Traced, EndsWell, Replay, Fresh;
    forall k | 0 <= k <= |log|
      ensures TellsAll(Told(q, Replay(t0, log[..k])), Arrivals(log[..k])) <==> !MidLine(log[..k])
    {
      ArrivalsPrefix(log, k);
      FreshPrefix(Told(q, t0), Arrivals(log[..k]), Arrivals(log));
      assert ToldExactly(q, t0, Replay(t0, log[..k]), log[..k]);
    }
  }

  lemma {:induction false} ArrivalsPrefix(log: seq<Event>, k: nat)
    requires k <= |log|
    ensures Arrivals(log[..k]) <= Arrivals(log)
    decreases |log|
  {
    if k == |log| {
      assert log[..k] == log;
    } else {
      ArrivalsPrefix(log[..|log| - 1], k);
      assert log[..|log| - 1][..k] == log[..k];
    }
  }

  lemma FreshPrefix(told: seq<ManifestEntry>, some: seq<Arrival>, all: seq<Arrival>)
    requires some <= all && Fresh(told, all)
    ensures Fresh(told, some)
  {
    assert forall a :: a in some ==> a in all;
  }

  /** The trees were named by one process, at counts below `n`. */
  ghost predicate NamedBelow(arrivals: seq<Arrival>, pid: nat, n: nat) {
    forall a :: a in arrivals ==> a.dest != [] && exists m: nat :: m < n && NamedAt(Last(a.dest), pid, m)
  }

  /** A name at a count not used before is a new one. */
  lemma NamedNext(arrivals: seq<Arrival>, a: Arrival, pid: nat, n: nat)
    requires NamedBelow(arrivals, pid, n) && NamesApart(arrivals) && a.dest != [] && NamedAt(Last(a.dest), pid, n)
    ensures NamedBelow(arrivals + [a], pid, n + 1) && NamesApart(arrivals + [a])
  {
    hide NamedAt;
    var all := arrivals + [a];
    forall i | 0 <= i < |arrivals| ensures Last(arrivals[i].dest) != Last(a.dest) {
      assert arrivals[i] in arrivals;
      var m: nat :| m < n && NamedAt(Last(arrivals[i].dest), pid, m);
      NamedApart(Last(arrivals[i].dest), Last(a.dest), pid, m, n);
    }
    forall b | b in all ensures b.dest != [] && exists m: nat :: m < n + 1 && NamedAt(Last(b.dest), pid, m) {
      if b in arrivals { var m: nat :| m < n && NamedAt(Last(b.dest), pid, m); }
    }
  }

  /** All of a log's arrivals bear names of one process, each its own, at counts below `n`. */
  ghost predicate WellNamed(log: seq<Event>, pid: nat, n: nat) {
    NamedBelow(Arrivals(log), pid, n) && NamesApart(Arrivals(log))
  }

  lemma NoneNamed(pid: nat, n: nat)
    ensures WellNamed([], pid, n)
  {
  }

  lemma NamedMore(log: seq<Event>, more: seq<Event>, pid: nat, n: nat)
    requires WellNamed(log, pid, n) && Arrivals(more) == Arrivals(log)
    ensures WellNamed(more, pid, n + 1)
  {
    hide Arrivals, NamesApart, NamedAt;
  }

  lemma ArrivalsSnoc(log: seq<Event>, e: Event)
    ensures Arrivals(log + [e]) == Arrivals(log) + if Arrives(e) then [Arrival(e.call.path, e.call.to)] else []
  {
    assert (log + [e])[..|log|] == log;
  }

  /** Staging adds one arrival, its failure none. */
  lemma StagingArrives(q: Path, log: seq<Event>, a: Path, d: Path, lines: seq<Line>, entry: ManifestEntry)
    requires IsDest(q, d)
    ensures Arrivals(log + [Event(Rename(a, d), true)] + WritesOf(q, lines, entry)) == Arrivals(log) + [Arrival(a, d)]
    ensures Arrivals(log + [Event(Rename(a, d), false)]) == Arrivals(log)
  {
    hide Arrivals, Begun, Unfinished, Appended;
    var w := WritesOf(q, lines, entry);
    var e, f := Event(Rename(a, d), true), Event(Rename(a, d), false);
    ArrivalsSnoc(log, f);
    ArrivalsSnoc(log, e);
    ArrivalsSnoc(log + [e], w[0]);
    ArrivalsSnoc(log + [e] + [w[0]], w[1]);
    ArrivalsSnoc(log + [e] + [w[0]] + [w[1]], w[2]);
    assert log + [e] + w == log + [e] + [w[0]] + [w[1]] + [w[2]];
  }

  lemma DocumentedNothing(q: Path, t0: Tree)
    requires EndsWell(q, t0)
    ensures Documented(q, t0, [])
  {
  }

  lemma ToldSnoc(q: Path, t0: Tree, log: seq<Event>, e: Event)
    requires ToldUpTo(q, t0, log) && ToldExactly(q, t0, Apply(Replay(t0, log), e), log + [e])
    ensures ToldUpTo(q, t0, log + [e])
  {
    hide ToldExactly;
    var more := log + [e];
    forall k | 0 <= k <= |more| ensures ToldExactly(q, t0, Replay(t0, more[..k]), more[..k]) {
      if k <= |log| {
        assert more[..k] == log[..k];
      } else {
        assert more[..k] == more;
        ReplaySnoc(t0, log, e);
      }
    }
  }

  /** A tree just staged under a fresh name is not told of. */
  lemma Untold(before: seq<ManifestEntry>, told: seq<ManifestEntry>, arrivals: seq<Arrival>, a: Arrival)
    requires Traced(before, told, arrivals) && Fresh(before, arrivals + [a])
    ensures !TellsAll(told, arrivals + [a])
  {
    var all := arrivals + [a];
    assert a in all && all[|arrivals|] == a;
    forall e | e in told ensures !TellsOf(e, a) {
      if e in before {
        assert !Names(e, a);
      } else {
        var b :| b in arrivals && Names(e, b);
        var i :| 0 <= i < |arrivals| && arrivals[i] == b;
        assert all[i] == b;
      }
    }
  }

  /** From the rename to the end of its line: what the manifest tells grows by the one entry at the second write. */
  lemma LineTold(q: Path, t0: Tree, log: seq<Event>, t: Tree, a: Arrival, earlier: seq<Arrival>, entry: ManifestEntry)
    requires ToldUpTo(q, t0, log) && log != [] && Arrives(log[|log| - 1])
    requires t == Replay(t0, log) && Ready(q, t) && EndsWell(q, t)
    requires Arrivals(log) == earlier + [a] && TellsAll(Told(q, t), earlier) && Traced(Told(q, t0), Told(q, t), earlier)
    requires TellsOf(entry, a)
    ensures Documented(q, t0, log + WritesOf(q, t[ManifestPath(q)].lines, entry))
  {
    hide ToldUpTo, ToldExactly, WellFormed, Decoded, Ended, EndsOpen, Begun, Unfinished, Appended, Arrivals, TellsAll,
      Traced, Fresh;
    var m := ManifestPath(q);
    var lines := t[m].lines;
    var told := Decoded(lines);
    var e1, e2, e3 := Event(Write(m, Begun(lines)), true), Event(Write(m, Unfinished(lines, entry)), true),
                      Event(Write(m, Appended(lines, entry)), true);
    EndedWell(lines);
    assert Parent(m) == q && Last(m) == MANIFEST && MANIFEST[0] == 'm';
    var t1, t2 := t[m := File(Begun(lines))], t[m := File(Unfinished(lines, entry))];
    var t3 := t[m := File(Appended(lines, entry))];
    assert Apply(t, e1) == t1 && Apply(t1, e2) == t2 && Apply(t2, e3) == t3;
    ArrivalsSnoc(log, e1);
    ArrivalsSnoc(log + [e1], e2);
    ArrivalsSnoc(log + [e1] + [e2], e3);
    ReplaySnoc(t0, log, e1);
    ReplaySnoc(t0, log + [e1], e2);
    ReplaySnoc(t0, log + [e1] + [e2], e3);
    NotTold(q, t0, t1, log + [e1], earlier, a);
    ToldSnoc(q, t0, log, e1);
    MoreTold(Told(q, t0), told, entry, earlier, a);
    NowTold(q, t0, t2, log + [e1] + [e2]);
    ToldSnoc(q, t0, log + [e1], e2);
    NowTold(q, t0, t3, log + [e1] + [e2] + [e3]);
    ToldSnoc(q, t0, log + [e1] + [e2], e3);
    assert log + WritesOf(q, lines, entry) == log + [e1] + [e2] + [e3];
  }

  lemma EndedWell(lines: seq<Line>)
    ensures !EndsOpen(lines) ==> Ended(lines) == lines
  {
  }

  lemma NotTold(q: Path, t0: Tree, t: Tree, log: seq<Event>, earlier: seq<Arrival>, a: Arrival)
    requires Arrivals(log) == earlier + [a] && MidLine(log)
    requires TellsAll(Told(q, t), earlier) && Traced(Told(q, t0), Told(q, t), earlier)
    ensures ToldExactly(q, t0, t, log)
  {
    hide Arrivals, MidLine, TellsAll, Traced, Told;
    assert AllButLast(earlier + [a]) == earlier;
    if Fresh(Told(q, t0), Arrivals(log)) {
      hide Fresh;
      Untold(Told(q, t0), Told(q, t), earlier, a);
    }
  }

  lemma NowTold(q: Path, t0: Tree, t: Tree, log: seq<Event>)
    requires TellsAll(Told(q, t), Arrivals(log)) && !MidLine(log)
    ensures ToldExactly(q, t0, t, log)
  {
    hide Arrivals, Told, MidLine;
    assert forall a :: a in AllButLast(Arrivals(log)) ==> a in Arrivals(log);
  }

  lemma MoreTold(before: seq<ManifestEntry>, told: seq<ManifestEntry>, entry: ManifestEntry, earlier: seq<Arrival>,
                 a: Arrival)
    requires TellsAll(told, earlier) && Traced(before, told, earlier) && TellsOf(entry, a)
    ensures TellsAll(told + [entry], earlier + [a]) && Traced(before, told + [entry], earlier + [a])
  {
    assert entry in told + [entry] && a in earlier + [a] && Names(entry, a);
    assert forall e :: e in told ==> e in told + [entry];
    assert forall b :: b in earlier ==> b in earlier + [a];
  }

  /** Staging one candidate, undisturbed, keeps the manifest's account. */
  lemma StagedTold(s: Setup, t0: Tree, log: seq<Event>, t: Tree, a: Path, d: Path, entry: ManifestEntry)
    requires ValidSetup(s) && InRoot(s, a) && Ready(s.q, t) && t == Replay(t0, log) && IsDest(s.q, d)
    requires Documented(s.q, t0, log) && Permits(t, Rename(a, d))
    requires entry.entry == Last(d) && entry.original == a
    ensures Documented(s.q, t0, log + [Event(Rename(a, d), true)] + WritesOf(s.q, t[ManifestPath(s.q)].lines, entry))
  {
    hide ToldUpTo, ToldExactly, ValidSetup, InRoot, WellFormed, Arrivals, TellsAll, Traced, Decoded, EndsOpen, Gone;
    var e := Event(Rename(a, d), true);
    StagedAway(s, t, a, d);
    ArrivalsSnoc(log, e);
    ReplaySnoc(t0, log, e);
    NotTold(s.q, t0, Apply(t, e), log + [e], Arrivals(log), Arrival(a, d));
    ToldSnoc(s.q, t0, log, e);
    LineTold(s.q, t0, log + [e], Apply(t, e), Arrival(a, d), Arrivals(log), entry);
  }

  /** A rename that fails changes nothing. */
  lemma UnstagedTold(q: Path, t0: Tree, log: seq<Event>, a: Path, d: Path)
    requires Documented(q, t0, log)
    ensures Documented(q, t0, log + [Event(Rename(a, d), false)])
  {
    hide ToldUpTo, TellsAll, Traced, EndsWell, Told, Arrivals;
    var e := Event(Rename(a, d), false);
    ArrivalsSnoc(log, e);
    ReplaySnoc(t0, log, e);
    assert Arrivals(log + [e]) == Arrivals(log);
    NowTold(q, t0, Replay(t0, log), log + [e]);
    ToldSnoc(q, t0, log, e);
  }

  /** A kill right after a rename leaves a tree in quarantine that the manifest does not mention. */
  lemma KilledAfterRename(s: Setup, t0: Tree, a: Path, d: Path)
    requires ValidSetup(s) && Ready(s.q, t0) && InRoot(s, a) && IsDest(s.q, d) && Permits(t0, Rename(a, d))
    requires Fresh(Told(s.q, t0), [Arrival(a, d)])
    ensures var log := [Event(Rename(a, d), true)];
            && LawfulLog(s, t0, log) && Arrivals(log) == [Arrival(a, d)]
            && !TellsAll(Told(s.q, Replay(t0, log)), Arrivals(log))
  {
    hide *;
    var e := Event(Rename(a, d), true);
    StageAttempt(s, t0, a, d);
    StagedAway(s, t0, a, d);
    FirstEvent(s, t0, a, d);
    SameTold(s.q, t0, Replay(t0, [e]));
    NoneTraced(Told(s.q, t0));
    assert [] + [Arrival(a, d)] == [Arrival(a, d)];
    Untold(Told(s.q, t0), Told(s.q, t0), [], Arrival(a, d));
  }

  lemma FirstEvent(s: Setup, t0: Tree, a: Path, d: Path)
    requires Permits(t0, Rename(a, d)) && Attempts(s, [], Rename(a, d)) && IsDest(s.q, d)
    ensures var log := [Event(Rename(a, d), true)];
            LawfulLog(s, t0, log) && Replay(t0, log) == Do(t0, Rename(a, d)) && Arrivals(log) == [Arrival(a, d)]
  {
    hide Permits, Do, Attempts;
    var e := Event(Rename(a, d), true);
    assert [e][..0] == [];
    assert Replay(t0, []) == t0 && Arrivals([]) == [];
    ReplaySnoc(t0, [], e);
    ArrivalsSnoc([], e);
    assert [] + [e] == [e];
  }

  lemma NoneTraced(told: seq<ManifestEntry>)
    ensures Traced(told, told, [])
  {
  }

  lemma SameTold(q: Path, t: Tree, r: Tree)
    requires Ready(q, t) && Ready(q, r) && t[ManifestPath(q)] == r[ManifestPath(q)]
    ensures Told(q, r) == Told(q, t)
  {
  }

  /** For instance: `/r/a` staged as `/q/staged-1`. */
  lemma KilledForInstance()
    ensures var s, t0, a, d := Setup(["q"], {["r"]}), Instance(), ["r", "a"], ["q", "staged-1"];
            && ValidSetup(s) && Ready(s.q, t0) && InRoot(s, a) && IsDest(s.q, d) && Permits(t0, Rename(a, d))
            && Fresh(Told(s.q, t0), [Arrival(a, d)])
  {
    var q, root, a, d, m := ["q"], ["r"], ["r", "a"], ["q", "staged-1"], ["q", MANIFEST];
    var t := Instance();
    assert ManifestPath(q) == m;
    assert Parent(q) == [] && Parent(m) == q && Parent(root) == [] && Parent(a) == root && Parent(d) == q;
    assert Last(d) == "staged-1" && "staged-1"[..7] == STAGED_PREFIX;
    assert root < a && "r"[0] != "q"[0];
    assert root[0] != q[0];
    assert Apart(root, q);
  }

  function Instance(): Tree {
    map[[] := Dir, ["q"] := Dir, ["q", MANIFEST] := File([]), ["r"] := Dir, ["r", "a"] := Dir]
  }
}

/** The staging directory: unique names in it, and the rename test every sweep makes. */
module Quarantine {
  import opened Paths
  import opened FileSystem
  import opened Disks
  import opened CrashSafety
  import Numerals

  const MOVED_PREFIX: Name := "rename-test-"

  /** `{prefix}{pid}-{nanos:x}-{n:x}` */
  function NameOf(prefix: Name, pid: nat, nanos: nat, n: nat): Name {
    prefix + Numerals.Show(pid, 10) + "-" + Numerals.Show(nanos, 16) + "-" + Numerals.Show(n, 16)
  }

  /** Names made by one process differ as long as its counter has not wrapped, whatever the clock does. */
  lemma NamesDiffer(p1: Name, p2: Name, pid: nat, t1: nat, t2: nat, n1: nat, n2: nat)
    requires n1 != n2
    ensures NameOf(p1, pid, t1, n1) != NameOf(p2, pid, t2, n2)
  {
    var s1, s2 := Numerals.Show(n1, 16), Numerals.Show(n2, 16);
    Numerals.ValueOfShow(n1, 16);
    Numerals.ValueOfShow(n2, 16);
    var a, b := NameOf(p1, pid, t1, n1), NameOf(p2, pid, t2, n2);
    assert Numerals.DigitValue('-') < 0;
    var i, j := |a| - |s1| - 1, |b| - |s2| - 1;
    assert a[i] == '-' && a[i + 1..] == s1 && b[j] == '-' && b[j + 1..] == s2;
    assert forall k :: i < k < |a| ==> a[k] == s1[k - i - 1];
    assert forall k :: j < k < |b| ==> b[k] == s2[k - j - 1];
  }

  /** Three numbers after the prefix, a dash between them: the process in decimal, a clock and the counter in
      hexadecimal. */
  ghost predicate IsName(name: Name, prefix: Name, pid: nat, nanos: nat, n: nat) {
    exists a, b, c ::
      name == prefix + a + "-" + b + "-" + c
      && Numerals.Writes(a, 10, pid) && Numerals.Writes(b, 16, nanos) && Numerals.Writes(c, 16, n)
  }

  lemma NameOfIsName(prefix: Name, pid: nat, nanos: nat, n: nat)
    ensures IsName(NameOf(prefix, pid, nanos, n), prefix, pid, nanos, n)
  {
    Numerals.ShowWrites(pid, 10);
    Numerals.ShowWrites(nanos, 16);
    Numerals.ShowWrites(n, 16);
  }

  /** `name` is what the process calls a tree it stages when its counter is at `n`. */
  ghost predicate NamedAt(name: Name, pid: nat, n: nat) {
    exists nanos: nat :: name == NameOf("staged-", pid, nanos, n)
  }

  lemma NamedNow(name: Name, pid: nat, n: nat)
    requires exists nanos: nat :: name == NameOf(STAGED_PREFIX, pid, nanos, n)
    ensures NamedAt(name, pid, n)
  {
  }

  lemma NamedApart(x: Name, y: Name, pid: nat, n: nat, m: nat)
    requires NamedAt(x, pid, n) && NamedAt(y, pid, m) && n != m
    ensures x != y
  {
    var t1: nat :| x == NameOf("staged-", pid, t1, n);
    var t2: nat :| y == NameOf("staged-", pid, t2, m);
    NamesDiffer("staged-", "staged-", pid, t1, t2, n, m);
  }

  /** The running program, with the counter behind `unique_name`. */
  class Process {
    const pid: nat
    var counter: nat

    constructor (pid: nat)
      ensures this.pid == pid && counter == 0
    {
      this.pid := pid;
      counter := 0;
    }

    method UniqueName(prefix: Name) returns (name: Name)
      modifies this
      ensures counter == (old(counter) + 1) % (Numerals.U64_MAX + 1)
      ensures exists nanos: nat ::
                name == NameOf(prefix, pid, nanos, old(counter)) && IsName(name, prefix, pid, nanos, old(counter))
      ensures prefix <= name
    {
      var clock := *;
      var nanos: nat := if clock < 0 then 0 else clock;
      name := NameOf(prefix, pid, nanos, counter);
      NameOfIsName(prefix, pid, nanos, counter);
      counter := (counter + 1) % (Numerals.U64_MAX + 1);
    }
  }

  /** The kernel can make the scratch directory and move it. */
  ghost predicate Testable(t: Tree, scratch: Path, inside: Path) {
    Permits(t, MkDir(scratch)) && Permits(Do(t, MkDir(scratch)), Rename(scratch, inside))
  }

  /** A scratch directory that was moved is gone from outside, whether what it became in quarantine is removed or
      not. */
  lemma MovedTest(q: Path, t0: Tree, scratch: Path, inside: Path, cleaned: bool)
    requires WellFormed(t0) && Testable(t0, scratch, inside) && q < inside && !(inside <= scratch)
    ensures var t2 := Do(Do(t0, MkDir(scratch)), Rename(scratch, inside));
            && SameOutside(q, t0, Apply(t2, Event(RmDir(inside), cleaned)))
            && Permits(t2, RmDir(inside))
            && (cleaned ==> NothingAdded(t0, Apply(t2, Event(RmDir(inside), cleaned))))
  {
    NothingBelow(t0, scratch);
    var t1 := Do(t0, MkDir(scratch));
    var t2 := Do(t1, Rename(scratch, inside));
    forall p | p in t2 && inside <= p ensures p == inside {
      var x := scratch + p[|inside|..];
      assert x in t1 && scratch <= x;
    }
    assert scratch + inside[|inside|..] == scratch;
  }

  /** An undisturbed test: the scratch directory is made, moved if it can be, and removed where it ended up. */
  lemma UndisturbedTest(q: Path, t0: Tree, scratch: Path, inside: Path)
    requires WellFormed(t0) && Permits(t0, MkDir(scratch)) && !(q <= scratch) && !(scratch <= q) && q < inside
    ensures var t1 := Do(t0, MkDir(scratch));
            var ok := Permits(t1, Rename(scratch, inside));
            var t2 := if ok then Do(t1, Rename(scratch, inside)) else t1;
            var survivor := if ok then inside else scratch;
            && Permits(t2, RmDir(survivor))
            && SameOutside(q, t0, Do(t2, RmDir(survivor)))
            && NothingAdded(t0, Do(t2, RmDir(survivor)))
  {
    if Testable(t0, scratch, inside) {
      MovedTest(q, t0, scratch, inside, true);
    } else {
      NothingBelow(t0, scratch);
    }
  }

  /** The test's attempts are ones a run may make. */
  lemma TestAttempts(s: Setup, root: Path, name: Name, other: Name, before: seq<Event>)
    requires ValidSetup(s) && root in s.roots && TEST_PREFIX <= name && MOVED_PREFIX <= other
    ensures var scratch, inside := root + [name], s.q + [other];
            && scratch != [] && !(s.q <= scratch) && !(scratch <= s.q) && s.q < inside
            && Attempts(s, before, MkDir(scratch))
            && Attempts(s, before, RmDir(inside))
            && (Event(MkDir(scratch), true) in before ==>
                  Attempts(s, before, Rename(scratch, inside)) && Attempts(s, before, RmDir(scratch)))
            && !IsStaging(Rename(scratch, inside))
  {
    var scratch, inside := root + [name], s.q + [other];
    assert Parent(scratch) == root && Last(scratch) == name && Last(inside) == other;
    ScratchInRoot(s, scratch);
    RootsApart(s, scratch, scratch);
    assert other[0] == 'r' && STAGED_PREFIX[0] == 's';
  }

  ghost predicate NothingAdded(t: Tree, r: Tree) {
    forall p :: p in r ==> p in t && r[p] == t[p]
  }

  /** Quarantine and its manifest are as they were. */
  ghost predicate Undisturbed(q: Path, t: Tree, r: Tree) {
    forall p :: p in t && (p <= q || p == ManifestPath(q)) ==> p in r && r[p] == t[p]
  }

  lemma TestLeavesQuarantine(q: Path, t: Tree, scratch: Path, inside: Path, e: Event)
    requires !(q <= scratch) && !(scratch <= q) && inside != [] && Parent(inside) == q && MOVED_PREFIX <= Last(inside)
    requires e.call in [MkDir(scratch), Rename(scratch, inside), RmDir(scratch), RmDir(inside)]
    ensures Undisturbed(q, t, Apply(t, e))
  {
    assert Last(inside)[0] == 'r' && MANIFEST[0] == 'm';
    assert inside != ManifestPath(q) && |inside| == |ManifestPath(q)| && q < inside;
    assert !(inside <= ManifestPath(q));
    if scratch <= ManifestPath(q) { PrefixesCompare(scratch, q, ManifestPath(q)); }
  }

  lemma NothingHappened(q: Path, t: Tree)
    ensures SameOutside(q, t, t) && NothingAdded(t, t) && Undisturbed(q, t, t)
  {
  }

  lemma UndisturbedTwice(q: Path, t0: Tree, t1: Tree, t2: Tree)
    requires Undisturbed(q, t0, t1) && Undisturbed(q, t1, t2)
    ensures Undisturbed(q, t0, t2)
  {
  }

  /** The rename under test. */
  predicate MovesScratch(c: Call, root: Path, q: Path) {
    c.Rename? && c.path != [] && Parent(c.path) == root && c.to != [] && Parent(c.to) == q
  }

  ghost predicate ScratchMoved(log: seq<Event>, root: Path, q: Path) {
    exists e :: e in log && e.ok && MovesScratch(e.call, root, q)
  }

  lemma SinceItself(log: seq<Event>)
    ensures Since(log, log) == []
  {
  }

  lemma Scratch(root: Path, name: Name, q: Path, inside: Name)
    ensures MovesScratch(Rename(root + [name], q + [inside]), root, q)
  {
    assert Parent(root + [name]) == root && Parent(q + [inside]) == q;
  }

  lemma NotMadeShows(root: Path, q: Path, log: seq<Event>, made: Event)
    requires log == [] + [made] && made.call.MkDir?
    ensures !ScratchMoved(log, root, q)
  {
  }

  lemma TestShows(root: Path, q: Path, d1: seq<Event>, d2: seq<Event>, d3: seq<Event>, made: Event, moved: Event,
                  removed: Event)
    requires d1 == [] + [made] && d2 == d1 + [moved] && d3 == d2 + [removed]
    requires made.call.MkDir? && removed.call.RmDir? && MovesScratch(moved.call, root, q)
    ensures ScratchMoved(d3, root, q) <==> moved.ok
  {
    assert moved in d3;
  }

  /** A scratch directory under `root`, and where in quarantine it is to go. */
  ghost predicate IsTest(root: Path, q: Path, scratch: Path, inside: Path) {
    && scratch != [] && Parent(scratch) == root && ".reap-rename-test-" <= Last(scratch)
    && inside != [] && Parent(inside) == q && "rename-test-" <= Last(inside)
  }

  lemma TestNamed(root: Path, q: Path, name: Name, moved: Name)
    requires TEST_PREFIX <= name && MOVED_PREFIX <= moved
    ensures IsTest(root, q, root + [name], q + [moved])
  {
    assert Parent(root + [name]) == root && Parent(q + [moved]) == q;
  }

  /** Nothing was attempted but making the scratch directory, moving it, and removing it where it was or went. */
  ghost predicate OnlyTests(log: seq<Event>, from: Path, into: Path) {
    forall e :: e in log ==> e.call in {MkDir(from), Rename(from, into), RmDir(from), RmDir(into)}
  }

  lemma FirstTest(log: seq<Event>, e: Event, from: Path, into: Path)
    requires log == [] && e.call == MkDir(from)
    ensures OnlyTests(log + [e], from, into)
  {
  }

  lemma LaterTests(log: seq<Event>, moved: Event, removed: Event, from: Path, into: Path)
    requires OnlyTests(log, from, into)
    requires moved.call == Rename(from, into) && removed.call.RmDir? && removed.call.path in {from, into}
    ensures OnlyTests(log + [moved] + [removed], from, into)
  {
  }

  /** Creates a scratch directory under `root`, renames it into quarantine, and cleans up whichever side survived. */
  method TestRename(disk: Disk, process: Process, q: Path, root: Path, ghost s: Setup)
    returns (ok: bool, ghost from: Path, ghost into: Path)
    requires WellFormed(disk.tree) && q == s.q && root in s.roots && ValidSetup(s)
    modifies disk, process
    ensures WellFormed(disk.tree) && old(disk.faults) <= disk.faults
    // Killed anywhere, it leaves at most an empty scratch directory.
    ensures Ran(s, old(disk.tree), old(disk.log), disk.tree, disk.log)
    ensures StagingAttempts(Since(old(disk.log), disk.log)) == []
    ensures Undisturbed(q, old(disk.tree), disk.tree)
    // It answers with what became of the rename, and a passing test leaves nothing outside quarantine.
    ensures ok <==> ScratchMoved(Since(old(disk.log), disk.log), root, q)
    ensures old(disk.log) <= disk.log && OnlyTests(Since(old(disk.log), disk.log), from, into)
    ensures ok ==> SameOutside(q, old(disk.tree), disk.tree)
    // Without faults it passes whenever the kernel allows it, and leaves nothing anywhere.
    ensures IsTest(root, q, from, into)
    ensures exists nanos: nat :: IsName(Last(from), ".reap-rename-test-", process.pid, nanos, old(process.counter))
    ensures ok ==>
              exists nanos: nat, n: nat :: IsName(Last(into), "rename-test-", process.pid, nanos, n)
    ensures disk.faults == old(disk.faults) ==> (ok <==> Testable(old(disk.tree), from, into))
    ensures disk.faults == old(disk.faults) ==> SameOutside(q, old(disk.tree), disk.tree)
    ensures disk.faults == old(disk.faults) ==> NothingAdded(old(disk.tree), disk.tree)
  {
    hide Ran, Since, WellFormed, Attempts, StagingAttempts, Do, Permits, ValidSetup;
    hide SameOutside, NothingAdded, Undisturbed, ScratchMoved, MovesScratch, IsTest, OnlyTests, IsName, NameOf;
    ghost var t0, log0 := disk.tree, disk.log;
    RanNothing(s, t0, log0);
    SinceItself(log0);
    var name := process.UniqueName(TEST_PREFIX);
    var scratch := root + [name];
    assert Last(scratch) == name;
    from, into := scratch, q + [MOVED_PREFIX];
    assert IsTest(root, q, from, into) by { TestNamed(root, q, name, MOVED_PREFIX); }
    TestAttempts(s, root, name, MOVED_PREFIX, Since(log0, log0));
    var made := disk.Attempt(MkDir(scratch));
    ghost var t1, log1 := disk.tree, disk.log;
    RanSnoc(s, t0, log0, t0, log0, Event(MkDir(scratch), made));
    if !made {
      FirstTest(Since(log0, log0), Event(MkDir(scratch), made), from, into);
      NothingHappened(q, t0);
      assert !ScratchMoved(Since(log0, disk.log), root, q) by {
        NotMadeShows(root, q, Since(log0, disk.log), Event(MkDir(scratch), made));
      }
      return false, from, into;
    }

    var moved := process.UniqueName(MOVED_PREFIX);
    var staged := q + [moved];
    into := staged;
    TestNamed(root, q, name, moved);
    TestAttempts(s, root, name, moved, Since(log0, log1));
    ok := disk.Attempt(Rename(scratch, staged));
    ghost var t2, log2 := disk.tree, disk.log;
    RanSnoc(s, t0, log0, t1, log1, Event(Rename(scratch, staged), ok));
    assert Event(MkDir(scratch), true) in Since(log0, log2);
    TestAttempts(s, root, name, moved, Since(log0, log2));

    assert Parent(staged) == q && Last(staged) == moved;
    TestLeavesQuarantine(q, t0, scratch, staged, Event(MkDir(scratch), made));
    TestLeavesQuarantine(q, t1, scratch, staged, Event(Rename(scratch, staged), ok));
    var survivor := if ok then staged else scratch;
    var cleaned := disk.Attempt(RmDir(survivor));
    RanSnoc(s, t0, log0, t2, log2, Event(RmDir(survivor), cleaned));
    FirstTest(Since(log0, log0), Event(MkDir(scratch), made), from, into);
    LaterTests(Since(log0, log1), Event(Rename(scratch, staged), ok), Event(RmDir(survivor), cleaned), from, into);
    TestLeavesQuarantine(q, t2, scratch, staged, Event(RmDir(survivor), cleaned));
    UndisturbedTwice(q, t0, t1, t2);
    UndisturbedTwice(q, t0, t2, disk.tree);
    assert ok <==> ScratchMoved(Since(log0, disk.log), root, q) by {
      Scratch(root, name, q, moved);
      TestShows(root, q, Since(log0, log1), Since(log0, log2), Since(log0, disk.log), Event(MkDir(scratch), made),
                Event(Rename(scratch, staged), ok), Event(RmDir(survivor), cleaned));
    }
    if disk.faults == old(disk.faults) { UndisturbedTest(q, t0, scratch, staged); }
    if ok { MovedTest(q, t0, scratch, staged, cleaned); }
  }
}

/** Two measurements of a tree: the space its inodes take, and the time since anything near its top changed. */
module Measure {
  import opened Options
  import opened Paths
  import opened Numerals

  const BLOCK: nat := 512

  /** A device and a file number on it. */
  type Inode = (nat, nat)

  datatype Metadata = Metadata(isDir: bool, nlink: nat, inode: Inode, blocks: nat)

  /** What the walk yields in turn: an entry, an entry without metadata, or a directory it could not read. */
  datatype Step = Entry(meta: Metadata) | NoMetadata | Unreadable

  datatype SizeReport = SizeReport(bytes: nat, files: nat, dirs: nat, errors: nat)

  function Saturated(n: nat): nat {
    if n > U64_MAX then U64_MAX else n
  }

  ghost function UpTo64Bits(n: nat): nat {
    if n <= 0xFFFF_FFFF_FFFF_FFFF then n else 0xFFFF_FFFF_FFFF_FFFF
  }

  // ------------------------------------------------------------- what is counted

  predicate Linked(s: Step) {
    s.Entry? && s.meta.nlink > 1
  }

  predicate LinkedTo(s: Step, inode: Inode) {
    Linked(s) && s.meta.inode == inode
  }

  /** The space step `s` adds after the steps `before` it. */
  function Adds(before: seq<Step>, s: Step): nat {
    if !s.Entry? || (Linked(s) && exists x :: x in before && LinkedTo(x, s.meta.inode)) then 0
    else s.meta.blocks * BLOCK
  }

  function Space(steps: seq<Step>): nat {
    if steps == [] then 0
    else
      var n := |steps| - 1;
      Space(steps[..n]) + Adds(steps[..n], steps[n])
  }

  predicate IsDirectory(s: Step) { s.Entry? && s.meta.isDir }
  predicate IsFile(s: Step) { s.Entry? && !s.meta.isDir }
  predicate IsError(s: Step) { !s.Entry? }

  ghost function Files(steps: seq<Step>): set<nat> {
    set i | 0 <= i < |steps| && steps[i].Entry? && !steps[i].meta.isDir
  }

  ghost function Dirs(steps: seq<Step>): set<nat> {
    set i | 0 <= i < |steps| && steps[i].Entry? && steps[i].meta.isDir
  }

  lemma {:induction false} CountsMean(steps: seq<Step>)
    ensures Count(steps, IsFile) == |Files(steps)| && Count(steps, IsDirectory) == |Dirs(steps)|
    ensures Count(steps, IsError) == |steps| - |Files(steps)| - |Dirs(steps)|
  {
    if steps != [] {
      hide Count, Space, Files, Dirs;
      var before, last := steps[..|steps| - 1], steps[|steps| - 1];
      CountsMean(before);
      OneMoreStep(before, last);
      OneMorePlace(before, last);
      assert steps == before + [last];
    }
  }

  lemma OneMorePlace(before: seq<Step>, last: Step)
    ensures |Files(before + [last])| == |Files(before)| + if last.Entry? && !last.meta.isDir then 1 else 0
    ensures |Dirs(before + [last])| == |Dirs(before)| + if last.Entry? && last.meta.isDir then 1 else 0
  {
    var steps, n := before + [last], |before|;
    assert Files(steps) == Files(before) + if last.Entry? && !last.meta.isDir then {n} else {};
    assert Dirs(steps) == Dirs(before) + if last.Entry? && last.meta.isDir then {n} else {};
  }

  method TreeSize(steps: seq<Step>) returns (out: SizeReport)
    ensures out == SizeReport(Saturated(Space(steps)), Count(steps, IsFile), Count(steps, IsDirectory),
                              Count(steps, IsError))
    // In blocks of 512 bytes, and up to the largest number of 64 bits, no inode of the tree is left out, and each is
    // counted once if the links tell.
    ensures out.bytes <= 0xFFFF_FFFF_FFFF_FFFF
    ensures OneSize(steps) ==> UpTo64Bits(512 * TotalBlocks(Inodes(steps))) <= out.bytes
    ensures OneSize(steps) && RepeatsTold(steps) ==> out.bytes == UpTo64Bits(512 * TotalBlocks(Inodes(steps)))
    // Every step is counted, as what it is.
    ensures out.files == |Files(steps)| && out.dirs == |Dirs(steps)|
    ensures out.errors == |steps| - |Files(steps)| - |Dirs(steps)|
  {
    hide OneSize, RepeatsTold, Count, Inodes, TotalBlocks, Space, Files, Dirs;
    if OneSize(steps) {
      SpaceExactly(steps);
    }
    CountsMean(steps);
    NothingYet();
    out := SizeReport(0, 0, 0, 0);
    var seenLinks: set<Inode> := {};
    assert steps[..|steps|] == steps;
    for i := 0 to |steps|
      invariant out == SizeReport(Saturated(Space(steps[..i])), Count(steps[..i], IsFile),
                                  Count(steps[..i], IsDirectory), Count(steps[..i], IsError))
      invariant forall n :: n in seenLinks <==> exists x :: x in steps[..i] && LinkedTo(x, n)
    {
      assert steps[..i + 1] == steps[..i] + [steps[i]];
      assert steps[..i + 1][..i] == steps[..i];
      var step := steps[i];
      OneMoreStep(steps[..i], step);
      if !step.Entry? {
        out := out.(errors := out.errors + 1);
        continue;
      }
      var md := step.meta;
      if md.isDir {
        out := out.(dirs := out.dirs + 1);
      } else {
        out := out.(files := out.files + 1);
      }
      if md.nlink > 1 {
        assert LinkedTo(step, md.inode);
        if md.inode in seenLinks {
          continue;
        }
        seenLinks := seenLinks + {md.inode};
      }
      out := out.(bytes := Saturated(out.bytes + Saturated(md.blocks * BLOCK)));
    }
  }

  lemma NothingYet()
    ensures Space([]) == 0 && Count([], IsFile) == 0 && Count([], IsDirectory) == 0 && Count([], IsError) == 0
  {
  }

  lemma OneMoreStep(before: seq<Step>, step: Step)
    ensures Space(before + [step]) == Space(before) + Adds(before, step)
    ensures Count(before + [step], IsFile) == Count(before, IsFile) + if IsFile(step) then 1 else 0
    ensures Count(before + [step], IsDirectory) == Count(before, IsDirectory) + if IsDirectory(step) then 1 else 0
    ensures Count(before + [step], IsError) == Count(before, IsError) + if IsError(step) then 1 else 0
  {
    assert (before + [step])[..|before|] == before;
    CountConcat(before, [step], IsFile);
    CountConcat(before, [step], IsDirectory);
    CountConcat(before, [step], IsError);
  }

  // ------------------------------------------------------------- each file once

  /** An inode has one size wherever it is met. */
  ghost predicate OneSize(steps: seq<Step>) {
    forall i, j ::
      0 <= i < j < |steps| && steps[i].Entry? && steps[j].Entry? && steps[i].meta.inode == steps[j].meta.inode ==>
        steps[i].meta.blocks == steps[j].meta.blocks
  }

  predicate Met(before: seq<Step>, inode: Inode) {
    exists s :: s in before && s.Entry? && s.meta.inode == inode
  }

  /** An entry with blocks, met before, has a link count that says so, and so had an earlier one of its inode. */
  ghost predicate RepeatTold(before: seq<Step>, s: Step) {
    s.Entry? && s.meta.blocks > 0 && Met(before, s.meta.inode) ==>
      Linked(s) && exists x :: x in before && LinkedTo(x, s.meta.inode)
  }

  ghost predicate RepeatsTold(steps: seq<Step>) {
    forall n :: 0 <= n < |steps| ==> RepeatTold(steps[..n], steps[n])
  }

  /** An inode met more than once says so in its link count, and has one size: what a tree that holds still gives. */
  ghost predicate Consistent(steps: seq<Step>) {
    forall i, j ::
      0 <= i < j < |steps| && steps[i].Entry? && steps[j].Entry? && steps[i].meta.inode == steps[j].meta.inode ==>
        Linked(steps[i]) && Linked(steps[j]) && steps[i].meta.blocks == steps[j].meta.blocks
  }

  lemma ConsistentTold(steps: seq<Step>)
    requires Consistent(steps)
    ensures OneSize(steps) && RepeatsTold(steps)
  {
    forall n | 0 <= n < |steps| ensures RepeatTold(steps[..n], steps[n]) {
      if x :| x in steps[..n] && x.Entry? && steps[n].Entry? && x.meta.inode == steps[n].meta.inode {
        var i :| 0 <= i < n && steps[i] == x;
        assert LinkedTo(x, steps[n].meta.inode);
      }
    }
  }

  /** The inodes met, with their sizes. */
  ghost function Inodes(steps: seq<Step>): set<(Inode, nat)> {
    set s | s in steps && s.Entry? :: (s.meta.inode, s.meta.blocks)
  }

  ghost function TotalBlocks(inodes: set<(Inode, nat)>): nat {
    if inodes == {} then 0
    else
      var x :| x in inodes;
      x.1 + TotalBlocks(inodes - {x})
  }

  lemma {:induction false} TotalWith(inodes: set<(Inode, nat)>, x: (Inode, nat))
    requires x !in inodes
    ensures TotalBlocks(inodes + {x}) == TotalBlocks(inodes) + x.1
    decreases |inodes|
  {
    var all := inodes + {x};
    var y :| y in all && TotalBlocks(all) == y.1 + TotalBlocks(all - {y});
    if y == x {
      assert all - {y} == inodes;
    } else {
      assert all - {y} == (inodes - {y}) + {x};
      TotalWith(inodes - {y}, x);
      assert inodes == (inodes - {y}) + {y};
      TotalWith(inodes - {y}, y);
    }
  }

  /** Where an inode has one size, the space counted is at least that of the inodes, and no more exactly if every repeat
      is told by the links. */
  lemma {:induction false} SpaceExactly(steps: seq<Step>)
    requires OneSize(steps)
    ensures Space(steps) >= TotalBlocks(Inodes(steps)) * BLOCK
    ensures Space(steps) == TotalBlocks(Inodes(steps)) * BLOCK <==> RepeatsTold(steps)
  {
    hide OneSize, Adds, TotalBlocks, RepeatTold, Inodes, Met;
    if steps == [] {
      NothingTotal();
    } else {
      var n := |steps| - 1;
      var before, last := steps[..n], steps[n];
      OneSizeBefore(steps, n);
      SpaceExactly(before);
      ToldBefore(steps);
      AddsExactly(before, last);
      TotalOneMore(steps);
      assert Space(steps) == Space(before) + Adds(before, last);
    }
  }

  /** A step adds its blocks to the total if it is the first of its inode. */
  lemma TotalOneMore(steps: seq<Step>)
    requires OneSize(steps) && steps != []
    ensures var n := |steps| - 1;
            TotalBlocks(Inodes(steps)) ==
            TotalBlocks(Inodes(steps[..n]))
            + if steps[n].Entry? && !Met(steps[..n], steps[n].meta.inode) then steps[n].meta.blocks else 0
  {
    hide OneSize, TotalBlocks, Met;
    var n := |steps| - 1;
    var before, last := steps[..n], steps[n];
    assert steps == before + [last];
    if last.Entry? {
      var x := (last.meta.inode, last.meta.blocks);
      assert Inodes(steps) == Inodes(before) + {x};
      MetBefore(steps);
      if x in Inodes(before) {
        assert Inodes(steps) == Inodes(before);
      } else {
        TotalWith(Inodes(before), x);
      }
    } else {
      assert Inodes(steps) == Inodes(before);
    }
  }

  lemma ToldBefore(steps: seq<Step>)
    requires steps != []
    ensures var n := |steps| - 1; RepeatsTold(steps) <==> RepeatsTold(steps[..n]) && RepeatTold(steps[..n], steps[n])
  {
    hide RepeatTold;
    var n := |steps| - 1;
    assert forall k :: 0 <= k <= n ==> steps[..n][..k] == steps[..k];
  }

  /** What an entry adds: all of its blocks the first time, and later nothing exactly if the links tell. */
  lemma AddsExactly(before: seq<Step>, s: Step)
    ensures !s.Entry? ==> Adds(before, s) == 0 && RepeatTold(before, s)
    ensures s.Entry? && !Met(before, s.meta.inode) ==> Adds(before, s) == s.meta.blocks * BLOCK && RepeatTold(before, s)
    ensures Adds(before, s) == 0 || Adds(before, s) > 0
    ensures s.Entry? && Met(before, s.meta.inode) ==> (Adds(before, s) == 0 <==> RepeatTold(before, s))
  {
    if s.Entry? && !Met(before, s.meta.inode) {
      assert forall x :: x in before ==> !LinkedTo(x, s.meta.inode);
    }
  }

  lemma NothingTotal()
    ensures Inodes([]) == {} && TotalBlocks(Inodes([])) == 0
  {
  }

  lemma OneSizeBefore(steps: seq<Step>, n: nat)
    requires OneSize(steps) && n <= |steps|
    ensures OneSize(steps[..n])
  {
  }

  lemma MetBefore(steps: seq<Step>)
    requires OneSize(steps) && steps != [] && steps[|steps| - 1].Entry?
    ensures var n := |steps| - 1;
            (steps[n].meta.inode, steps[n].meta.blocks) in Inodes(steps[..n]) <==> Met(steps[..n], steps[n].meta.inode)
  {
  }

  /** A file met twice with a link count of one, as a bind mount may show it, is counted twice. */
  lemma CountedTwice(e: Metadata)
    requires e.nlink <= 1 && e.blocks > 0
    ensures var steps := [Entry(e), Entry(e)]; Space(steps) > TotalBlocks(Inodes(steps)) * BLOCK
  {
    var steps := [Entry(e), Entry(e)];
    assert steps[..1] == [Entry(e)];
    assert Met([Entry(e)], e.inode) by { assert Entry(e) in [Entry(e)]; }
    assert !RepeatTold(steps[..1], steps[1]);
    SpaceExactly(steps);
  }

  // ------------------------------------------------------------- the order of the walk does not matter

  lemma Cancel<T>(m: multiset<T>, n: multiset<T>, x: T)
    requires m + multiset{x} == n + multiset{x}
    ensures m == n
  {
    assert m == (m + multiset{x}) - multiset{x};
    assert n == (n + multiset{x}) - multiset{x};
  }

  lemma {:induction false} CountSame<T>(a: seq<T>, b: seq<T>, what: T -> bool)
    requires multiset(a) == multiset(b)
    ensures Count(a, what) == Count(b, what)
  {
    if a == [] {
      assert |multiset(b)| == |b|;
    } else {
      assert a == [a[0]] + a[1..];
      assert a[0] in multiset(b);
      var i :| 0 <= i < |b| && b[i] == a[0];
      var before, after := b[..i], b[i + 1..];
      assert b == before + ([b[i]] + after);
      assert multiset(b) == multiset(before + after) + multiset{a[0]};
      assert multiset(a) == multiset(a[1..]) + multiset{a[0]};
      Cancel(multiset(before + after), multiset(a[1..]), a[0]);
      CountSame(a[1..], before + after, what);
      CountConcat(before, after, what);
      CountConcat(before, [b[i]] + after, what);
    }
  }

  lemma MetTwice<T>(s: seq<T>, i: nat, j: nat)
    requires i < j < |s| && s[i] == s[j]
    ensures multiset(s)[s[i]] >= 2
  {
    assert s == s[..j] + [s[j]] + s[j + 1..];
    assert s[i] in s[..j];
  }

  lemma TwoPlaces<T>(s: seq<T>, x: T) returns (i: nat, j: nat)
    requires multiset(s)[x] >= 2
    ensures i < j < |s| && s[i] == x == s[j]
  {
    assert x in s;
    var k :| 0 <= k < |s| && s[k] == x;
    assert s == s[..k] + [x] + s[k + 1..];
    assert x in multiset(s[..k]) + multiset(s[k + 1..]);
    if l :| 0 <= l < k && s[..k][l] == x {
      i, j := l, k;
    } else {
      var l :| 0 <= l < |s[k + 1..]| && s[k + 1..][l] == x;
      i, j := k, k + 1 + l;
    }
  }

  /** Whether the links tell of every repeat in this way does not depend on the order. */
  lemma ConsistentAnyOrder(a: seq<Step>, b: seq<Step>)
    requires multiset(a) == multiset(b) && Consistent(a)
    ensures Consistent(b)
  {
    forall i, j | 0 <= i < j < |b| && b[i].Entry? && b[j].Entry? && b[i].meta.inode == b[j].meta.inode
      ensures Linked(b[i]) && Linked(b[j]) && b[i].meta.blocks == b[j].meta.blocks
    {
      var x, y := b[i], b[j];
      if x == y {
        MetTwice(b, i, j);
        var k, l := TwoPlaces(a, x);
      } else {
        assert x in multiset(b) && y in multiset(b);
        assert x in a && y in a;
        var k :| 0 <= k < |a| && a[k] == x;
        var l :| 0 <= l < |a| && a[l] == y;
      }
    }
  }

  /** Two walks that meet the same entries, in whatever order, measure alike. */
  lemma OrderIrrelevant(a: seq<Step>, b: seq<Step>)
    requires multiset(a) == multiset(b) && Consistent(a)
    ensures Space(a) == Space(b)
    ensures Count(a, IsFile) == Count(b, IsFile) && Count(a, IsDirectory) == Count(b, IsDirectory)
    ensures Count(a, IsError) == Count(b, IsError)
  {
    hide Consistent, RepeatsTold, OneSize;
    forall s ensures s in a <==> s in b { assert s in multiset(a) <==> s in multiset(b); }
    assert Inodes(a) == Inodes(b);
    ConsistentAnyOrder(a, b);
    ConsistentTold(a);
    ConsistentTold(b);
    SpaceExactly(a);
    SpaceExactly(b);
    CountSame(a, b, IsFile);
    CountSame(a, b, IsDirectory);
    CountSame(a, b, IsError);
  }

  // ------------------------------------------------------------- idle time

  /** An entry's own modification time, when the system has one. */
  datatype Probe = Probe(isDir: bool, modified: Option<int>)

  /** A time that is looked at: the entry's own, or the epoch if it has none; and those of a directory's first
      entries. */
  ghost predicate LookedAt(p: Probe, children: Option<seq<Option<int>>>, limit: nat, t: int) {
    || p.modified == Some(t)
    || (p.modified == None && t == 0)
    || (p.isDir && children.Some? && exists i :: 0 <= i < limit && i < |children.value| && children.value[i] == Some(t))
  }

  ghost function Ago(now: int, t: int): nat {
    if t <= now then now - t else 0
  }

  /** `children` are the directory's entries in the order listed, each with its time when that can be read. */
  method IdleFor(probe: Option<Probe>, children: Option<seq<Option<int>>>, now: int, limit: nat)
    returns (idle: Option<nat>)
    ensures idle.None? <==> probe.None?
    // No longer than since any time looked at, and as long as since one of them; no time at all if that is to come.
    ensures probe.Some? ==>
              && (forall t :: LookedAt(probe.value, children, limit, t) ==> idle.value <= Ago(now, t))
              && (exists t :: LookedAt(probe.value, children, limit, t) && idle.value == Ago(now, t))
  {
    if probe.None? {
      return None;
    }
    var p := probe.value;
    var newest := if p.modified.Some? then p.modified.value else 0;
    var n: nat := 0;
    if p.isDir {
      if children.Some? {
        n := if |children.value| < limit then |children.value| else limit;
        for i := 0 to n
          invariant Latest(p, children, i, newest)
        {
          var child := children.value[i];
          LookedFurther(p, children, i, newest);
          if child.Some? && child.value > newest {
            newest := child.value;
          }
        }
      }
    }
    assert forall t :: LookedAt(p, children, limit, t) <==> LookedAt(p, children, n, t);
    assert LookedAt(p, children, limit, newest);
    idle := Some(if now < newest then 0 else now - newest);
  }

  /** The latest of the times looked at so far. */
  ghost predicate Latest(p: Probe, children: Option<seq<Option<int>>>, i: nat, newest: int) {
    LookedAt(p, children, i, newest) && forall t :: LookedAt(p, children, i, t) ==> t <= newest
  }

  lemma LookedFurther(p: Probe, children: Option<seq<Option<int>>>, i: nat, newest: int)
    requires p.isDir && children.Some? && i < |children.value| && Latest(p, children, i, newest)
    ensures var child := children.value[i];
            Latest(p, children, i + 1, if child.Some? && child.value > newest then child.value else newest)
  {
    var child := children.value[i];
    forall t ensures LookedAt(p, children, i + 1, t) <==> LookedAt(p, children, i, t) || child == Some(t) {
      if child == Some(t) { assert 0 <= i < i + 1 && children.value[i] == Some(t); }
      if LookedAt(p, children, i, t) && p.modified != Some(t) && !(p.modified == None && t == 0) {
        var k :| 0 <= k < i && k < |children.value| && children.value[k] == Some(t);
        assert 0 <= k < i + 1;
      }
    }
  }
}

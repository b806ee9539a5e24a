/** The running system: a tree, changed by calls that may fail for reasons of the system's own. */
module Disks {
  import opened Paths
  import opened FileSystem
  import opened Options

  datatype StatResult = Found(node: Node) | Missing | Refused

  /** Any call may hit a fault: a permission, an I/O error, a full disk. Which calls do is left open, so what is
      proved of a method holds for every pattern of failures; `faults` counts them, so that a failure-free run can
      be told apart. `log` records every attempted change, and a kill leaves the tree of some prefix of it. */
  class Disk {
    var tree: Tree
    ghost var log: seq<Event>
    ghost var faults: nat

    method Attempt(c: Call) returns (ok: bool)
      requires WellFormed(tree)
      modifies this
      ensures WellFormed(tree)
      ensures log == old(log) + [Event(c, ok)]
      ensures tree == Apply(old(tree), Event(c, ok))
      ensures ok ==> Permits(old(tree), c)
      ensures old(faults) <= faults
      ensures faults == old(faults) ==> ok == Permits(old(tree), c)
    {
      var fault := *;
      ok := !fault && Permits(tree, c);
      log := log + [Event(c, ok)];
      if ok {
        DoKeepsWellFormed(tree, c);
        tree := Do(tree, c);
      }
      if fault {
        faults := faults + 1;
      }
    }

    /** `symlink_metadata`. */
    method Stat(p: Path) returns (r: StatResult)
      modifies this`faults
      ensures old(faults) <= faults
      ensures r.Found? ==> p in tree && r.node == tree[p]
      ensures r.Missing? ==> p !in tree
      ensures r.Refused? ==> old(faults) < faults
    {
      var fault := *;
      if fault {
        faults := faults + 1;
        r := Refused;
      } else {
        r := if p in tree then Found(tree[p]) else Missing;
      }
    }

    /** `read_dir(p)?.flatten()`: the order is the system's, and an entry that cannot be read is dropped. */
    method List(p: Path) returns (r: Option<seq<Path>>)
      modifies this`faults
      ensures old(faults) <= faults
      ensures r.Some? ==> p in tree && tree[p] == Dir && IsListing(tree, p, r.value)
      ensures faults == old(faults) ==> (r.Some? <==> p in tree && tree[p] == Dir)
      ensures faults == old(faults) && r.Some? ==>
                forall x :: x in tree && x != [] && Parent(x) == p ==> x in r.value
    {
      var fault := *;
      if fault {
        faults := faults + 1;
        return None;
      }
      if p !in tree || tree[p] != Dir {
        return None;
      }
      var names: seq<Path> := [];
      var todo := set x | x in tree && x != [] && Parent(x) == p;
      while todo != {}
        invariant todo <= tree.Keys
        invariant forall x :: x in todo ==> x != [] && Parent(x) == p
        invariant IsListing(tree, p, names)
        invariant forall x :: x in todo ==> x !in names
        invariant old(faults) <= faults
        invariant faults == old(faults) ==>
                    forall x :: x in tree && x != [] && Parent(x) == p ==> x in names || x in todo
      {
        var x: Path :| x in todo;
        todo := todo - {x};
        var unreadable := *;
        if unreadable {
          faults := faults + 1;
        } else {
          names := names + [x];
        }
      }
      r := Some(names);
    }
  }

  /** Entries of the directory `p`, none twice. */
  ghost predicate IsListing(t: Tree, p: Path, names: seq<Path>) {
    && (forall i :: 0 <= i < |names| ==> names[i] in t && names[i] != [] && Parent(names[i]) == p)
    && (forall i, j :: 0 <= i < j < |names| ==> names[i] != names[j])
  }
}

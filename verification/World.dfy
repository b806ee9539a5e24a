/** What the read-only half sees: a tree, and which questions about it the system answers. */
module Worlds {
  import opened Paths
  import opened FileSystem
  import opened Options
  import opened Resolve

  /** `statable`, `readable` and `resolvable` say which paths may be examined, listed and canonicalized; the rest are
      measurements and matches made elsewhere. */
  datatype World = World(
    tree: Tree,
    statable: Path -> bool,
    readable: Path -> bool,
    resolvable: Path -> bool,
    bytes: Path -> nat,
    idle: Path -> nat,
    globMatch: (string, Path) -> bool)
  {
    /** `symlink_metadata` */
    function Seen(p: Path): Option<Node> {
      if statable(p) then LStat(tree, p) else None
    }

    /** `canonicalize` */
    function Canon(p: Path): Option<Path> {
      if resolvable(p) then Canonicalize(tree, p) else None
    }

    /** `entry_exists` */
    predicate Has(dir: Path, name: Name) {
      Seen(dir + [name]).Some?
    }
  }

  /** A directory has an entry if it resolves to one that holds the entry, and the entry may be examined. */
  lemma HasMeans(w: World, dir: Path, name: Name)
    requires WellFormed(w.tree) && name != DOTDOT
    ensures w.Has(dir, name) <==>
              w.statable(dir + [name]) && exists d :: Canonicalize(w.tree, dir) == Some(d) && d + [name] in w.tree
  {
    LStatEntry(w.tree, dir, name);
  }

  /** A directory proposed, with what the guards need to know of it. */
  datatype Candidate = Candidate(
    path: Path, root: Path, rule: string, tier: nat, depth: nat, depthCap: nat,
    bytes: nat, idle: nat, minIdle: nat, orphanedOnly: bool)
}

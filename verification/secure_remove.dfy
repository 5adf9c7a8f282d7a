/** Recursive removal below a root directory, on a tree that is changed in place, with the
    descriptors it opens on the way. */
module SecureRemoval {
  import opened Bytes
  import opened Paths
  import opened StorageKeys
  import opened Text

  datatype Kind = RegularFile | SymbolicLink | DirectoryNode(owned: bool)

  /** Every entry below the root, by its components; the root itself is []. */
  type Tree = map<Path, Kind>

  datatype Errno = ENOENT | ENOTDIR | EISDIR | ELOOP | EPERM | ENOTEMPTY | EINVAL | EIO

  const MAX_DEPTH := 64

  predicate WellFormed(t: Tree) {
    && [] in t && t[[]].DirectoryNode?
    && forall p :: p in t && p != [] ==> p[..|p| - 1] in t && t[p[..|p| - 1]].DirectoryNode?
  }

  function Subtree(t: Tree, p: Path): set<Path> {
    set q | q in t && p <= q
  }

  function Children(t: Tree, p: Path): set<Path> {
    set q | q in t && |q| == |p| + 1 && p < q
  }

  /** Nothing at or below `p` is too deep, counted from a start at `depth`, or a foreign directory. */
  predicate Removable(t: Tree, p: Path, depth: nat) {
    forall q :: q in t && p <= q ==>
      depth + |q| - |p| <= MAX_DEPTH && (t[q].DirectoryNode? ==> t[q].owned)
  }

  class FileSystem {
    var tree: Tree
    /** How many descriptors this code holds open. */
    ghost var open: nat

    constructor (tree: Tree)
      ensures this.tree == tree && open == 0
    {
      this.tree := tree;
      open := 0;
    }

    /** `safe_open` of a directory, without following links. */
    method OpenDirectory(p: Path) returns (err: Option<Errno>)
      requires WellFormed(tree)
      modifies this`open
      ensures err.None? <==> p in tree && tree[p].DirectoryNode?
      ensures err == Some(ENOENT) <==> p !in tree
      ensures err.Some? ==> err.value in {ENOENT, ENOTDIR, ELOOP}
      ensures open == old(open) + (if err.None? then 1 else 0)
    {
      if p !in tree { return Some(ENOENT); }
      match tree[p] {
        case RegularFile => err := Some(ENOTDIR);
        case SymbolicLink => err := Some(ELOOP);
        case DirectoryNode(_) =>
          err := None;
          open := open + 1;
      }
    }

    method Close()
      requires open > 0
      modifies this`open
      ensures open == old(open) - 1
    {
      open := open - 1;
    }

    /** `unlinkat`: an entry that is no directory, or with the flag an empty directory. */
    method Unlink(p: Path, directory: bool) returns (err: Option<Errno>)
      requires WellFormed(tree) && p != []
      modifies this`tree
      ensures WellFormed(tree)
      ensures err.None? <==> p in old(tree) && old(tree)[p].DirectoryNode? == directory && Children(old(tree), p) == {}
      ensures err.None? ==> tree == old(tree) - {p}
      ensures err.Some? ==> tree == old(tree)
      ensures err == Some(ENOENT) <==> p !in old(tree)
    {
      if p !in tree { return Some(ENOENT); }
      if tree[p].DirectoryNode? != directory { return Some(if directory then ENOTDIR else EISDIR); }
      if Children(tree, p) != {} { return Some(ENOTEMPTY); }
      LeafRemoval(tree, p);
      tree := tree - {p};
      err := None;
    }

    /** Whether the operating system reports an error of its own, at `fdopendir`, `readdir` or `fsync`. */
    method Faults(reliable: bool) returns (failed: bool)
      ensures reliable ==> !failed
    {
      failed := false;
      if !reliable { failed := *; }
    }

    /** Recursive removal. It succeeds only when nothing below is too deep or foreign, and whenever that
        is so and the system is reliable; then it has removed that subtree and nothing else. When it
        fails its own entry is still there. Every descriptor it opened is closed on every path. */
    method RemoveAt(p: Path, recursive: bool, depth: nat, reliable: bool) returns (err: Option<Errno>)
      requires WellFormed(tree) && p != [] && depth <= MAX_DEPTH + 1
      modifies this
      ensures WellFormed(tree) && open == old(open)
      ensures recursive && err.None? ==> p in old(tree) && Removable(old(tree), p, depth)
      ensures recursive && reliable && p in old(tree) && Removable(old(tree), p, depth) ==> err.None?
      ensures !recursive ==> (err.None? <==> depth <= MAX_DEPTH && p in old(tree) && !old(tree)[p].DirectoryNode?)
      ensures err.None? ==> tree == old(tree) - Subtree(old(tree), p)
      ensures err.Some? ==> (p in tree <==> p in old(tree))
      ensures err.Some? ==> Pruned(old(tree), tree, p)
      ensures err.Some? && !recursive ==> tree == old(tree)
      ensures err == Some(ENOENT) ==> p !in old(tree)
      decreases MAX_DEPTH + 1 - depth
    {
      if depth > MAX_DEPTH { return Some(ELOOP); }
      ghost var before := tree;
      if !recursive {
        err := Unlink(p, false);
        LeafSubtree(before, p);
        return;
      }
      err := OpenDirectory(p);
      if err.Some? {
        if err == Some(ENOTDIR) || err == Some(ELOOP) {
          LeafSubtree(before, p);
          err := Unlink(p, false);
        }
        return;
      }
      if !tree[p].owned {
        Close();
        return Some(EPERM);
      }
      var failed := Faults(reliable);
      if failed {
        Close();
        return Some(EIO);
      }
      err := RemoveEntries(p, depth, reliable);
      if err.None? {
        failed := Faults(reliable);
        if failed { err := Some(EIO); }
      }
      Close();
      if err.None? {
        EmptiedSubtree(before, p);
        err := Unlink(p, true);
      }
    }

    /** The loop over a directory's entries, in whatever order they are read. */
    method RemoveEntries(p: Path, depth: nat, reliable: bool) returns (err: Option<Errno>)
      requires WellFormed(tree) && p in tree && tree[p] == DirectoryNode(true) && p != [] && depth <= MAX_DEPTH
      modifies this
      ensures WellFormed(tree) && open == old(open)
      ensures err.None? ==> Removable(old(tree), p, depth)
      ensures reliable && Removable(old(tree), p, depth) ==> err.None?
      ensures err.None? ==> tree == old(tree) - (Subtree(old(tree), p) - {p})
      ensures p in tree && Pruned(old(tree), tree, p)
      ensures err != Some(ENOENT)
      decreases MAX_DEPTH + 1 - depth, 0
    {
      ghost var before := tree;
      var todo := Children(tree, p);
      ghost var gone: set<Path> := {};
      while true
        invariant WellFormed(tree) && open == old(open)
        invariant Progress(before, tree, todo, gone, p, depth)
        decreases todo
      {
        var failed := Faults(reliable);
        if failed {
          ProgressPruned(before, tree, todo, gone, p, depth);
          return Some(EIO);
        }
        if todo == {} { break; }
        var c :| c in todo;
        Untouched(before, gone, c, p);
        ghost var now := tree;
        var error := RemoveAt(c, true, depth + 1, reliable);
        if error.Some? {
          if error != Some(ENOENT) {
            if Removable(before, p, depth) { RemovableChild(before, p, c, depth); }
            PrunedFrom(before, now, tree, gone, p, c);
            return error;
          }
        }
        ChildDone(before, now, tree, todo, gone, p, c, depth);
        todo, gone := todo - {c}, gone + {c};
      }
      assert gone == Children(before, p);
      AllBelow(before, p, depth);
      ProgressPruned(before, tree, todo, gone, p, depth);
      return None;
    }

    /** The native `remove`: key check, parent, removal, and a last `fsync` that may fail after it; no
        descriptor outlives the call. */
    method RemoveKey(key: string, recursive: bool, reliable: bool) returns (err: Option<Errno>)
      requires WellFormed(tree)
      modifies this
      ensures WellFormed(tree) && open == old(open)
      ensures var p := Split(key, '/');
              var removable := FitsBuffer(key) && Accepted(key) && p in old(tree) &&
                               if recursive then
                                 forall q :: q in old(tree) && p <= q ==>
                                   |q| <= |p| + 64 && old(tree)[q] != DirectoryNode(false)
                               else !old(tree)[p].DirectoryNode?;
              (err.None? ==> removable) && (reliable && removable ==> err.None?)
      ensures err.None? ==> tree == old(tree) - Subtree(old(tree), Split(key, '/'))
      ensures err.Some? ==> Pruned(old(tree), tree, Split(key, '/'))
                            || (!reliable && tree == old(tree) - Subtree(old(tree), Split(key, '/')))
      ensures err.Some? && !recursive && reliable ==> tree == old(tree)
    {
      if !FitsBuffer(key) { return Some(EINVAL); }
      var ok := KeyOk(key);
      if !ok { return Some(EINVAL); }
      var p := Split(key, '/');
      err := OpenDirectory(p[..|p| - 1]);
      if err.Some? { return; }
      err := RemoveAt(p, recursive, 0, reliable);
      if err.None? {
        var failed := Faults(reliable);
        if failed { err := Some(EIO); }
      }
      Close();
    }
  }

  /** Some children are wholly gone, the others not yet read. */
  ghost predicate Progress(before: Tree, now: Tree, todo: set<Path>, gone: set<Path>, p: Path, depth: nat) {
    && todo + gone == Children(before, p) && todo !! gone
    && now == before - Below(before, gone)
    && forall c :: c in gone ==> Removable(before, c, depth + 1)
  }

  lemma ChildDone(before: Tree, now: Tree, after: Tree, todo: set<Path>, gone: set<Path>, p: Path, c: Path, depth: nat)
    requires WellFormed(before) && Progress(before, now, todo, gone, p, depth) && c in todo
    requires Subtree(now, c) == Subtree(before, c) && after == now - Subtree(now, c)
    requires Removable(before, c, depth + 1)
    ensures Progress(before, after, todo - {c}, gone + {c}, p, depth)
  {
    BelowGrows(before, gone, c);
  }

  /** Everything at or below one of the paths. */
  function Below(t: Tree, ps: set<Path>): set<Path> {
    set q | q in t && exists c :: c in ps && c <= q
  }

  /** Only entries strictly below `p` went away; nothing appeared or changed. */
  ghost predicate Pruned(before: Tree, after: Tree, p: Path) {
    && (forall q :: q in after ==> q in before && after[q] == before[q])
    && (forall q :: q in before && !(p < q) ==> q in after)
  }

  lemma LeafRemoval(t: Tree, p: Path)
    requires WellFormed(t) && p != [] && p in t && Children(t, p) == {}
    ensures WellFormed(t - {p})
  {
    assert forall q :: q in t && q != [] && q[..|q| - 1] == p ==> q in Children(t, p);
  }

  /** Every prefix of an entry is an entry. */
  lemma {:induction false} AncestorIn(t: Tree, p: Path, q: Path)
    requires WellFormed(t) && q in t && p <= q
    ensures p in t && (p < q ==> t[p].DirectoryNode?)
    decreases |q|
  {
    if |p| == |q| {
      assert p == q;
    } else {
      var parent := q[..|q| - 1];
      assert p <= parent;
      AncestorIn(t, p, parent);
      assert p < parent || p == parent;
    }
  }

  /** What is no directory has nothing below it. */
  lemma LeafSubtree(t: Tree, p: Path)
    requires WellFormed(t)
    ensures p in t && !t[p].DirectoryNode? ==>
      Subtree(t, p) == {p} && Children(t, p) == {} && forall q :: q in t && p <= q ==> q == p
  {
    if p in t && !t[p].DirectoryNode? {
      forall q | q in t && p <= q ensures q == p {
        AncestorIn(t, p, q);
      }
    }
  }

  lemma EmptiedSubtree(before: Tree, p: Path)
    requires WellFormed(before) && p in before
    ensures var t := before - (Subtree(before, p) - {p});
            Children(t, p) == {} && t - {p} == before - Subtree(before, p)
  {
    var t := before - (Subtree(before, p) - {p});
    assert p in Subtree(before, p);
    assert forall q :: q in before && p < q ==> q in Subtree(before, p) && q != p;
  }

  /** Removing whole siblings leaves a child's own subtree as it was. */
  lemma Untouched(before: Tree, gone: set<Path>, c: Path, p: Path)
    requires WellFormed(before) && c in Children(before, p) && c !in gone && gone <= Children(before, p)
    ensures var now := before - Below(before, gone);
            && c in now && Subtree(now, c) == Subtree(before, c)
            && (forall d: nat :: Removable(now, c, d) <==> Removable(before, c, d))
  {
    var now := before - Below(before, gone);
    forall q | q in before && c <= q ensures q in now {
      forall s | s in gone ensures !(s <= q) { Siblings(c, s, q); }
    }
  }

  /** Two paths of one length that both start a third are equal. */
  lemma Siblings(c: Path, s: Path, q: Path)
    requires |c| == |s| && c <= q && c != s
    ensures !(s <= q)
  {
    assert c == q[..|c|];
  }

  /** However far the loop came, only entries below the directory are gone. */
  lemma ProgressPruned(before: Tree, now: Tree, todo: set<Path>, gone: set<Path>, p: Path, depth: nat)
    requires Progress(before, now, todo, gone, p, depth)
    ensures Pruned(before, now, p)
  {
    forall q | q in before && !(p < q) ensures q in now {
      forall s | s in gone ensures s <= q ==> p < q { }
    }
  }

  lemma RemovableChild(before: Tree, p: Path, c: Path, depth: nat)
    requires c in Children(before, p) && Removable(before, p, depth)
    ensures Removable(before, c, depth + 1)
  {
  }

  lemma PrunedFrom(before: Tree, now: Tree, after: Tree, gone: set<Path>, p: Path, c: Path)
    requires now == before - Below(before, gone) && Pruned(now, after, c)
    requires gone <= Children(before, p) && c in Children(before, p)
    ensures Pruned(before, after, p)
  {
    forall q | q in before && !(p < q) ensures q in after {
      forall s | s in gone + {c} ensures s <= q ==> p < q { }
    }
  }

  lemma BelowGrows(before: Tree, gone: set<Path>, c: Path)
    ensures Below(before, gone + {c}) == Below(before, gone) + Subtree(before, c)
  {
    forall q | q in Below(before, gone) ensures q in Below(before, gone + {c}) {
      var s :| s in gone && s <= q;
      assert s in gone + {c};
    }
    forall q | q in Subtree(before, c) ensures q in Below(before, gone + {c}) {
      assert c in gone + {c};
    }
  }

  lemma ChildAbove(before: Tree, p: Path, q: Path) returns (c: Path)
    requires WellFormed(before) && q in before && p < q
    ensures c in Children(before, p) && c <= q
  {
    c := q[..|p| + 1];
    AncestorIn(before, c, q);
  }

  lemma AllBelow(before: Tree, p: Path, depth: nat)
    requires WellFormed(before) && p in before && before[p] == DirectoryNode(true) && depth <= MAX_DEPTH
    requires forall c :: c in Children(before, p) ==> Removable(before, c, depth + 1)
    ensures Removable(before, p, depth)
    ensures Below(before, Children(before, p)) == Subtree(before, p) - {p}
  {
    forall q | q in before && p <= q
      ensures depth + |q| - |p| <= MAX_DEPTH && (before[q].DirectoryNode? ==> before[q].owned)
      ensures q != p ==> q in Below(before, Children(before, p))
    {
      if q != p {
        var c := ChildAbove(before, p, q);
        assert Removable(before, c, depth + 1);
      }
    }
    BelowInside(before, p);
  }

  lemma BelowInside(before: Tree, p: Path)
    ensures Below(before, Children(before, p)) <= Subtree(before, p) - {p}
  {
  }
}

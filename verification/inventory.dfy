/** The flat inventory of a directory tree, which the recovery drill compares instead of trees. */
module Inventories {
  import opened Bytes
  import opened Paths
  import opened Text

  datatype Meta = Meta(mode: nat, uid: nat, gid: nat)

  datatype Node =
    | File(meta: Meta, hardLinked: bool, bytes: seq<Byte>)
    | Folder(meta: Meta, children: map<string, Node>)
    | SymbolicLink
    | SpecialFile

  datatype Record = DirectoryRecord(meta: Meta) | FileRecord(meta: Meta, size: nat, sha256: Digest)

  type Inventory = map<string, Record>

  const MAX_FILE := 64 * 1024 * 1024

  /** Entry names as file systems have them. */
  predicate NamedNode(node: Node) {
    node.Folder? ==> forall name :: name in node.children ==>
      Plain(name) && '/' !in name && NamedNode(node.children[name])
  }

  /** Only directories and unshared regular files of bounded size, all the way down. */
  predicate Acceptable(node: Node) {
    match node
    case File(_, hardLinked, bytes) => !hardLinked && |bytes| <= MAX_FILE
    case Folder(_, children) => forall name :: name in children ==> Acceptable(children[name])
    case _ => false
  }

  /** A directory, or a regular file with one link and at most 64 MiB. */
  ghost predicate Permitted(node: Node) {
    match node
    case File(_, hardLinked, bytes) => !hardLinked && |bytes| <= 67_108_864
    case Folder(_, _) => true
    case _ => false
  }

  lemma {:induction false} PermittedAt(node: Node, path: Path)
    requires Acceptable(node) && At(node, path).Some?
    ensures Permitted(At(node, path).value)
    decreases |path|
  {
    if path != [] { PermittedAt(node.children[path[0]], path[1..]); }
  }

  lemma {:induction false} Unacceptable(node: Node) returns (path: Path)
    requires !Acceptable(node)
    ensures At(node, path).Some? && !Permitted(At(node, path).value)
    decreases node
  {
    path := [];
    if node.Folder? {
      var name :| name in node.children && !Acceptable(node.children[name]);
      var below := Unacceptable(node.children[name]);
      path := [name] + below;
      assert path[1..] == below;
    }
  }

  /** A tree is acceptable exactly when nothing anywhere in it is not permitted. */
  lemma AcceptableMeans(node: Node)
    ensures Acceptable(node) <==> forall path :: At(node, path).Some? ==> Permitted(At(node, path).value)
  {
    if Acceptable(node) {
      forall path | At(node, path).Some? ensures Permitted(At(node, path).value) { PermittedAt(node, path); }
    } else {
      var path := Unacceptable(node);
    }
  }

  function RecordOf(node: Node): Record
    requires node.File? || node.Folder?
  {
    if node.Folder? then DirectoryRecord(node.meta) else FileRecord(node.meta, |node.bytes|, Sha256(node.bytes))
  }

  /** The node at a path. */
  function At(node: Node, path: Path): Option<Node>
    decreases |path|
  {
    if path == [] then Some(node)
    else if node.Folder? && path[0] in node.children then At(node.children[path[0]], path[1..])
    else None
  }

  /** The inventory's key for a path. */
  function NameOf(path: Path): string {
    if path == [] then "." else Join(path, '/')
  }

  predicate ProperPath(path: Path) {
    forall name :: name in path ==> Plain(name) && '/' !in name
  }

  function Get(inv: Inventory, key: string): Option<Record> {
    if key in inv then Some(inv[key]) else None
  }

  /** The record a tree has at a path. */
  function RecordAt(node: Node, path: Path): Option<Record>
    decreases |path|
  {
    if path == [] then (if node.File? || node.Folder? then Some(RecordOf(node)) else None)
    else if node.Folder? && path[0] in node.children then RecordAt(node.children[path[0]], path[1..])
    else None
  }

  /** Every key names a path. */
  ghost predicate KeysAreNames(inv: Inventory) {
    forall key :: key in inv ==> exists path :: ProperPath(path) && NameOf(path) == key
  }

  /** The inventory is exactly the flattened tree. */
  ghost predicate Lists(inv: Inventory, node: Node) {
    KeysAreNames(inv) && forall path :: ProperPath(path) ==> Get(inv, NameOf(path)) == RecordAt(node, path)
  }

  /** Different paths have different keys. */
  lemma NamesApart(a: Path, b: Path)
    requires ProperPath(a) && ProperPath(b) && NameOf(a) == NameOf(b)
    ensures a == b
  {
    assert a != [] ==> Plain(a[0]);
    assert b != [] ==> Plain(b[0]);
    SplitSingle(".", '/');
    if a != [] { SplitJoin(a, '/'); }
    if b != [] { SplitJoin(b, '/'); }
  }

  // ---------------------------------------------------------------- the walk

  /** What a path's record is once the children in `done` are listed below `base`. */
  function Expected(before: Inventory, base: Path, node: Node, done: set<string>, path: Path): Option<Record>
    requires node.Folder? && done <= node.children.Keys
  {
    if base < path && path[|base|] in done then RecordAt(node.children[path[|base|]], path[|base| + 1..])
    else Get(before, NameOf(path))
  }

  ghost predicate Extends(before: Inventory, after: Inventory, base: Path, node: Node, done: set<string>)
    requires node.Folder? && done <= node.children.Keys
  {
    && KeysAreNames(after)
    && forall path :: ProperPath(path) ==> Get(after, NameOf(path)) == Expected(before, base, node, done, path)
  }

  /** Nothing is listed strictly below `base` yet. */
  ghost predicate Unlisted(inv: Inventory, base: Path) {
    forall path :: ProperPath(path) && base < path ==> Get(inv, NameOf(path)).None?
  }

  /** `visit`: records every entry of a directory, descending first, and stops at the first entry
      that is linked, special or too large. */
  method Visit(node: Node, base: Path, inv: Inventory) returns (r: Result<Inventory>)
    requires node.Folder? && NamedNode(node) && ProperPath(base) && KeysAreNames(inv) && Unlisted(inv, base)
    ensures r.Ok? <==> Acceptable(node)
    ensures r.Ok? ==> Extends(inv, r.value, base, node, node.children.Keys)
    decreases node
  {
    var result := inv;
    var todo := node.children.Keys;
    while todo != {}
      invariant todo <= node.children.Keys
      invariant forall n :: n in node.children && n !in todo ==> Acceptable(node.children[n])
      invariant Extends(inv, result, base, node, node.children.Keys - todo)
      decreases todo
    {
      var n :| n in todo;
      var entry := node.children[n];
      var path := base + [n];
      assert Plain(n) && '/' !in n;
      ghost var done := node.children.Keys - todo;
      ChildUnlisted(inv, result, base, node, done, n);
      var next := result;
      match entry {
        case SymbolicLink => return Err;
        case SpecialFile => return Err;
        case File(_, hardLinked, bytes) =>
          if hardLinked || |bytes| > MAX_FILE { return Err; }
        case Folder(_, _) =>
          var inner := Visit(entry, path, result);
          if inner.Err? { return Err; }
          next := inner.value;
      }
      EntryAdded(inv, result, next, base, node, done, n);
      result := next[NameOf(path) := RecordOf(entry)];
      todo := todo - {n};
      assert node.children.Keys - todo == done + {n};
    }
    return Ok(result);
  }

  lemma ChildUnlisted(before: Inventory, middle: Inventory, base: Path, node: Node, done: set<string>, n: string)
    requires node.Folder? && done <= node.children.Keys && n !in done
    requires Extends(before, middle, base, node, done) && Unlisted(before, base)
    ensures Unlisted(middle, base + [n])
  {
    forall path | ProperPath(path) && base + [n] < path ensures Get(middle, NameOf(path)).None? {
      assert base < path && path[|base|] == n;
    }
  }

  /** `next` is `middle` with everything below the entry listed, if it is a directory. */
  ghost predicate BelowListed(middle: Inventory, next: Inventory, here: Path, entry: Node) {
    if entry.Folder? then Extends(middle, next, here, entry, entry.children.Keys) else entry.File? && next == middle
  }

  /** What one path's record is after an entry and everything below it. */
  lemma EntryAt(before: Inventory, middle: Inventory, next: Inventory, base: Path, node: Node, done: set<string>,
                n: string, path: Path)
    requires node.Folder? && NamedNode(node) && ProperPath(base + [n]) && n in node.children
             && done <= node.children.Keys && n !in done
    requires Extends(before, middle, base, node, done) && Unlisted(middle, base + [n]) && ProperPath(path)
    requires BelowListed(middle, next, base + [n], node.children[n])
    ensures Get(next[NameOf(base + [n]) := RecordOf(node.children[n])], NameOf(path))
            == Expected(before, base, node, done + {n}, path)
  {
    var here := base + [n];
    if path == here {
      assert path[|base|] == n && path[|base| + 1..] == [];
    } else {
      if NameOf(path) == NameOf(here) { NamesApart(path, here); }
      if here < path {
        assert path[|base|] == n;
        var rest := path[|base| + 1..];
        assert rest == path[|here|..] && rest[1..] == path[|here| + 1..];
      } else if base < path {
        assert path[..|base| + 1] == base + [path[|base|]];
        assert path[|base|] != n;
      }
    }
  }

  /** One more entry and everything below it. */
  lemma EntryAdded(before: Inventory, middle: Inventory, next: Inventory, base: Path, node: Node, done: set<string>,
                   n: string)
    requires node.Folder? && NamedNode(node) && ProperPath(base) && n in node.children
             && done <= node.children.Keys && n !in done
    requires Extends(before, middle, base, node, done) && Unlisted(before, base)
    requires BelowListed(middle, next, base + [n], node.children[n])
    ensures Extends(before, next[NameOf(base + [n]) := RecordOf(node.children[n])], base, node, done + {n})
  {
    assert ProperPath(base + [n]);
    ChildUnlisted(before, middle, base, node, done, n);
    forall path | ProperPath(path) {
      EntryAt(before, middle, next, base, node, done, n, path);
    }
  }

  /** The whole inventory: the root's record and the walk. */
  method TakeInventory(root: Node) returns (r: Result<Inventory>)
    requires NamedNode(root)
    ensures r.Ok? <==> root.Folder? && Acceptable(root)
    ensures r.Ok? ==> Lists(r.value, root)
  {
    if !root.Folder? { return Err; }
    var first: Inventory := map["." := DirectoryRecord(root.meta)];
    RootOnly(root);
    r := Visit(root, [], first);
    if r.Ok? { RootDone(root, r.value); }
  }

  lemma RootOnly(root: Node)
    requires root.Folder?
    ensures var first := map["." := DirectoryRecord(root.meta)]; KeysAreNames(first) && Unlisted(first, [])
  {
    assert ProperPath([]) && NameOf([]) == ".";
    forall path | ProperPath(path) && [] < path ensures NameOf(path) != "." {
      if NameOf(path) == NameOf([]) { NamesApart(path, []); }
    }
  }

  lemma RootDone(root: Node, inv: Inventory)
    requires root.Folder?
    requires Extends(map["." := DirectoryRecord(root.meta)], inv, [], root, root.children.Keys)
    ensures Lists(inv, root)
  {
    var first := map["." := DirectoryRecord(root.meta)];
    RootOnly(root);
    forall path | ProperPath(path) ensures Get(inv, NameOf(path)) == RecordAt(root, path) {
      if path != [] { assert [] < path; }
    }
  }

  // ---------------------------------------------------------------- equal inventories, equal trees

  lemma ListedChild(node: Node, n: string)
    requires node.Folder? && Acceptable(node)
    ensures RecordAt(node, [n]).Some? <==> n in node.children
  {
    assert [n][0] == n && [n][1..] == [];
    assert n in node.children ==> Acceptable(node.children[n]);
  }

  lemma {:induction false} SameRecordsSameTree(a: Node, b: Node)
    requires Acceptable(a) && Acceptable(b) && NamedNode(a) && NamedNode(b)
    requires forall path :: ProperPath(path) ==> RecordAt(a, path) == RecordAt(b, path)
    ensures a == b
    decreases a
  {
    assert ProperPath([]) && RecordAt(a, []) == RecordAt(b, []);
    if a.Folder? {
      forall n ensures n in a.children <==> n in b.children {
        if n in a.children || n in b.children {
          assert ProperPath([n]) && RecordAt(a, [n]) == RecordAt(b, [n]);
          assert [n][0] == n && [n][1..] == [];
          ListedChild(a, n);
          ListedChild(b, n);
        }
      }
      assert a.children.Keys == b.children.Keys;
      forall n | n in a.children ensures a.children[n] == b.children[n] {
        forall path | ProperPath(path) ensures RecordAt(a.children[n], path) == RecordAt(b.children[n], path) {
          assert ProperPath([n] + path) && RecordAt(a, [n] + path) == RecordAt(b, [n] + path);
          assert ([n] + path)[1..] == path;
        }
        SameRecordsSameTree(a.children[n], b.children[n]);
      }
    }
  }

  /** The inventory loses nothing: two accepted trees have the same inventory exactly when they are
      the same tree, in shape, kinds, modes, owners and file bytes. */
  lemma InventoryLosesNothing(a: Node, b: Node, x: Inventory, y: Inventory)
    requires NamedNode(a) && NamedNode(b) && Acceptable(a) && Acceptable(b)
    requires Lists(x, a) && Lists(y, b)
    ensures x == y <==> a == b
  {
    if x == y { SameRecordsSameTree(a, b); }
    if a == b {
      forall key ensures Get(x, key) == Get(y, key) {
        if key in x || key in y {
          var path :| ProperPath(path) && NameOf(path) == key;
        }
      }
      assert x.Keys == y.Keys by {
        forall key ensures key in x <==> key in y { assert Get(x, key) == Get(y, key); }
      }
      forall key | key in x ensures x[key] == y[key] { assert Get(x, key) == Get(y, key); }
    }
  }
}

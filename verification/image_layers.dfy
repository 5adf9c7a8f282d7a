/** The gosu disposition check: which bytes does a stack of OCI layers put at one path?
    The check walks the layer archives once and never builds a file tree; here the tree is
    built, following "Applying Changesets" and "Whiteouts" of the OCI image specification. */
module ImageLayers {
  import opened Bytes
  import opened Paths
  import opened Text

  datatype Kind = Directory | Regular | Special

  /** One tar member. Links, devices and every other type are `Special`. */
  datatype Member = Member(name: string, kind: Kind, content: seq<Byte>)

  type Layer = seq<Member>

  const USR := "usr"
  const USR_LOCAL := USR + "/" + "local"
  const USR_LOCAL_BIN := USR_LOCAL + "/" + "bin"
  const TARGET := USR_LOCAL_BIN + "/" + "gosu"
  const ANCESTORS := {USR, USR_LOCAL, USR_LOCAL_BIN}
  const WHITEOUT := ".wh."
  const OPAQUE := ".wh..wh..opq"
  const GOSU_SIZE := 1769900
  const ELF_MAGIC: seq<Byte> := [0x7f, 0x45, 0x4c, 0x46]

  // ---------------------------------------------------------------- names

  function StripDotSlash(name: string): string {
    if StartsWith(name, "./") then StripDotSlash(name[2..]) else name
  }

  function StripTrailingSlashes(name: string): string {
    if name != "" && name[|name| - 1] == '/' then StripTrailingSlashes(name[..|name| - 1]) else name
  }

  /** The spelling of a member's name that the check compares. */
  function Clean(name: string): string {
    StripTrailingSlashes(StripDotSlash(name))
  }

  /** `rpartition('/')`, without its middle part. */
  function ParentOf(name: string): (parent: string) {
    var parts := Split(name, '/');
    if |parts| == 1 then "" else Join(parts[..|parts| - 1], '/')
  }

  function LeafOf(name: string): string {
    var parts := Split(name, '/');
    parts[|parts| - 1]
  }

  /** The components of a name: so many leading dots, a path of real entry names, and so many trailing
      slashes. The root is spelled by dots, with a slash or without, or by nothing. */
  predicate Spells(parts: seq<string>, dots: nat, path: Path, slashes: nat) {
    && parts == Times(".", dots) + path + Times("", slashes)
    && (forall part :: part in path ==> Plain(part))
    && (path == [] ==> slashes <= 1 && dots + slashes > 0)
  }

  function Times(part: string, n: nat): (parts: seq<string>)
    ensures |parts| == n && forall i :: 0 <= i < n ==> parts[i] == part
  {
    seq(n, _ => part)
  }

  /** A name written the way the check assumes, and a whiteout that names a real entry. */
  ghost predicate Canonical(m: Member) {
    exists dots, path, slashes :: Spells(Split(m.name, '/'), dots, path, slashes) && NamesEntry(path)
  }

  predicate NamesEntry(path: Path) {
    path != [] && StartsWith(path[|path| - 1], WHITEOUT) ==> Plain(path[|path| - 1][4..])
  }

  // ---------------------------------------------------------------- the check

  /** The path a whiteout member removes, in the check's spelling. */
  function Removed(name: string): string
    requires StartsWith(LeafOf(name), WHITEOUT)
  {
    (if ParentOf(name) == "" then "" else ParentOf(name) + "/") + LeafOf(name)[4..]
  }

  predicate TouchesByWhiteout(name: string) {
    StartsWith(LeafOf(name), WHITEOUT) &&
    (Removed(name) in ANCESTORS || Removed(name) == TARGET ||
     (LeafOf(name) == OPAQUE && (ParentOf(name) == "" || ParentOf(name) in ANCESTORS)))
  }

  /** The member leaves the target and the directories above it alone. */
  predicate Harmless(m: Member) {
    var name := Clean(m.name);
    && !TouchesByWhiteout(name)
    && (name in ANCESTORS ==> m.kind.Directory?)
    && !StartsWith(name, TARGET + "/")
  }

  predicate SafeSpelling(m: Member) {
    var name := StripDotSlash(m.name);
    !StartsWith(name, "/") && ".." !in Split(name, '/')
  }

  predicate Allowed(m: Member) {
    && SafeSpelling(m)
    && Harmless(m)
    && (Clean(m.name) == TARGET ==> m.kind.Regular? && |m.content| == GOSU_SIZE)
  }

  /** The contents of the members spelled as the target, in order. */
  function Targets(members: seq<Member>): seq<seq<Byte>> {
    if members == [] then []
    else (if Clean(members[0].name) == TARGET then [members[0].content] else []) + Targets(members[1..])
  }

  function Flatten(layers: seq<Layer>): seq<Member> {
    if layers == [] then [] else layers[0] + Flatten(layers[1..])
  }

  /** What an archive must be for the check to return `data`. */
  predicate Accepts(layers: seq<Layer>, data: seq<Byte>) {
    && (forall m :: m in Flatten(layers) ==> Allowed(m))
    && Targets(Flatten(layers)) == [data]
    && |data| == GOSU_SIZE
    && data[..4] == ELF_MAGIC
  }

  lemma {:induction false} TargetsConcat(a: seq<Member>, b: seq<Member>)
    ensures Targets(a + b) == Targets(a) + Targets(b)
  {
    if a == [] {
      assert a + b == b;
    } else {
      assert (a + b)[1..] == a[1..] + b;
      TargetsConcat(a[1..], b);
    }
  }

  lemma {:induction false} FlattenConcat(a: seq<Layer>, b: seq<Layer>)
    ensures Flatten(a + b) == Flatten(a) + Flatten(b)
  {
    if a == [] {
      assert a + b == b;
    } else {
      assert (a + b)[1..] == a[1..] + b;
      FlattenConcat(a[1..], b);
    }
  }

  method CleanName(raw: string) returns (safe: bool, name: string)
    ensures name == Clean(raw)
    ensures safe == SafeSpelling(Member(raw, Special, []))
  {
    name := raw;
    while StartsWith(name, "./")
      invariant StripDotSlash(name) == StripDotSlash(raw)
      decreases |name|
    {
      name := name[2..];
    }
    safe := !StartsWith(name, "/") && ".." !in Split(name, '/');
    while name != "" && name[|name| - 1] == '/'
      invariant StripTrailingSlashes(name) == Clean(raw)
      decreases |name|
    {
      name := name[..|name| - 1];
    }
  }

  /** What the pass has established over the members read so far. */
  predicate Scanned(seen: seq<Member>, data: Option<seq<Byte>>) {
    && (forall m :: m in seen ==> Allowed(m))
    && Targets(seen) == (if data.Some? then [data.value] else [])
    && (data.Some? ==> |data.value| == GOSU_SIZE)
  }

  lemma ScannedStep(seen: seq<Member>, data: Option<seq<Byte>>, m: Member)
    requires Scanned(seen, data) && Allowed(m) && (Clean(m.name) == TARGET ==> data.None?)
    ensures Scanned(seen + [m], if Clean(m.name) == TARGET then Some(m.content) else data)
  {
    TargetsConcat(seen, [m]);
    assert [m][1..] == [];
    assert Targets([m]) == if Clean(m.name) == TARGET then [m.content] else [];
  }

  /** The checks of one member, and the target's bytes if it is the target. */
  method CheckMember(member: Member, data: Option<seq<Byte>>) returns (ok: bool, after: Option<seq<Byte>>)
    ensures ok <==> Allowed(member) && (Clean(member.name) == TARGET ==> data.None?)
    ensures ok ==> after == if Clean(member.name) == TARGET then Some(member.content) else data
  {
    after := data;
    var safe, name := CleanName(member.name);
    if !safe { return false, after; }
    if TouchesByWhiteout(name) { return false, after; }
    if name in ANCESTORS && !member.kind.Directory? { return false, after; }
    if StartsWith(name, TARGET + "/") { return false, after; }
    if name == TARGET {
      if data.Some? { return false, after; }
      if !(member.kind.Regular? && |member.content| == GOSU_SIZE) { return false, after; }
      after := Some(member.content);
    }
    return true, after;
  }

  lemma LayerStep(earlier: seq<Member>, layer: Layer, j: nat, data: Option<seq<Byte>>)
    requires j < |layer| && Scanned(earlier + layer[..j], data)
    requires Allowed(layer[j]) && (Clean(layer[j].name) == TARGET ==> data.None?)
    ensures Scanned(earlier + layer[..j + 1], if Clean(layer[j].name) == TARGET then Some(layer[j].content) else data)
  {
    ScannedStep(earlier + layer[..j], data, layer[j]);
    assert earlier + layer[..j + 1] == earlier + layer[..j] + [layer[j]];
  }

  /** Member `j` of the layer cannot follow what was read before it. */
  predicate Stuck(earlier: seq<Member>, layer: Layer, j: nat) {
    j < |layer| && (!Allowed(layer[j]) || (Clean(layer[j].name) == TARGET && |Targets(earlier + layer[..j])| == 1))
  }

  /** The inner loop: the members of one layer. */
  method ReadLayer(ghost earlier: seq<Member>, layer: Layer, before: Option<seq<Byte>>)
    returns (ok: bool, data: Option<seq<Byte>>, ghost stop: nat)
    requires Scanned(earlier, before)
    ensures ok ==> Scanned(earlier + layer, data)
    ensures !ok ==> Stuck(earlier, layer, stop)
  {
    data, stop := before, 0;
    assert earlier + layer[..0] == earlier;
    for j := 0 to |layer|
      invariant Scanned(earlier + layer[..j], data)
    {
      var after;
      ok, after := CheckMember(layer[j], data);
      if !ok {
        stop := j;
        return;
      }
      LayerStep(earlier, layer, j, data);
      data := after;
    }
    assert layer[..|layer|] == layer;
    ok := true;
  }

  /** The one-pass check: returns bytes exactly when the archive is acceptable, by its strings or by the
      components of its names. */
  method ArchiveBinary(layers: seq<Layer>) returns (r: Option<seq<Byte>>)
    ensures forall data :: r == Some(data) <==> Accepts(layers, data)
    ensures forall data :: r == Some(data) <==> Delivers(layers, data)
  {
    forall data ensures Accepts(layers, data) <==> Delivers(layers, data) { AcceptsByParts(layers, data); }
    r := ReadArchive(layers);
  }

  /** The outer loop, over the layers. */
  method ReadArchive(layers: seq<Layer>) returns (r: Option<seq<Byte>>)
    ensures r.Some? ==> Accepts(layers, r.value)
    ensures r.None? ==> forall data :: !Accepts(layers, data)
  {
    var data: Option<seq<Byte>> := None;
    for i := 0 to |layers|
      invariant Scanned(Flatten(layers[..i]), data)
    {
      var ok;
      ghost var stop;
      ok, data, stop := ReadLayer(Flatten(layers[..i]), layers[i], data);
      if !ok {
        NothingAccepted(layers, i, stop);
        return None;
      }
      SplitFlatten(layers, i);
    }
    assert layers[..|layers|] == layers;
    if data.None? || |data.value| != GOSU_SIZE { return None; }
    if data.value[..4] != ELF_MAGIC { return None; }
    return data;
  }

  /** A member that fails its checks rules every result out. */
  lemma NothingAccepted(layers: seq<Layer>, i: nat, j: nat)
    requires i < |layers| && Stuck(Flatten(layers[..i]), layers[i], j)
    ensures forall other :: !Accepts(layers, other)
  {
    SplitFlatten(layers, i);
    assert layers[i][j] in layers[i];
    if Allowed(layers[i][j]) { TwoTargets(layers, i, j); }
  }

  lemma {:induction false} SplitFlatten(layers: seq<Layer>, i: nat)
    requires i < |layers|
    ensures Flatten(layers) == Flatten(layers[..i]) + layers[i] + Flatten(layers[i + 1..])
    ensures Flatten(layers[..i + 1]) == Flatten(layers[..i]) + layers[i]
  {
    if i > 0 {
      SplitFlatten(layers[1..], i - 1);
      assert layers[1..][..i - 1] == layers[1..i] == layers[..i][1..];
      assert layers[1..][i..] == layers[i + 1..];
      assert layers[1..][..i] == layers[1..i + 1] == layers[..i + 1][1..];
    } else {
      assert layers[..1] == [layers[0]];
      assert Flatten(layers[..1]) == layers[0] + Flatten(layers[..1][1..]);
    }
  }

  /** A second member spelled as the target rules every result out. */
  lemma TwoTargets(layers: seq<Layer>, i: nat, j: nat)
    requires i < |layers| && j < |layers[i]|
    requires |Targets(Flatten(layers[..i]) + layers[i][..j])| == 1
    requires Clean(layers[i][j].name) == TARGET
    ensures forall data :: !Accepts(layers, data)
  {
    SplitFlatten(layers, i);
    var before := Flatten(layers[..i]) + layers[i][..j];
    var after := layers[i][j + 1..] + Flatten(layers[i + 1..]);
    var m := layers[i][j];
    assert layers[i] == layers[i][..j] + [m] + layers[i][j + 1..];
    assert Flatten(layers) == before + ([m] + after);
    TargetsConcat(before, [m] + after);
    TargetsConcat([m], after);
    assert |Targets(Flatten(layers))| >= 2;
  }

  // ---------------------------------------------------------------- the file tree

  datatype Node = DirNode | FileNode(content: seq<Byte>) | SpecialNode

  /** Everything below the root; the root directory itself is always there. */
  type Tree = map<Path, Node>

  const TARGET_PATH: Path := ["usr", "local", "bin", "gosu"]

  function Remove(t: Tree, p: Path): Tree {
    map q | q in t && !(p <= q) :: t[q]
  }

  /** Removes what is below `p` and keeps `p`. */
  function Clear(t: Tree, p: Path): Tree {
    map q | q in t && !(p < q) :: t[q]
  }

  function Lineage(p: Path): set<Path> {
    set i | 1 <= i <= |p| :: p[..i]
  }

  /** Adds one entry: missing directories above it appear, a directory put on a directory keeps
      its children, anything else replaces what was there. */
  function Put(t: Tree, p: Path, node: Node): Tree
    requires p != []
  {
    var keepBelow := node.DirNode? && p in t && t[p].DirNode?;
    map q | q in t.Keys + Lineage(p) && (p < q ==> keepBelow) ::
      if q == p then node else if q < p then DirNode else t[q]
  }

  function NodeOf(m: Member): Node {
    match m.kind
    case Directory => DirNode
    case Regular => FileNode(m.content)
    case Special => SpecialNode
  }

  predicate IsWhiteout(path: Path) {
    path != [] && StartsWith(path[|path| - 1], WHITEOUT)
  }

  function ApplyWhiteout(t: Tree, m: Member): Tree {
    var path := Resolve(m.name);
    if !IsWhiteout(path) then t
    else
      var parent, leaf := path[..|path| - 1], path[|path| - 1];
      if leaf == OPAQUE then Clear(t, parent) else Remove(t, Enter(parent, leaf[4..]))
  }

  function ApplyAddition(t: Tree, m: Member): Tree {
    var path := Resolve(m.name);
    if path == [] || IsWhiteout(path) then t else Put(t, path, NodeOf(m))
  }

  function Whiteouts(t: Tree, members: seq<Member>): Tree
    decreases |members|
  {
    if members == [] then t else Whiteouts(ApplyWhiteout(t, members[0]), members[1..])
  }

  function Additions(t: Tree, members: seq<Member>): Tree
    decreases |members|
  {
    if members == [] then t else Additions(ApplyAddition(t, members[0]), members[1..])
  }

  /** Whiteouts hide entries of lower layers only, wherever they stand in their own layer. */
  function ApplyLayer(t: Tree, layer: Layer): Tree {
    Additions(Whiteouts(t, layer), layer)
  }

  function Effective(t: Tree, layers: seq<Layer>): Tree
    decreases |layers|
  {
    if layers == [] then t else Effective(ApplyLayer(t, layers[0]), layers[1..])
  }

  /** The target is a regular file with these bytes under real directories. */
  predicate Holds(t: Tree, data: seq<Byte>) {
    && TARGET_PATH in t && t[TARGET_PATH] == FileNode(data)
    && forall i :: 1 <= i < 4 ==> TARGET_PATH[..i] in t && t[TARGET_PATH[..i]].DirNode?
  }

  // ---------------------------------------------------------------- spelling and resolution

  lemma {:induction false} StripDotSlashResolves(name: string)
    ensures Resolve(StripDotSlash(name)) == Resolve(name)
    decreases |name|
  {
    if StartsWith(name, "./") {
      StripDotSlashResolves(name[2..]);
      assert name == "." + ['/'] + name[2..];
      SplitConcat(".", name[2..], '/');
      SplitSingle(".", '/');
      assert Split(name, '/') == ["."] + Split(name[2..], '/');
    }
  }

  lemma TrailingSlashResolves(rest: string)
    ensures Resolve(rest + ['/'] + "") == Resolve(rest)
  {
    SplitConcat(rest, "", '/');
    SplitSingle("", '/');
    WalkConcat([], Split(rest, '/'), [""]);
    assert Walk(Resolve(rest), [""]) == Walk(Enter(Resolve(rest), ""), []);
  }

  lemma {:induction false} StripTrailingSlashesResolves(name: string)
    ensures Resolve(StripTrailingSlashes(name)) == Resolve(name)
    decreases |name|
  {
    if name != "" && name[|name| - 1] == '/' {
      var rest := name[..|name| - 1];
      StripTrailingSlashesResolves(rest);
      assert name == rest + ['/'] + "";
      TrailingSlashResolves(rest);
    }
  }

  /** The check's spelling resolves to the same entry as the member's own name. */
  lemma CleanResolves(name: string)
    ensures Resolve(Clean(name)) == Resolve(name)
  {
    StripDotSlashResolves(name);
    StripTrailingSlashesResolves(StripDotSlash(name));
  }

  // ---------------------------------------------------------------- names by components

  /** Leading dots go while something follows them. */
  function Undotted(parts: seq<string>): (rest: seq<string>)
    requires parts != []
    ensures rest != []
  {
    if |parts| > 1 && parts[0] == "." then Undotted(parts[1..]) else parts
  }

  /** So do trailing empty components while something stands before them. */
  function Trimmed(parts: seq<string>): (rest: seq<string>)
    requires parts != []
    ensures rest != [] && rest <= parts
  {
    if |parts| > 1 && parts[|parts| - 1] == "" then Trimmed(parts[..|parts| - 1]) else parts
  }

  /** The components the check compares. */
  function Core(parts: seq<string>): (rest: seq<string>)
    requires parts != []
    ensures rest != []
  {
    Trimmed(Undotted(parts))
  }

  lemma FirstPart(first: string, rest: string)
    requires '/' !in first
    ensures Split(first + ['/'] + rest, '/') == [first] + Split(rest, '/')
  {
    SplitFirst(first, rest, '/');
  }

  lemma FirstIsDot(name: string)
    ensures |Split(name, '/')| > 1 && Split(name, '/')[0] == "." ==> StartsWith(name, "./")
  {
    var parts := Split(name, '/');
    JoinSplit(name, '/');
    if |parts| > 1 {
      assert parts == [parts[0]] + parts[1..];
      JoinFirst(parts[0], parts[1..], '/');
    }
  }

  lemma {:induction false} UndottedParts(name: string)
    ensures Split(StripDotSlash(name), '/') == Undotted(Split(name, '/'))
    decreases |name|
  {
    if StartsWith(name, "./") {
      assert name == "." + ['/'] + name[2..];
      FirstPart(".", name[2..]);
      UndottedParts(name[2..]);
      assert ([ "." ] + Split(name[2..], '/'))[1..] == Split(name[2..], '/');
    } else {
      FirstIsDot(name);
    }
  }

  lemma {:induction false} TrimmedParts(name: string)
    ensures Split(StripTrailingSlashes(name), '/') == Trimmed(Split(name, '/'))
    decreases |name|
  {
    if name != "" && name[|name| - 1] == '/' {
      var rest := name[..|name| - 1];
      assert name == rest + ['/'] + "";
      SplitConcat(rest, "", '/');
      SplitSingle("", '/');
      TrimmedParts(rest);
      assert (Split(rest, '/') + [""])[..|Split(rest, '/')|] == Split(rest, '/');
    } else {
      LastPartEmpty(name);
    }
  }

  /** A name of several components whose last one is empty ends in a slash. */
  lemma LastPartEmpty(name: string)
    ensures var parts := Split(name, '/');
            |parts| > 1 && parts[|parts| - 1] == "" ==> name != "" && name[|name| - 1] == '/'
  {
    var parts := Split(name, '/');
    JoinSplit(name, '/');
    if |parts| > 1 && parts[|parts| - 1] == "" {
      var front := parts[..|parts| - 1];
      assert parts == front + [""];
      JoinConcat(front, [""], '/');
      assert Join([""], '/') == "";
      assert name == Join(front, '/') + ['/'];
    }
  }

  /** What the two loops leave, read on components. */
  lemma CleanParts(name: string)
    ensures Split(Clean(name), '/') == Core(Split(name, '/'))
  {
    UndottedParts(name);
    TrimmedParts(StripDotSlash(name));
  }

  lemma {:induction false} UndottedSpelled(dots: nat, rest: seq<string>)
    requires rest != [] && rest[0] != "."
    ensures Undotted(Times(".", dots) + rest) == rest
  {
    if dots == 0 {
      assert Times(".", 0) + rest == rest;
    } else {
      UndottedSpelled(dots - 1, rest);
      assert (Times(".", dots) + rest)[1..] == Times(".", dots - 1) + rest;
    }
  }

  lemma {:induction false} TrimmedSpelled(path: seq<string>, slashes: nat)
    requires path != [] && path[|path| - 1] != ""
    ensures Trimmed(path + Times("", slashes)) == path
  {
    var parts := path + Times("", slashes);
    if slashes == 0 {
      assert parts == path;
    } else {
      TrimmedSpelled(path, slashes - 1);
      assert parts[..|parts| - 1] == path + Times("", slashes - 1);
    }
  }

  lemma {:induction false} OnlyDots(dots: nat)
    requires dots > 0
    ensures Undotted(Times(".", dots)) == ["."]
  {
    if dots > 1 {
      OnlyDots(dots - 1);
      assert Times(".", dots)[1..] == Times(".", dots - 1);
    } else {
      assert Times(".", 1) == ["."];
    }
  }

  /** What the check compares of a name in its ordinary spelling is the path it spells. */
  lemma SpelledCore(parts: seq<string>, dots: nat, path: Path, slashes: nat)
    requires parts != [] && Spells(parts, dots, path, slashes)
    ensures path != [] ==> Undotted(parts) == path + Times("", slashes) && Core(parts) == path
    ensures path == [] ==> Undotted(parts) == Core(parts) && (Core(parts) == ["."] || Core(parts) == [""])
  {
    if path != [] {
      assert Plain(path[0]) && Plain(path[|path| - 1]);
      assert parts == Times(".", dots) + (path + Times("", slashes));
      UndottedSpelled(dots, path + Times("", slashes));
      TrimmedSpelled(path, slashes);
    } else if slashes == 0 {
      assert parts == Times(".", dots);
      OnlyDots(dots);
    } else {
      assert parts == Times(".", dots) + [""];
      UndottedSpelled(dots, [""]);
    }
  }

  /** A canonical name resolves to its own components. */
  lemma CanonicalResolves(m: Member, dots: nat, path: Path, slashes: nat)
    requires Spells(Split(m.name, '/'), dots, path, slashes)
    ensures Resolve(m.name) == path
  {
    CleanResolves(m.name);
    CleanParts(m.name);
    SpelledCore(Split(m.name, '/'), dots, path, slashes);
    if path != [] { WalkPlain([], path); }
  }

  lemma SplitExtended(a: string, parts: seq<string>, leaf: string)
    requires Split(a, '/') == parts && '/' !in leaf
    ensures Split(a + ['/'] + leaf, '/') == parts + [leaf]
  {
    SplitSingle(leaf, '/');
    SplitConcat(a, leaf, '/');
  }

  lemma SplitsOfConstants()
    ensures Split(USR, '/') == ["usr"]
    ensures Split(USR_LOCAL, '/') == ["usr", "local"]
    ensures Split(USR_LOCAL_BIN, '/') == ["usr", "local", "bin"]
    ensures Split(TARGET, '/') == TARGET_PATH
  {
    SplitSingle("usr", '/');
    SplitExtended(USR, ["usr"], "local");
    SplitExtended(USR_LOCAL, ["usr", "local"], "bin");
    SplitExtended(USR_LOCAL_BIN, ["usr", "local", "bin"], "gosu");
  }

  lemma TargetSpelling(name: string)
    ensures name == TARGET <==> Split(name, '/') == TARGET_PATH
  {
    SplitsOfConstants();
    if Split(name, '/') == TARGET_PATH { SplitInjective(name, TARGET, '/'); }
  }

  lemma KnownSpelling(name: string)
    ensures Split(name, '/') == ["usr"] ==> name == USR
    ensures Split(name, '/') == ["usr", "local"] ==> name == USR_LOCAL
    ensures Split(name, '/') == ["usr", "local", "bin"] ==> name == USR_LOCAL_BIN
  {
    SplitsOfConstants();
    JoinSplit(name, '/');
    JoinSplit(USR, '/');
    JoinSplit(USR_LOCAL, '/');
    JoinSplit(USR_LOCAL_BIN, '/');
  }

  lemma TargetPrefix(parts: Path)
    requires parts != [] && parts < TARGET_PATH
    ensures parts == ["usr"] || parts == ["usr", "local"] || parts == ["usr", "local", "bin"]
  {
    assert parts == TARGET_PATH[..|parts|];
  }

  lemma AncestorPathSpelling(name: string)
    requires Split(name, '/') < TARGET_PATH
    ensures name in ANCESTORS
  {
    TargetPrefix(Split(name, '/'));
    KnownSpelling(name);
  }

  lemma AncestorSplit(name: string)
    requires name in ANCESTORS
    ensures Split(name, '/') < TARGET_PATH
  {
    SplitsOfConstants();
  }

  lemma AncestorSpelling(name: string)
    ensures name in ANCESTORS <==> Split(name, '/') < TARGET_PATH
  {
    if name in ANCESTORS { AncestorSplit(name); }
    if Split(name, '/') < TARGET_PATH { AncestorPathSpelling(name); }
  }

  /** The string tests of the check, read on components. */
  lemma SpellingIsPath(name: string)
    ensures name == TARGET <==> Split(name, '/') == TARGET_PATH
    ensures name in ANCESTORS <==> Split(name, '/') < TARGET_PATH
    ensures StartsWith(name, TARGET + "/") <==> TARGET_PATH < Split(name, '/')
  {
    TargetSpelling(name);
    AncestorSpelling(name);
    TargetSpelling(TARGET);
    PrefixIsPartPrefix(name, TARGET, '/');
  }

  /** A whiteout that removes the target or a directory above it, or empties one. */
  predicate HidesTarget(path: Path) {
    IsWhiteout(path) &&
    var parent, leaf := path[..|path| - 1], path[|path| - 1];
    if leaf == OPAQUE then parent < TARGET_PATH else Enter(parent, leaf[4..]) <= TARGET_PATH
  }

  predicate HarmlessAt(path: Path, kind: Kind) {
    path == [] ||
    (!HidesTarget(path) && (path < TARGET_PATH ==> kind.Directory?) && !(TARGET_PATH < path))
  }

  /** The first of several components is not empty. */
  predicate Headed(parts: seq<string>) {
    |parts| > 1 ==> parts[0] != ""
  }

  lemma ParentJoin(path: seq<string>, parent: seq<string>)
    requires |path| > 1 && Headed(path) && parent == path[..|path| - 1]
    requires forall part :: part in path ==> '/' !in part
    ensures Join(parent, '/') != "" && Split(Join(parent, '/'), '/') == parent
  {
    assert forall part :: part in parent ==> part in path;
    assert parent[0] == path[0];
    SplitJoin(parent, '/');
  }

  lemma ParentOfParts(name: string, path: seq<string>, parent: seq<string>)
    requires path == Split(name, '/') && Headed(path) && parent == path[..|path| - 1]
    ensures ParentOf(name) == "" <==> parent == []
    ensures ParentOf(name) != "" ==> Split(ParentOf(name), '/') == parent
  {
    PartsHaveNoSeparator(name, '/');
    if |path| > 1 { ParentJoin(path, parent); }
  }

  lemma ParentParts(name: string)
    requires Headed(Split(name, '/'))
    ensures var path := Split(name, '/'); var parent := path[..|path| - 1];
            && (ParentOf(name) == "" <==> parent == [])
            && (ParentOf(name) != "" ==> Split(ParentOf(name), '/') == parent)
  {
    var path := Split(name, '/');
    ParentOfParts(name, path, path[..|path| - 1]);
  }

  lemma LeafSuffixIsOnePart(name: string)
    requires StartsWith(LeafOf(name), WHITEOUT)
    ensures Split(LeafOf(name)[4..], '/') == [LeafOf(name)[4..]]
  {
    PartsHaveNoSeparator(name, '/');
    assert LeafOf(name) in Split(name, '/');
    SplitSingle(LeafOf(name)[4..], '/');
  }

  /** What a whiteout member removes, read on components. */
  lemma RemovedParts(name: string)
    requires Headed(Split(name, '/')) && StartsWith(LeafOf(name), WHITEOUT)
    ensures var path := Split(name, '/');
            Split(Removed(name), '/') == path[..|path| - 1] + [LeafOf(name)[4..]]
  {
    var parent, suffix := ParentOf(name), LeafOf(name)[4..];
    ParentParts(name);
    LeafSuffixIsOnePart(name);
    if parent == "" {
      assert Removed(name) == suffix;
    } else {
      SplitConcat(parent, suffix, '/');
      assert Removed(name) == parent + ['/'] + suffix;
    }
  }

  /** A whiteout that, by its components, names the target or a directory above it, or empties one. */
  predicate HidesParts(parts: seq<string>)
    requires parts != []
  {
    var above, leaf := parts[..|parts| - 1], parts[|parts| - 1];
    StartsWith(leaf, WHITEOUT)
    && (above + [leaf[4..]] <= TARGET_PATH || (leaf == OPAQUE && above < TARGET_PATH))
  }

  lemma OtherLeavesTouchNothing(name: string)
    requires !StartsWith(LeafOf(name), WHITEOUT)
    ensures !TouchesByWhiteout(name) && !HidesParts(Split(name, '/'))
  {
  }

  lemma TouchMeans(name: string, removed: string, above: string, path: Path)
    requires path == Split(name, '/') && StartsWith(LeafOf(name), WHITEOUT)
    requires removed == Removed(name) && above == ParentOf(name)
    ensures TouchesByWhiteout(name) <==>
            removed in ANCESTORS || removed == TARGET
            || (path[|path| - 1] == OPAQUE && (above == "" || above in ANCESTORS))
  {
  }

  /** The components of what a whiteout removes, and of the directory above it. */
  ghost predicate WhiteoutParts(removed: string, above: string, path: Path) {
    && IsWhiteout(path)
    && Split(removed, '/') == path[..|path| - 1] + [path[|path| - 1][4..]]
    && (above == "" <==> path[..|path| - 1] == [])
    && (above != "" ==> Split(above, '/') == path[..|path| - 1])
  }

  lemma PartsOfWhiteout(name: string)
    requires Headed(Split(name, '/')) && StartsWith(LeafOf(name), WHITEOUT)
    ensures WhiteoutParts(Removed(name), ParentOf(name), Split(name, '/'))
  {
    RemovedParts(name);
    ParentParts(name);
  }

  lemma WhiteoutTouches(name: string, path: Path)
    requires path == Split(name, '/') && StartsWith(LeafOf(name), WHITEOUT)
    requires WhiteoutParts(Removed(name), ParentOf(name), path)
    ensures TouchesByWhiteout(name) <==> HidesParts(path)
  {
    TouchMeans(name, Removed(name), ParentOf(name), path);
    NamesOfWhiteout(Removed(name), ParentOf(name), path);
  }

  lemma WhiteoutSpelling(name: string)
    requires Headed(Split(name, '/'))
    ensures TouchesByWhiteout(name) <==> HidesParts(Split(name, '/'))
  {
    if StartsWith(LeafOf(name), WHITEOUT) {
      PartsOfWhiteout(name);
      WhiteoutTouches(name, Split(name, '/'));
    } else {
      OtherLeavesTouchNothing(name);
    }
  }

  lemma NamesOfWhiteout(removed: string, above: string, path: Path)
    requires WhiteoutParts(removed, above, path)
    ensures removed in ANCESTORS || removed == TARGET
            || (path[|path| - 1] == OPAQUE && (above == "" || above in ANCESTORS))
            <==> HidesParts(path)
  {
    OnTargetLine(removed);
    AboveTarget(above, path[..|path| - 1]);
  }

  lemma OnTargetLine(name: string)
    ensures name in ANCESTORS || name == TARGET <==> Split(name, '/') <= TARGET_PATH
  {
    AncestorSpelling(name);
    TargetSpelling(name);
  }

  lemma AboveTarget(name: string, parent: Path)
    requires name == "" <==> parent == []
    requires name != "" ==> Split(name, '/') == parent
    ensures name == "" || name in ANCESTORS <==> parent < TARGET_PATH
  {
    AncestorSpelling(name);
  }

  // ---------------------------------------------------------------- the check by components

  /** No component leads upwards, and nothing stands before the first one. */
  predicate SafeParts(parts: seq<string>)
    requires parts != []
  {
    ".." !in parts && Headed(Undotted(parts))
  }

  /** What the check lets pass, by the components it compares. */
  predicate PassesAt(core: seq<string>, kind: Kind, size: nat)
    requires core != []
  {
    && !HidesParts(core)
    && (core < TARGET_PATH ==> kind.Directory?)
    && !(TARGET_PATH < core)
    && (core == TARGET_PATH ==> kind.Regular? && size == GOSU_SIZE)
  }

  lemma {:induction false} UndottedKeeps(parts: seq<string>, part: string)
    requires parts != [] && part != "."
    ensures part in Undotted(parts) <==> part in parts
  {
    if |parts| > 1 && parts[0] == "." {
      assert parts == ["."] + parts[1..];
      UndottedKeeps(parts[1..], part);
    }
  }

  lemma FirstIsEmpty(name: string)
    ensures !Headed(Split(name, '/')) ==> StartsWith(name, "/")
  {
    var parts := Split(name, '/');
    JoinSplit(name, '/');
    if |parts| > 1 {
      assert parts == [parts[0]] + parts[1..];
      JoinFirst(parts[0], parts[1..], '/');
    }
  }

  lemma SlashFirst(name: string)
    ensures StartsWith(name, "/") <==> !Headed(Split(name, '/'))
  {
    var parts := Split(name, '/');
    if StartsWith(name, "/") {
      assert name == "" + ['/'] + name[1..];
      FirstPart("", name[1..]);
    } else {
      FirstIsEmpty(name);
    }
  }

  /** The spelling is safe exactly when its components are. */
  lemma SafeByParts(m: Member)
    ensures SafeSpelling(m) <==> SafeParts(Split(m.name, '/'))
  {
    UndottedParts(m.name);
    UndottedKeeps(Split(m.name, '/'), "..");
    SlashFirst(StripDotSlash(m.name));
  }

  /** The whole check of one member, however it is spelled, is a condition on its components. */
  lemma AllowedByParts(m: Member)
    ensures Allowed(m) <==>
            SafeParts(Split(m.name, '/')) && PassesAt(Core(Split(m.name, '/')), m.kind, |m.content|)
    ensures Clean(m.name) == TARGET <==> Core(Split(m.name, '/')) == TARGET_PATH
  {
    var parts := Split(m.name, '/');
    SafeByParts(m);
    CleanParts(m.name);
    SpellingIsPath(Clean(m.name));
    if SafeParts(parts) {
      assert Headed(Core(parts));
      WhiteoutSpelling(Clean(m.name));
    }
  }

  /** The one member that is the target. */
  ghost predicate OneTarget(members: seq<Member>, i: int) {
    && 0 <= i < |members| && IsTarget(members[i])
    && forall j :: 0 <= j < |members| && IsTarget(members[j]) ==> j == i
  }

  /** What the check delivers, by components alone. */
  ghost predicate Delivers(layers: seq<Layer>, data: seq<Byte>) {
    var members := Flatten(layers);
    && (forall m :: m in members ==>
          SafeParts(Split(m.name, '/')) && PassesAt(Core(Split(m.name, '/')), m.kind, |m.content|))
    && (exists i :: OneTarget(members, i) && members[i].content == data)
    && |data| == GOSU_SIZE && data[..4] == ELF_MAGIC
  }

  predicate IsTarget(m: Member) {
    Core(Split(m.name, '/')) == TARGET_PATH
  }

  lemma {:induction false} NoTargets(members: seq<Member>)
    ensures Targets(members) == [] <==> forall j :: 0 <= j < |members| ==> !IsTarget(members[j])
  {
    if members != [] {
      AllowedByParts(members[0]);
      NoTargets(members[1..]);
      assert forall j :: 1 <= j < |members| ==> members[j] == members[1..][j - 1];
    }
  }

  lemma OneMore(first: Member, rest: seq<Member>, i: int)
    requires !IsTarget(first)
    ensures OneTarget([first] + rest, i) <==> OneTarget(rest, i - 1)
  {
    var members := [first] + rest;
    assert forall j :: 0 <= j < |rest| ==> members[j + 1] == rest[j];
    assert members[0] == first;
  }

  lemma FirstIsOne(first: Member, rest: seq<Member>, i: int)
    requires IsTarget(first)
    ensures OneTarget([first] + rest, i) <==> i == 0 && forall j :: 0 <= j < |rest| ==> !IsTarget(rest[j])
  {
    var members := [first] + rest;
    assert forall j :: 0 <= j < |rest| ==> members[j + 1] == rest[j];
    assert members[0] == first;
  }

  lemma {:induction false} TargetsAreOne(members: seq<Member>, data: seq<Byte>)
    ensures Targets(members) == [data] <==> exists i :: OneTarget(members, i) && members[i].content == data
  {
    if members != [] {
      var first, rest := members[0], members[1..];
      assert members == [first] + rest;
      AllowedByParts(first);
      if IsTarget(first) {
        NoTargets(rest);
        FirstIsOne(first, rest, 0);
        assert Targets(members) == [first.content] + Targets(rest);
        assert Targets(members)[0] == first.content && |Targets(members)| == 1 + |Targets(rest)|;
        forall i | OneTarget(members, i) ensures i == 0 { FirstIsOne(first, rest, i); }
      } else {
        TargetsAreOne(rest, data);
        forall i ensures OneTarget(members, i) <==> OneTarget(rest, i - 1) { OneMore(first, rest, i); }
        if Targets(rest) == [data] {
          var i :| OneTarget(rest, i) && rest[i].content == data;
          assert OneTarget(rest, i + 1 - 1) && members[i + 1] == rest[i];
        }
      }
    }
  }

  /** The strings of the check and the components of the names accept the same archives, with the same
      bytes. */
  lemma AcceptsByParts(layers: seq<Layer>, data: seq<Byte>)
    ensures Accepts(layers, data) <==> Delivers(layers, data)
  {
    var members := Flatten(layers);
    forall m | m in members
      ensures Allowed(m) <==>
              SafeParts(Split(m.name, '/')) && PassesAt(Core(Split(m.name, '/')), m.kind, |m.content|)
    {
      AllowedByParts(m);
    }
    TargetsAreOne(members, data);
    if Delivers(layers, data) {
      var i :| OneTarget(members, i) && members[i].content == data;
      assert members[i] in members;
    }
  }

  lemma HidesTargetMeans(path: Path)
    requires path != [] && NamesEntry(path)
    ensures HidesTarget(path) <==> HidesParts(path)
  {
    if IsWhiteout(path) {
      var parent, leaf := path[..|path| - 1], path[|path| - 1];
      if leaf == OPAQUE {
        OpaqueIsNoTargetPart(parent);
      } else {
        assert Enter(parent, leaf[4..]) == parent + [leaf[4..]];
      }
    }
  }

  lemma OpaqueIsNoTargetPart(parent: Path)
    ensures !(parent + [OPAQUE[4..]] <= TARGET_PATH)
  {
    var removed := parent + [OPAQUE[4..]];
    if removed <= TARGET_PATH {
      assert TARGET_PATH[|parent|] == OPAQUE[4..];
      assert |OPAQUE[4..]| == 8;
      assert forall part :: part in TARGET_PATH ==> |part| < 8;
      assert false;
    }
  }

  lemma RootPasses(core: seq<string>, kind: Kind, size: nat)
    requires core == ["."] || core == [""]
    ensures PassesAt(core, kind, size) && core != TARGET_PATH
  {
    assert !StartsWith(core[0], WHITEOUT);
    assert TARGET_PATH[0] == "usr" && |core[0]| < 3;
  }

  lemma SpelledPart(dots: nat, path: Path, slashes: nat, i: nat)
    requires i < dots + |path| + slashes
    ensures var part := (Times(".", dots) + path + Times("", slashes))[i];
            part == "." || part == "" || part in path
  {
  }

  /** An ordinarily spelled name has safe components. */
  lemma SpelledIsSafe(parts: seq<string>, dots: nat, path: Path, slashes: nat)
    requires parts != [] && Spells(parts, dots, path, slashes)
    ensures SafeParts(parts)
  {
    SpelledCore(parts, dots, path, slashes);
    forall i | 0 <= i < |parts| ensures parts[i] != ".." { SpelledPart(dots, path, slashes, i); }
    if path != [] { assert Plain(path[0]); }
  }

  /** On canonical names the check says what the paths say. */
  lemma CheckReadsPaths(m: Member)
    requires Canonical(m)
    ensures Harmless(m) <==> HarmlessAt(Resolve(m.name), m.kind)
    ensures Clean(m.name) == TARGET <==> Resolve(m.name) == TARGET_PATH
    ensures Core(Split(m.name, '/')) == TARGET_PATH <==> Resolve(m.name) == TARGET_PATH
    ensures SafeParts(Split(m.name, '/'))
  {
    var parts := Split(m.name, '/');
    var dots, path, slashes :| Spells(parts, dots, path, slashes) && NamesEntry(path);
    CanonicalResolves(m, dots, path, slashes);
    SpelledCore(parts, dots, path, slashes);
    SpelledIsSafe(parts, dots, path, slashes);
    AllowedByParts(m);
    CleanParts(m.name);
    SpellingIsPath(Clean(m.name));
    WhiteoutSpelling(Clean(m.name));
    if path == [] {
      RootPasses(Core(parts), m.kind, 0);
    } else {
      HidesTargetMeans(path);
    }
  }

  /** The archive leaves the target alone but for the one regular member that is it, by resolved paths. */
  ghost predicate Intact(layers: seq<Layer>, data: seq<Byte>) {
    var members := Flatten(layers);
    && (forall m :: m in members ==>
          if Resolve(m.name) == TARGET_PATH then m.kind.Regular? && |m.content| == GOSU_SIZE
          else HarmlessAt(Resolve(m.name), m.kind))
    && (exists i :: OnlyAtTarget(members, i) && members[i].content == data)
    && |data| == GOSU_SIZE && data[..4] == ELF_MAGIC
  }

  ghost predicate OnlyAtTarget(members: seq<Member>, i: int) {
    && 0 <= i < |members| && Resolve(members[i].name) == TARGET_PATH
    && forall j :: 0 <= j < |members| && Resolve(members[j].name) == TARGET_PATH ==> j == i
  }

  lemma TargetIsHarmless(kind: Kind)
    ensures HarmlessAt(TARGET_PATH, kind)
  {
    assert TARGET_PATH[3][0] == 'g' && WHITEOUT[0] == '.';
  }

  lemma CanonicalMember(m: Member)
    requires Canonical(m)
    ensures Allowed(m) <==>
            if Resolve(m.name) == TARGET_PATH then m.kind.Regular? && |m.content| == GOSU_SIZE
            else HarmlessAt(Resolve(m.name), m.kind)
    ensures IsTarget(m) <==> Resolve(m.name) == TARGET_PATH
  {
    CheckReadsPaths(m);
    SafeByParts(m);
    TargetIsHarmless(m.kind);
  }

  /** An archive of ordinary names is delivered exactly when it leaves the target alone but for one
      regular member of the right size and magic, and then with its bytes: no ordinary image is refused. */
  lemma CanonicalArchiveIsDelivered(layers: seq<Layer>, data: seq<Byte>)
    requires forall m :: m in Flatten(layers) ==> Canonical(m)
    ensures Delivers(layers, data) <==> Intact(layers, data)
  {
    var members := Flatten(layers);
    forall m | m in members
      ensures Allowed(m) <==>
              if Resolve(m.name) == TARGET_PATH then m.kind.Regular? && |m.content| == GOSU_SIZE
              else HarmlessAt(Resolve(m.name), m.kind)
      ensures IsTarget(m) <==> Resolve(m.name) == TARGET_PATH
    {
      CanonicalMember(m);
    }
    forall i ensures OneTarget(members, i) <==> OnlyAtTarget(members, i) {
      if 0 <= i < |members| { assert members[i] in members; }
      assert forall j :: 0 <= j < |members| ==> members[j] in members;
    }
    AcceptsByParts(layers, data);
    TargetsAreOne(members, data);
  }

  /** A name that leads upwards, or is absolute after its leading dots, refuses the whole archive. */
  lemma UnsafeNameRefuses(layers: seq<Layer>, m: Member, dots: nat, rest: seq<string>, data: seq<Byte>)
    requires m in Flatten(layers)
    requires ".." in Split(m.name, '/') || (rest != [] && Split(m.name, '/') == Times(".", dots) + ([""] + rest))
    ensures !Delivers(layers, data)
  {
    if ".." !in Split(m.name, '/') {
      UndottedSpelled(dots, [""] + rest);
      assert Undotted(Split(m.name, '/')) == [""] + rest;
    }
  }

  // ---------------------------------------------------------------- one member on a tree

  lemma AncestorIsTargetPrefix(i: nat)
    requires 1 <= i < 4
    ensures TARGET_PATH[..i] < TARGET_PATH && TARGET_PATH[..i] in Lineage(TARGET_PATH)
  {
  }

  /** What an added layer member must be to leave the target file in place: a whiteout that does
      not hide it, or an addition that is not at it, not below it, and a directory when above it. */
  predicate Preserves(path: Path, kind: Kind) {
    path == [] ||
    if IsWhiteout(path) then !HidesTarget(path)
    else path != TARGET_PATH && !(TARGET_PATH < path) && (path < TARGET_PATH ==> kind.Directory?)
  }

  lemma WhiteoutKeeps(t: Tree, m: Member, data: seq<Byte>)
    requires Holds(t, data)
    requires Preserves(Resolve(m.name), m.kind)
    ensures Holds(ApplyWhiteout(t, m), data)
  {
    var path := Resolve(m.name);
    if IsWhiteout(path) {
      var parent, leaf := path[..|path| - 1], path[|path| - 1];
      if leaf == OPAQUE {
        assert !(parent < TARGET_PATH);
      } else {
        assert !(Enter(parent, leaf[4..]) <= TARGET_PATH);
      }
    }
  }

  lemma PutKeeps(t: Tree, p: Path, node: Node, data: seq<Byte>)
    requires Holds(t, data)
    requires p != [] && p != TARGET_PATH && !(TARGET_PATH < p)
    requires p < TARGET_PATH ==> node.DirNode?
    ensures Holds(Put(t, p, node), data)
  {
    if p < TARGET_PATH {
      assert p == TARGET_PATH[..|p|];
    }
  }

  lemma PutPlaces(t: Tree, data: seq<Byte>)
    ensures Holds(Put(t, TARGET_PATH, FileNode(data)), data)
  {
    forall i | 1 <= i < 4
      ensures TARGET_PATH[..i] in Lineage(TARGET_PATH) && TARGET_PATH[..i] < TARGET_PATH
    {
      AncestorIsTargetPrefix(i);
    }
    assert TARGET_PATH[..4] == TARGET_PATH;
  }

  lemma AdditionKeeps(t: Tree, m: Member, data: seq<Byte>)
    requires Holds(t, data)
    requires Preserves(Resolve(m.name), m.kind)
    ensures Holds(ApplyAddition(t, m), data)
  {
    var path := Resolve(m.name);
    if path != [] && !IsWhiteout(path) {
      PutKeeps(t, path, NodeOf(m), data);
    }
  }

  /** An accepted member that is the target by its spelling, or really leaves the target alone. */
  predicate Ordinary(m: Member) {
    Allowed(m) && (Clean(m.name) == TARGET || Preserves(Resolve(m.name), m.kind))
  }

  /** The assumption under which the check is written: a canonical name is never misread. */
  lemma CanonicalIsOrdinary(m: Member)
    requires Allowed(m) && Canonical(m)
    ensures Ordinary(m)
  {
    CheckReadsPaths(m);
  }

  lemma TargetMember(m: Member)
    requires Clean(m.name) == TARGET
    ensures Resolve(m.name) == TARGET_PATH && !IsWhiteout(TARGET_PATH)
  {
    SplitsOfConstants();
    CleanResolves(m.name);
    assert TARGET_PATH[3] == "gosu" && "gosu"[0] == 'g' && WHITEOUT[0] == '.';
    forall part | part in TARGET_PATH ensures Plain(part) {
      assert part[0] != '.';
    }
    WalkPlain([], TARGET_PATH);
  }

  lemma {:induction false} WhiteoutsKeep(t: Tree, members: seq<Member>, data: seq<Byte>)
    requires Holds(t, data)
    requires forall m :: m in members ==> Ordinary(m)
    requires Targets(members) == []
    ensures Holds(Whiteouts(t, members), data)
    decreases |members|
  {
    if members != [] {
      assert Ordinary(members[0]);
      WhiteoutKeeps(t, members[0], data);
      WhiteoutsKeep(ApplyWhiteout(t, members[0]), members[1..], data);
    }
  }

  lemma {:induction false} AdditionsKeep(t: Tree, members: seq<Member>, data: seq<Byte>)
    requires Holds(t, data)
    requires forall m :: m in members ==> Ordinary(m)
    requires Targets(members) == []
    ensures Holds(Additions(t, members), data)
    decreases |members|
  {
    if members != [] {
      assert Ordinary(members[0]);
      AdditionKeeps(t, members[0], data);
      AdditionsKeep(ApplyAddition(t, members[0]), members[1..], data);
    }
  }

  lemma {:induction false} AdditionsPlace(t: Tree, members: seq<Member>, data: seq<Byte>)
    requires forall m :: m in members ==> Ordinary(m)
    requires Targets(members) == [data]
    ensures Holds(Additions(t, members), data)
    decreases |members|
  {
    var m := members[0];
    assert Ordinary(m);
    if Clean(m.name) == TARGET {
      assert Targets(members)[0] == m.content;
      assert Targets(members[1..]) == Targets(members)[1..] == [];
      TargetMember(m);
      PutPlaces(t, data);
      AdditionsKeep(ApplyAddition(t, m), members[1..], data);
    } else {
      AdditionsPlace(ApplyAddition(t, m), members[1..], data);
    }
  }

  lemma {:induction false} LayersKeep(t: Tree, layers: seq<Layer>, data: seq<Byte>)
    requires Holds(t, data)
    requires forall m :: m in Flatten(layers) ==> Ordinary(m)
    requires Targets(Flatten(layers)) == []
    ensures Holds(Effective(t, layers), data)
    decreases |layers|
  {
    if layers != [] {
      TargetsConcat(layers[0], Flatten(layers[1..]));
      WhiteoutsKeep(t, layers[0], data);
      AdditionsKeep(Whiteouts(t, layers[0]), layers[0], data);
      LayersKeep(ApplyLayer(t, layers[0]), layers[1..], data);
    }
  }

  lemma {:induction false} LayersPlace(t: Tree, layers: seq<Layer>, data: seq<Byte>)
    requires forall m :: m in Flatten(layers) ==> Ordinary(m)
    requires Targets(Flatten(layers)) == [data]
    ensures Holds(Effective(t, layers), data)
    decreases |layers|
  {
    var here, later := layers[0], Flatten(layers[1..]);
    TargetsConcat(here, later);
    if Targets(here) == [] {
      LayersPlace(ApplyLayer(t, here), layers[1..], data);
    } else {
      assert Targets(here) == [data] && Targets(later) == [];
      AdditionsPlace(Whiteouts(t, here), here, data);
      LayersKeep(ApplyLayer(t, here), layers[1..], data);
    }
  }

  /** The main result: bytes the one-pass check returns are the bytes of the regular file the
      whole stack of layers leaves at the target, in whatever base tree it is applied to. */
  lemma AcceptedBytesAreEffective(t: Tree, layers: seq<Layer>, data: seq<Byte>)
    requires Accepts(layers, data)
    requires forall m :: m in Flatten(layers) ==> Clean(m.name) == TARGET || Preserves(Resolve(m.name), m.kind)
    ensures Holds(Effective(t, layers), data)
  {
    assert forall m :: m in Flatten(layers) ==> Ordinary(m);
    LayersPlace(t, layers, data);
  }

  /** The same for every archive whose names are canonical, which is what the check assumes. */
  lemma CanonicalArchiveIsEffective(t: Tree, layers: seq<Layer>, data: seq<Byte>)
    requires Accepts(layers, data)
    requires forall m :: m in Flatten(layers) ==> Canonical(m)
    ensures Holds(Effective(t, layers), data)
  {
    forall m | m in Flatten(layers)
      ensures Clean(m.name) == TARGET || Preserves(Resolve(m.name), m.kind)
    {
      CanonicalIsOrdinary(m);
    }
    AcceptedBytesAreEffective(t, layers, data);
  }

  // ---------------------------------------------------------------- where the check is exact

  /** A tree that holds nothing but the target. */
  function Minimal(data: seq<Byte>): Tree {
    map q | q in Lineage(TARGET_PATH) :: if q == TARGET_PATH then FileNode(data) else DirNode
  }

  lemma MinimalHolds(data: seq<Byte>)
    ensures Holds(Minimal(data), data)
  {
    forall i | 1 <= i < 4
      ensures TARGET_PATH[..i] in Lineage(TARGET_PATH) && TARGET_PATH[..i] < TARGET_PATH
    {
      AncestorIsTargetPrefix(i);
    }
    assert TARGET_PATH[..4] == TARGET_PATH;
  }

  lemma OneMemberLayer(t: Tree, m: Member)
    ensures ApplyLayer(t, [m]) == ApplyAddition(ApplyWhiteout(t, m), m)
  {
    assert Whiteouts(t, [m]) == Whiteouts(ApplyWhiteout(t, m), []);
    var t' := ApplyWhiteout(t, m);
    assert Additions(t', [m]) == Additions(ApplyAddition(t', m), []);
  }

  /** Other bytes than those an addition brings. */
  function Different(m: Member): (data: seq<Byte>)
    ensures data != m.content
  {
    m.content + [0]
  }

  lemma PutSpoils(t: Tree, m: Member, data: seq<Byte>)
    requires data != m.content
    requires var p := Resolve(m.name); p != [] && !IsWhiteout(p) && !Preserves(p, m.kind)
    ensures !Holds(ApplyAddition(t, m), data)
  {
    var p := Resolve(m.name);
    var t' := ApplyAddition(t, m);
    assert t' == Put(t, p, NodeOf(m));
    if TARGET_PATH <= p {
      assert p[..4] == TARGET_PATH;
      assert TARGET_PATH in Lineage(p);
    } else {
      assert p == TARGET_PATH[..|p|];
      assert p[..|p|] == p && p in Lineage(p);
    }
  }

  lemma WhiteoutSpoils(t: Tree, m: Member, data: seq<Byte>)
    requires HidesTarget(Resolve(m.name))
    ensures !Holds(ApplyWhiteout(t, m), data)
  {
  }

  /** `Preserves` is exact: a member, however it is spelled, leaves the target file in place in
      every tree that holds it if and only if its resolved path and kind satisfy it. */
  lemma PreservesIsExact(m: Member)
    ensures (forall t, data :: Holds(t, data) ==> Holds(ApplyLayer(t, [m]), data))
            <==> Preserves(Resolve(m.name), m.kind)
  {
    var path := Resolve(m.name);
    if Preserves(path, m.kind) {
      forall t, data | Holds(t, data) ensures Holds(ApplyLayer(t, [m]), data) {
        OneMemberLayer(t, m);
        WhiteoutKeeps(t, m, data);
        AdditionKeeps(ApplyWhiteout(t, m), m, data);
      }
    } else {
      var data := Different(m);
      var t := Minimal(data);
      MinimalHolds(data);
      OneMemberLayer(t, m);
      if IsWhiteout(path) {
        WhiteoutSpoils(t, m, data);
      } else {
        PutSpoils(ApplyWhiteout(t, m), m, data);
      }
      assert !Holds(ApplyLayer(t, [m]), data);
    }
  }

  function GosuMember(data: seq<Byte>): Member {
    Member(TARGET, Regular, data)
  }

  const USR_EMPTY := USR + "/" + ""
  const DOUBLED := USR_EMPTY + "/" + "local" + "/" + "bin" + "/" + "gosu"

  lemma SpoilsEveryTree(t: Tree, m: Member, data: seq<Byte>)
    requires !Preserves(Resolve(m.name), m.kind) && data != m.content
    ensures !Holds(ApplyLayer(t, [m]), data)
  {
    OneMemberLayer(t, m);
    if IsWhiteout(Resolve(m.name)) {
      WhiteoutSpoils(t, m, data);
    } else {
      PutSpoils(ApplyWhiteout(t, m), m, data);
    }
  }

  lemma NothingToStrip(name: string)
    requires name != "" && name[0] == 'u' && name[|name| - 1] == 'u'
    ensures StripDotSlash(name) == name && Clean(name) == name && !StartsWith(name, "/")
  {
    assert StripDotSlash(name) == name;
  }

  lemma GosuIsNoWhiteout(leaf: string)
    requires leaf == "gosu"
    ensures !StartsWith(leaf, WHITEOUT)
  {
    assert leaf[0] == 'g' && WHITEOUT[0] == '.';
  }

  lemma OffTheLine(m: Member, parts: seq<string>)
    requires Clean(m.name) == m.name && Split(m.name, '/') == parts && !StartsWith(LeafOf(m.name), WHITEOUT)
    requires !(parts < TARGET_PATH) && !(TARGET_PATH < parts)
    ensures Harmless(m) && (m.name == TARGET <==> parts == TARGET_PATH)
  {
    SpellingIsPath(m.name);
  }

  /** A relative name that ends in gosu, is not on the target's own line and has no `..` passes. */
  lemma PassesCheck(m: Member, parts: seq<string>)
    requires m.name != "" && m.name[0] == 'u' && m.name[|m.name| - 1] == 'u'
    requires Split(m.name, '/') == parts && parts[|parts| - 1] == "gosu" && ".." !in parts
    requires !(parts < TARGET_PATH) && !(TARGET_PATH < parts)
    requires parts == TARGET_PATH ==> m.kind.Regular? && |m.content| == GOSU_SIZE
    ensures Clean(m.name) == m.name && Allowed(m)
  {
    NothingToStrip(m.name);
    GosuIsNoWhiteout(LeafOf(m.name));
    OffTheLine(m, parts);
  }

  lemma GosuMemberIsAllowed(data: seq<Byte>)
    requires |data| == GOSU_SIZE
    ensures Clean(TARGET) == TARGET
    ensures Allowed(GosuMember(data))
  {
    SplitsOfConstants();
    assert TARGET[0] == 'u' && TARGET[|TARGET| - 1] == 'u';
    assert "usr"[0] == 'u' && "local"[0] == 'l' && "bin"[0] == 'b' && "gosu"[0] == 'g';
    assert ".." !in TARGET_PATH;
    PassesCheck(GosuMember(data), TARGET_PATH);
  }

  lemma TwoLayerArchive(t: Tree, first: Member, second: Member)
    ensures Flatten([[first], [second]]) == [first, second]
    ensures Effective(t, [[first], [second]]) == ApplyLayer(ApplyLayer(t, [first]), [second])
  {
    var layers := [[first], [second]];
    assert layers[1..] == [[second]] && [[second]][1..] == [];
    assert Flatten([[second]]) == [second] + Flatten([]);
    assert Flatten(layers) == [first] + Flatten([[second]]);
    var t1 := ApplyLayer(t, layers[0]);
    assert Effective(t1, [[second]]) == Effective(ApplyLayer(t1, [[second]][0]), [[second]][1..]);
    assert Effective(t, layers) == Effective(t1, layers[1..]);
  }

  /** The check misreads some spellings that are not canonical: whatever accepted member is not
      spelled as the target and does not preserve it, there is an archive the check accepts whose
      target does not end up with the bytes it returned. */
  lemma MisreadMemberRefutes(t: Tree, m: Member, data: seq<Byte>)
    requires Allowed(m) && Clean(m.name) != TARGET && !Preserves(Resolve(m.name), m.kind)
    requires |data| == GOSU_SIZE && data[..4] == ELF_MAGIC && data != m.content
    ensures Accepts([[GosuMember(data)], [m]], data)
    ensures !Holds(Effective(t, [[GosuMember(data)], [m]]), data)
  {
    var gosu := GosuMember(data);
    GosuMemberIsAllowed(data);
    TwoLayerArchive(t, gosu, m);
    assert [gosu, m] == [gosu] + [m];
    assert [gosu][1..] == [] && [m][1..] == [];
    assert Targets([gosu]) == [data] + Targets([]);
    assert Targets([m]) == [] + Targets([]);
    TargetsConcat([gosu], [m]);
    SpoilsEveryTree(ApplyLayer(t, [gosu]), m, data);
  }

  lemma SplitDoubled()
    ensures Split(DOUBLED, '/') == ["usr", "", "local", "bin", "gosu"]
  {
    SplitSingle("usr", '/');
    SplitExtended(USR, ["usr"], "");
    SplitExtended(USR_EMPTY, ["usr", ""], "local");
    SplitExtended(USR_EMPTY + ['/'] + "local", ["usr", "", "local"], "bin");
    SplitExtended(USR_EMPTY + ['/'] + "local" + ['/'] + "bin", ["usr", "", "local", "bin"], "gosu");
  }

  /** One such spelling: a doubled slash inside the target's path. */
  lemma DoubledSlashIsMisread(content: seq<Byte>)
    ensures var m := Member(DOUBLED, Regular, content);
            Allowed(m) && Clean(m.name) != TARGET && !Preserves(Resolve(m.name), m.kind)
  {
    SplitDoubled();
    var parts := ["usr", "", "local", "bin", "gosu"];
    assert DOUBLED[0] == 'u' && DOUBLED[|DOUBLED| - 1] == 'u';
    assert parts[1] != TARGET_PATH[1];
    assert "usr"[0] == 'u' && "local"[0] == 'l' && "bin"[0] == 'b' && "gosu"[0] == 'g';
    PassesCheck(Member(DOUBLED, Regular, content), parts);
    SpellingIsPath(DOUBLED);
    WalkDoubled();
    assert !IsWhiteout(TARGET_PATH) by { assert TARGET_PATH[3][0] == 'g' && WHITEOUT[0] == '.'; }
  }

  lemma WalkDoubled()
    ensures Walk([], ["usr", "", "local", "bin", "gosu"]) == TARGET_PATH
  {
    var rest := ["local", "bin", "gosu"];
    forall part | part in rest ensures Plain(part) {
      assert part[0] != '.';
    }
    WalkPlain(["usr"], rest);
    assert ["usr", "", "local", "bin", "gosu"][1..] == [""] + rest;
    assert ([""] + rest)[1..] == rest;
    assert Enter([], "usr") == ["usr"];
  }

  // ---------------------------------------------------------------- where an archive is right

  /** Whatever stands at the target stands under directories, as in every real file system. */
  predicate Tidy(t: Tree) {
    TARGET_PATH in t ==> forall i :: 1 <= i < 4 ==> TARGET_PATH[..i] in t && t[TARGET_PATH[..i]].DirNode?
  }

  /** The bytes of the regular file at the target, if there is one. */
  function Held(t: Tree): Option<seq<Byte>> {
    if TARGET_PATH in t && t[TARGET_PATH].FileNode? then Some(t[TARGET_PATH].content) else None
  }

  /** What one whiteout does to the file at the target, from its resolved path alone. */
  function AfterWhiteout(held: Option<seq<Byte>>, path: Path): Option<seq<Byte>> {
    if HidesTarget(path) then None else held
  }

  /** What one addition does to it: only the target's own line matters. */
  function AfterAddition(held: Option<seq<Byte>>, path: Path, m: Member): Option<seq<Byte>> {
    if path == [] || IsWhiteout(path) then held
    else if path == TARGET_PATH then (if m.kind.Regular? then Some(m.content) else None)
    else if TARGET_PATH < path || (path < TARGET_PATH && !m.kind.Directory?) then None
    else held
  }

  function WhiteoutsFate(held: Option<seq<Byte>>, members: seq<Member>): Option<seq<Byte>>
    decreases |members|
  {
    if members == [] then held else WhiteoutsFate(AfterWhiteout(held, Resolve(members[0].name)), members[1..])
  }

  function AdditionsFate(held: Option<seq<Byte>>, members: seq<Member>): Option<seq<Byte>>
    decreases |members|
  {
    if members == [] then held
    else AdditionsFate(AfterAddition(held, Resolve(members[0].name), members[0]), members[1..])
  }

  /** What becomes of the file at the target, member by member, without a tree. */
  function Fate(held: Option<seq<Byte>>, layers: seq<Layer>): Option<seq<Byte>>
    decreases |layers|
  {
    if layers == [] then held else Fate(AdditionsFate(WhiteoutsFate(held, layers[0]), layers[0]), layers[1..])
  }

  lemma ClearFate(t: Tree, parent: Path)
    requires Tidy(t) && !(parent < TARGET_PATH)
    ensures Tidy(Clear(t, parent)) && Held(Clear(t, parent)) == Held(t)
  {
    forall i | 1 <= i < 4 ensures !(parent < TARGET_PATH[..i]) {
      AncestorIsTargetPrefix(i);
    }
  }

  lemma RemoveFate(t: Tree, p: Path)
    requires Tidy(t) && !(p <= TARGET_PATH)
    ensures Tidy(Remove(t, p)) && Held(Remove(t, p)) == Held(t)
  {
    forall i | 1 <= i < 4 ensures !(p <= TARGET_PATH[..i]) {
      AncestorIsTargetPrefix(i);
    }
  }

  lemma WhiteoutFate(t: Tree, m: Member)
    requires Tidy(t)
    ensures var t' := ApplyWhiteout(t, m); Tidy(t') && Held(t') == AfterWhiteout(Held(t), Resolve(m.name))
  {
    var path := Resolve(m.name);
    if IsWhiteout(path) && !HidesTarget(path) {
      var parent, leaf := path[..|path| - 1], path[|path| - 1];
      if leaf == OPAQUE { ClearFate(t, parent); } else { RemoveFate(t, Enter(parent, leaf[4..])); }
    }
  }

  lemma PutOnTarget(t: Tree, node: Node)
    ensures var t' := Put(t, TARGET_PATH, node);
            Tidy(t') && TARGET_PATH in t' && t'[TARGET_PATH] == node
  {
    forall i | 1 <= i < 4 ensures TARGET_PATH[..i] in Lineage(TARGET_PATH) && TARGET_PATH[..i] < TARGET_PATH {
      AncestorIsTargetPrefix(i);
    }
    assert TARGET_PATH[..4] == TARGET_PATH;
  }

  lemma PutBelowTarget(t: Tree, p: Path, node: Node)
    requires TARGET_PATH < p
    ensures var t' := Put(t, p, node); Tidy(t') && Held(t') == None
  {
    forall i | 1 <= i <= 4 ensures TARGET_PATH[..i] in Lineage(p) && TARGET_PATH[..i] < p {
      assert TARGET_PATH[..i] == p[..i];
    }
    assert TARGET_PATH[..4] == TARGET_PATH;
  }

  lemma PutAboveTarget(t: Tree, p: Path, node: Node)
    requires Tidy(t) && p != [] && p < TARGET_PATH
    ensures var t' := Put(t, p, node); Tidy(t') && Held(t') == if node.DirNode? then Held(t) else None
  {
    assert p == TARGET_PATH[..|p|];
    assert TARGET_PATH !in Lineage(p);
  }

  lemma PutElsewhere(t: Tree, p: Path, node: Node)
    requires Tidy(t) && p != [] && !(p <= TARGET_PATH) && !(TARGET_PATH < p)
    ensures var t' := Put(t, p, node); Tidy(t') && Held(t') == Held(t)
  {
    assert TARGET_PATH !in Lineage(p);
    forall i | 1 <= i < 4 ensures TARGET_PATH[..i] != p && !(p < TARGET_PATH[..i]) {
      AncestorIsTargetPrefix(i);
    }
  }

  lemma AdditionFate(t: Tree, m: Member)
    requires Tidy(t)
    ensures var t' := ApplyAddition(t, m); Tidy(t') && Held(t') == AfterAddition(Held(t), Resolve(m.name), m)
  {
    var path := Resolve(m.name);
    if path != [] && !IsWhiteout(path) {
      if path == TARGET_PATH {
        PutOnTarget(t, NodeOf(m));
      } else if TARGET_PATH < path {
        PutBelowTarget(t, path, NodeOf(m));
      } else if path < TARGET_PATH {
        PutAboveTarget(t, path, NodeOf(m));
      } else {
        PutElsewhere(t, path, NodeOf(m));
      }
    }
  }

  lemma {:induction false} WhiteoutsFateIs(t: Tree, members: seq<Member>)
    requires Tidy(t)
    ensures var t' := Whiteouts(t, members); Tidy(t') && Held(t') == WhiteoutsFate(Held(t), members)
    decreases |members|
  {
    if members != [] {
      WhiteoutFate(t, members[0]);
      WhiteoutsFateIs(ApplyWhiteout(t, members[0]), members[1..]);
    }
  }

  lemma {:induction false} AdditionsFateIs(t: Tree, members: seq<Member>)
    requires Tidy(t)
    ensures var t' := Additions(t, members); Tidy(t') && Held(t') == AdditionsFate(Held(t), members)
    decreases |members|
  {
    if members != [] {
      AdditionFate(t, members[0]);
      AdditionsFateIs(ApplyAddition(t, members[0]), members[1..]);
    }
  }

  /** One cell carried over the members says what the whole tree holds at the target. */
  lemma {:induction false} FateIsEffective(t: Tree, layers: seq<Layer>)
    requires Tidy(t)
    ensures Tidy(Effective(t, layers)) && Held(Effective(t, layers)) == Fate(Held(t), layers)
    decreases |layers|
  {
    if layers != [] {
      WhiteoutsFateIs(t, layers[0]);
      AdditionsFateIs(Whiteouts(t, layers[0]), layers[0]);
      FateIsEffective(ApplyLayer(t, layers[0]), layers[1..]);
    }
  }

  /** Once the target itself is added, what was there before no longer matters. */
  lemma {:induction false} AdditionsForget(a: Option<seq<Byte>>, b: Option<seq<Byte>>, members: seq<Member>)
    requires Targets(members) != []
    ensures AdditionsFate(a, members) == AdditionsFate(b, members)
    decreases |members|
  {
    var m := members[0];
    if Clean(m.name) == TARGET {
      TargetMember(m);
    } else {
      AdditionsForget(AfterAddition(a, Resolve(m.name), m), AfterAddition(b, Resolve(m.name), m), members[1..]);
    }
  }

  lemma {:induction false} FateForgets(a: Option<seq<Byte>>, b: Option<seq<Byte>>, layers: seq<Layer>)
    requires Targets(Flatten(layers)) != []
    ensures Fate(a, layers) == Fate(b, layers)
    decreases |layers|
  {
    TargetsConcat(layers[0], Flatten(layers[1..]));
    var a', b' := WhiteoutsFate(a, layers[0]), WhiteoutsFate(b, layers[0]);
    if Targets(layers[0]) != [] {
      AdditionsForget(a', b', layers[0]);
    } else {
      FateForgets(AdditionsFate(a', layers[0]), AdditionsFate(b', layers[0]), layers[1..]);
    }
  }

  /** The bytes the check returns are right if and only if the cell, empty at first, ends with them: for
      every archive it accepts, whatever its names look like, and from the archive alone. */
  lemma AcceptedExactlyRight(t: Tree, layers: seq<Layer>, data: seq<Byte>)
    requires Tidy(t) && Accepts(layers, data)
    ensures Holds(Effective(t, layers), data) <==> Fate(None, layers) == Some(data)
  {
    FateIsEffective(t, layers);
    FateForgets(Held(t), None, layers);
  }

  lemma TwoLayerFate(held: Option<seq<Byte>>, first: Member, second: Member)
    requires !IsWhiteout(Resolve(first.name)) && !IsWhiteout(Resolve(second.name))
    ensures Fate(held, [[first], [second]])
            == AfterAddition(AfterAddition(held, Resolve(first.name), first), Resolve(second.name), second)
  {
    var layers := [[first], [second]];
    assert layers[1..] == [[second]] && [[second]][1..] == [] && [first][1..] == [] && [second][1..] == [];
    assert WhiteoutsFate(held, [first]) == WhiteoutsFate(AfterWhiteout(held, Resolve(first.name)), []) == held;
    var middle := AfterAddition(held, Resolve(first.name), first);
    assert AdditionsFate(held, [first]) == AdditionsFate(middle, []) == middle;
    assert WhiteoutsFate(middle, [second]) == WhiteoutsFate(AfterWhiteout(middle, Resolve(second.name)), []) == middle;
    var last := AfterAddition(middle, Resolve(second.name), second);
    assert AdditionsFate(middle, [second]) == AdditionsFate(last, []) == last;
    assert Fate(middle, [[second]]) == Fate(last, []);
  }

  lemma TwoTargetsOf(first: Member, second: Member)
    ensures Targets([first, second]) == Targets([first]) + Targets([second])
    ensures Targets([first]) == if Clean(first.name) == TARGET then [first.content] else []
  {
    assert [first, second] == [first] + [second] && [first][1..] == [];
    TargetsConcat([first], [second]);
  }

  /** A misread member does no harm when the target itself comes after it: no condition on single
      members is exact for archives. */
  lemma LaterTargetIsRight(t: Tree, m: Member, data: seq<Byte>)
    requires Tidy(t) && !IsWhiteout(Resolve(m.name)) && Allowed(m) && Clean(m.name) != TARGET
    requires |data| == GOSU_SIZE && data[..4] == ELF_MAGIC
    ensures var layers := [[m], [GosuMember(data)]]; Accepts(layers, data) && Holds(Effective(t, layers), data)
  {
    var gosu := GosuMember(data);
    GosuMemberIsAllowed(data);
    TargetMember(gosu);
    TwoLayerArchive(t, m, gosu);
    TwoTargetsOf(m, gosu);
    TwoTargetsOf(gosu, gosu);
    TwoLayerFate(Held(t), m, gosu);
    FateIsEffective(t, [[m], [gosu]]);
  }
}

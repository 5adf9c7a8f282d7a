/** Selecting one image in an OCI archive by content, copying it to a fresh layout, and checking a
    layout against the archive (OCI image layout). JSON reading is a parameter. */
module OciLayouts {
  import opened Bytes
  import JsonValues

  const MAX_METADATA := 16 * 1024 * 1024
  const DEFAULT_MEDIA := JsonValues.Text(JsonValues.Characters("application/vnd.oci.image.manifest.v1+json"))

  /** The text of a descriptor's digest: well-formed, and then it names its content, or not. */
  datatype DigestText = WellFormed(digest: Digest) | Malformed(text: string)

  datatype Descriptor = Descriptor(mediaType: string, digest: DigestText, size: int)

  /** The fields the check reads from any JSON document it meets; a document's own media type may be
      any JSON value. */
  datatype Doc = Doc(manifests: seq<Descriptor>, mediaType: Option<JsonValues.Value>, config: Option<Descriptor>,
                     layers: seq<Descriptor>, os: string, architecture: string, diffIds: seq<string>)

  type Json = seq<Byte> -> Option<Doc>

  datatype MemberName = IndexJson | Blob(digest: Digest) | OtherName(name: string)

  datatype Member = Member(name: MemberName, isFile: bool, bytes: seq<Byte>)

  type Archive = seq<Member>

  // ---------------------------------------------------------------- reading by content

  predicate Unique(tar: Archive) {
    forall i, j :: 0 <= i < j < |tar| ==> tar[i].name != tar[j].name
  }

  /** No member of that name after position `i`. */
  predicate LastAt(tar: Archive, name: MemberName, i: int) {
    0 <= i < |tar| && tar[i].name == name && forall j :: i < j < |tar| ==> tar[j].name != name
  }

  /** `getmember`: the last member of that name. */
  function Lookup(tar: Archive, name: MemberName): (m: Option<Member>)
    ensures m.Some? ==> m.value.name == name
  {
    if tar == [] then None
    else
      var last := |tar| - 1;
      if tar[last].name == name then Some(tar[last]) else Lookup(tar[..last], name)
  }

  lemma OtherLast(tar: Archive, name: MemberName)
    requires tar != [] && tar[|tar| - 1].name != name
    ensures forall i :: 0 <= i < |tar| - 1 ==> tar[..|tar| - 1][i] == tar[i]
    ensures forall i :: LastAt(tar[..|tar| - 1], name, i) ==> LastAt(tar, name, i)
  {
    forall i | LastAt(tar[..|tar| - 1], name, i) ensures LastAt(tar, name, i) {
      forall j | i < j < |tar| ensures tar[j].name != name {
        if j < |tar| - 1 { assert tar[..|tar| - 1][j] == tar[j]; }
      }
    }
  }

  lemma {:induction false} LookupIsLast(tar: Archive, name: MemberName)
    ensures Lookup(tar, name).None? <==> forall i :: 0 <= i < |tar| ==> tar[i].name != name
    ensures Lookup(tar, name).Some? ==> exists i :: LastAt(tar, name, i) && tar[i] == Lookup(tar, name).value
  {
    if tar != [] {
      var last := |tar| - 1;
      if tar[last].name == name {
        assert LastAt(tar, name, last);
      } else {
        LookupIsLast(tar[..last], name);
        OtherLast(tar, name);
      }
    }
  }

  function Read(tar: Archive, name: MemberName): Option<seq<Byte>> {
    var m := Lookup(tar, name);
    if m.None? || !m.value.isFile || |m.value.bytes| > MAX_METADATA then None else Some(m.value.bytes)
  }

  /** Metadata is read of the last regular member of that name, up to the limit. */
  lemma ReadExactly(tar: Archive, name: MemberName, bytes: seq<Byte>)
    ensures Read(tar, name) == Some(bytes) <==>
            |bytes| <= 16_777_216 && exists i :: LastAt(tar, name, i) && tar[i] == Member(name, true, bytes)
  {
    LookupIsLast(tar, name);
    var m := Lookup(tar, name);
    if m.Some? { assert m.value == Member(m.value.name, m.value.isFile, m.value.bytes); }
    forall i | LastAt(tar, name, i) ensures m == Some(tar[i]) {
      var j :| LastAt(tar, name, j) && tar[j] == m.value;
      assert i == j;
    }
  }

  /** A metadata blob, checked against its descriptor before it is read as JSON. */
  function Fetch(json: Json, tar: Archive, d: Descriptor): Option<Doc> {
    if d.digest.Malformed? then None
    else
      var bytes := Read(tar, Blob(d.digest.digest));
      if bytes.None? || |bytes.value| != d.size || Sha256(bytes.value) != d.digest.digest then None
      else json(bytes.value)
  }

  predicate Contains(text: string, part: string) {
    part <= text || (text != "" && Contains(text[1..], part))
  }

  datatype Candidate = Candidate(descriptor: Descriptor, manifest: Doc, config: Doc)

  predicate IsIndex(mediaType: string) {
    Contains(mediaType, "image.index") || Contains(mediaType, "manifest.list")
  }

  predicate IsManifest(mediaType: string) {
    !IsIndex(mediaType) && Contains(mediaType, "manifest")
  }

  lemma {:induction false} ContainsMeans(text: string, part: string)
    ensures Contains(text, part) <==> exists a, b :: text == a + part + b
  {
    if part <= text {
      assert text == "" + part + text[|part|..];
    } else if text != "" {
      ContainsMeans(text[1..], part);
      if Contains(text[1..], part) {
        var a, b :| text[1..] == a + part + b;
        assert text == ([text[0]] + a) + part + b;
      }
      forall a, b | text == a + part + b ensures Contains(text[1..], part) { NotInFront(text, a, part, b); }
    }
  }

  lemma NotInFront(text: string, a: string, part: string, b: string)
    requires text == a + part + b && !(part <= text)
    ensures a != "" && text[1..] == a[1..] + part + b
  {
    assert a == "" ==> text == part + b;
  }

  /** An index names itself one or a manifest list somewhere in its media type; any other media type with
      `manifest` in it is a manifest's. */
  lemma MediaKinds(media: string)
    ensures IsIndex(media) <==>
            (exists a, b :: media == a + "image.index" + b) || (exists a, b :: media == a + "manifest.list" + b)
    ensures IsManifest(media) <==> !IsIndex(media) && exists a, b :: media == a + "manifest" + b
  {
    ContainsMeans(media, "image.index");
    ContainsMeans(media, "manifest.list");
    ContainsMeans(media, "manifest");
  }

  /** What a list of descriptors contributes, nested indexes included, or a failure. */
  function Candidates(json: Json, tar: Archive, list: seq<Descriptor>, depth: nat): Result<seq<Candidate>>
    requires depth < 5
    decreases 5 - depth, 1, |list|
  {
    if list == [] then Ok([])
    else
      var first := FromDescriptor(json, tar, list[0], depth);
      var rest := Candidates(json, tar, list[1..], depth);
      if first.Err? || rest.Err? then Err else Ok(first.value + rest.value)
  }

  function FromDescriptor(json: Json, tar: Archive, d: Descriptor, depth: nat): Result<seq<Candidate>>
    requires depth < 5
    decreases 5 - depth, 0, 0
  {
    if IsIndex(d.mediaType) then
      var inner := Fetch(json, tar, d);
      if inner.None? || depth + 1 >= 5 then Err else Candidates(json, tar, inner.value.manifests, depth + 1)
    else if IsManifest(d.mediaType) then FromManifest(json, tar, d)
    else Ok([])
  }

  function FromManifest(json: Json, tar: Archive, d: Descriptor): Result<seq<Candidate>> {
    var manifest := Fetch(json, tar, d);
    if manifest.None? || manifest.value.config.None? then Err
    else
      var config := Fetch(json, tar, manifest.value.config.value);
      if config.None? then Err
      else if config.value.os == "linux" && config.value.architecture == "amd64"
      then Ok([Candidate(d, manifest.value, config.value)])
      else Ok([])
  }

  /** One descriptor of the walk. */
  method VisitDescriptor(json: Json, tar: Archive, d: Descriptor, depth: nat, found: seq<Candidate>)
    returns (r: Result<seq<Candidate>>)
    requires depth < 5
    ensures r == Prepend(found, FromDescriptor(json, tar, d, depth))
    decreases 5 - depth, 0
  {
    if IsIndex(d.mediaType) {
      var inner := Fetch(json, tar, d);
      if inner.None? || depth + 1 >= 5 { return Err; }
      r := Visit(json, tar, inner.value.manifests, depth + 1, found);
    } else if IsManifest(d.mediaType) {
      var one := FromManifest(json, tar, d);
      r := if one.Err? then Err else Ok(found + one.value);
    } else {
      r := Ok(found);
      assert found + [] == found;
    }
  }

  /** The recursive walk, appending to what was found before. */
  method Visit(json: Json, tar: Archive, list: seq<Descriptor>, depth: nat, found: seq<Candidate>)
    returns (r: Result<seq<Candidate>>)
    requires depth < 5
    ensures r == Prepend(found, Candidates(json, tar, list, depth))
    decreases 5 - depth, 1
  {
    var all := found;
    assert list[0..] == list;
    for i := 0 to |list|
      invariant Prepend(found, Candidates(json, tar, list, depth))
                == Prepend(all, Candidates(json, tar, list[i..], depth))
    {
      CandidatesStep(json, tar, list, i, depth, all);
      var next := VisitDescriptor(json, tar, list[i], depth, all);
      if next.Err? { return Err; }
      all := next.value;
    }
    assert all + [] == all;
    return Ok(all);
  }

  lemma CandidatesStep(json: Json, tar: Archive, list: seq<Descriptor>, i: nat, depth: nat, all: seq<Candidate>)
    requires depth < 5 && i < |list|
    ensures var one := Prepend(all, FromDescriptor(json, tar, list[i], depth));
            Prepend(all, Candidates(json, tar, list[i..], depth)) ==
            if one.Err? then Err else Prepend(one.value, Candidates(json, tar, list[i + 1..], depth))
  {
    assert list[i..][1..] == list[i + 1..];
    var first, rest := FromDescriptor(json, tar, list[i], depth), Candidates(json, tar, list[i + 1..], depth);
    if first.Ok? { PrependTwice(all, first.value, rest); }
  }

  lemma PrependNothing(b: Result<seq<Candidate>>)
    ensures Prepend([], b) == b
  {
    if b.Ok? { assert [] + b.value == b.value; }
  }

  lemma PrependTwice(a: seq<Candidate>, b: seq<Candidate>, c: Result<seq<Candidate>>)
    ensures Prepend(a, Prepend(b, c)) == Prepend(a + b, c)
  {
    if c.Ok? { assert a + (b + c.value) == a + b + c.value; }
  }

  function Prepend(a: seq<Candidate>, b: Result<seq<Candidate>>): Result<seq<Candidate>> {
    if b.Err? then Err else Ok(a + b.value)
  }

  // ---------------------------------------------------------------- identity

  datatype Image = Image(platform: Descriptor, manifest: Doc, config: Doc)

  predicate LayerPresent(tar: Archive, l: Descriptor) {
    l.digest.WellFormed? &&
    var m := Lookup(tar, Blob(l.digest.digest));
    m.Some? && m.value.isFile && |m.value.bytes| == l.size && Sha256(m.value.bytes) == l.digest.digest
  }

  /** The archive's one linux/amd64 image, with its layers present and intact. */
  predicate Identifies(json: Json, tar: Archive, image: Image) {
    && Unique(tar)
    && Read(tar, IndexJson).Some? && json(Read(tar, IndexJson).value).Some?
    && Candidates(json, tar, json(Read(tar, IndexJson).value).value.manifests, 0)
       == Ok([Candidate(image.platform, image.manifest, image.config)])
    && image.manifest.layers != []
    && |image.config.diffIds| == |image.manifest.layers|
    && forall l :: l in image.manifest.layers ==> LayerPresent(tar, l)
  }

  method Identity(json: Json, tar: Archive) returns (r: Result<Image>)
    ensures r.Ok? ==> Identifies(json, tar, r.value)
    ensures r.Err? ==> forall image :: !Identifies(json, tar, image)
  {
    if !Unique(tar) { return Err; }
    var index := Read(tar, IndexJson);
    if index.None? || json(index.value).None? { return Err; }
    var candidates := Visit(json, tar, json(index.value).value.manifests, 0, []);
    PrependNothing(Candidates(json, tar, json(index.value).value.manifests, 0));
    if candidates.Err? || |candidates.value| != 1 { return Err; }
    var c := candidates.value[0];
    assert candidates.value == [c];
    if c.manifest.layers == [] || |c.config.diffIds| != |c.manifest.layers| { return Err; }
    var layers := c.manifest.layers;
    for i := 0 to |layers|
      invariant forall k :: 0 <= k < i ==> LayerPresent(tar, layers[k])
    {
      if !LayerPresent(tar, layers[i]) {
        assert layers[i] in layers;
        return Err;
      }
    }
    return Ok(Image(c.descriptor, c.manifest, c.config));
  }

  // ---------------------------------------------------------------- content decides everything

  /** The blob a well-formed descriptor names is in the archive, is a file of its size, and is the
      content its digest names. */
  ghost predicate Holds(tar: Archive, d: Descriptor) {
    d.digest.WellFormed? &&
    var m := Lookup(tar, Blob(d.digest.digest));
    m.Some? && m.value.isFile && m.value.bytes == d.digest.digest.preimage && |m.value.bytes| == d.size
  }

  ghost predicate ByContent(json: Json, tar: Archive, c: Candidate) {
    && Holds(tar, c.descriptor) && json(c.descriptor.digest.digest.preimage) == Some(c.manifest)
    && c.manifest.config.Some? && Holds(tar, c.manifest.config.value)
    && json(c.manifest.config.value.digest.digest.preimage) == Some(c.config)
    && c.config.os == "linux" && c.config.architecture == "amd64"
  }

  lemma FetchedByContent(json: Json, tar: Archive, d: Descriptor)
    requires Fetch(json, tar, d).Some?
    ensures Holds(tar, d) && json(d.digest.digest.preimage) == Fetch(json, tar, d)
  {
  }

  lemma {:induction false} CandidatesByContent(json: Json, tar: Archive, list: seq<Descriptor>, depth: nat)
    requires depth < 5 && Candidates(json, tar, list, depth).Ok?
    ensures forall c :: c in Candidates(json, tar, list, depth).value ==> ByContent(json, tar, c)
    decreases 5 - depth, |list|
  {
    if list != [] {
      CandidatesByContent(json, tar, list[1..], depth);
      var d := list[0];
      if IsIndex(d.mediaType) {
        CandidatesByContent(json, tar, Fetch(json, tar, d).value.manifests, depth + 1);
      } else if IsManifest(d.mediaType) {
        FetchedByContent(json, tar, d);
        FetchedByContent(json, tar, Fetch(json, tar, d).value.config.value);
      }
    }
  }

  /** The document a descriptor stands for: its blob is there, intact and not too large to be read. */
  ghost predicate Stands(json: Json, tar: Archive, d: Descriptor, doc: Doc) {
    Holds(tar, d) && d.size <= MAX_METADATA && json(d.digest.digest.preimage) == Some(doc)
  }

  lemma FetchExactly(json: Json, tar: Archive, d: Descriptor)
    ensures forall doc :: Fetch(json, tar, d) == Some(doc) <==> Stands(json, tar, d, doc)
  {
  }

  /** Every index and manifest on the way stands for a document, and indexes nest less than five deep. */
  ghost predicate Walkable(json: Json, tar: Archive, list: seq<Descriptor>, depth: nat)
    requires depth < 5
    decreases 5 - depth
  {
    forall d :: d in list ==>
      if IsIndex(d.mediaType) then
        exists doc :: Stands(json, tar, d, doc) && depth < 4 && Walkable(json, tar, doc.manifests, depth + 1)
      else IsManifest(d.mediaType) ==>
        exists doc, config ::
          Stands(json, tar, d, doc) && doc.config.Some? && Stands(json, tar, doc.config.value, config)
  }

  /** A linux/amd64 manifest in the list, or in an index of it. */
  ghost predicate Reached(json: Json, tar: Archive, list: seq<Descriptor>, depth: nat, c: Candidate)
    requires depth < 5
    decreases 5 - depth
  {
    exists d :: d in list &&
      if IsIndex(d.mediaType) then
        exists doc :: Stands(json, tar, d, doc) && depth < 4 && Reached(json, tar, doc.manifests, depth + 1, c)
      else
        && IsManifest(d.mediaType) && c.descriptor == d && Stands(json, tar, d, c.manifest)
        && c.manifest.config.Some? && Stands(json, tar, c.manifest.config.value, c.config)
        && c.config.os == "linux" && c.config.architecture == "amd64"
  }

  /** The walk fails exactly when it meets something it cannot read, and finds exactly what is reached. */
  lemma {:induction false} CandidatesExactly(json: Json, tar: Archive, list: seq<Descriptor>, depth: nat)
    requires depth < 5
    ensures Candidates(json, tar, list, depth).Ok? <==> Walkable(json, tar, list, depth)
    ensures Candidates(json, tar, list, depth).Ok? ==>
      forall c :: c in Candidates(json, tar, list, depth).value <==> Reached(json, tar, list, depth, c)
    decreases 5 - depth, 1, |list|
  {
    if list != [] {
      var d, rest := list[0], list[1..];
      assert list == [d] + rest;
      OneExactly(json, tar, d, depth);
      CandidatesExactly(json, tar, rest, depth);
      ListSplits(json, tar, d, rest, depth);
    }
  }

  lemma ListSplits(json: Json, tar: Archive, d: Descriptor, rest: seq<Descriptor>, depth: nat)
    requires depth < 5
    ensures Walkable(json, tar, [d] + rest, depth) <==>
            Walkable(json, tar, [d], depth) && Walkable(json, tar, rest, depth)
    ensures forall c :: Reached(json, tar, [d] + rest, depth, c) <==>
                        Reached(json, tar, [d], depth, c) || Reached(json, tar, rest, depth, c)
  {
    assert forall x :: x in [d] + rest <==> x in [d] || x in rest;
  }

  lemma OneExactly(json: Json, tar: Archive, d: Descriptor, depth: nat)
    requires depth < 5
    ensures FromDescriptor(json, tar, d, depth).Ok? <==> Walkable(json, tar, [d], depth)
    ensures FromDescriptor(json, tar, d, depth).Ok? ==>
      forall c :: c in FromDescriptor(json, tar, d, depth).value <==> Reached(json, tar, [d], depth, c)
    decreases 5 - depth, 0, 0
  {
    FetchExactly(json, tar, d);
    var doc := Fetch(json, tar, d);
    assert d in [d];
    if IsIndex(d.mediaType) {
      if doc.Some? && depth < 4 { CandidatesExactly(json, tar, doc.value.manifests, depth + 1); }
    } else if IsManifest(d.mediaType) && doc.Some? && doc.value.config.Some? {
      FetchExactly(json, tar, doc.value.config.value);
    }
  }

  /** What an identified image is, in an archive without two members of one name: the only linux/amd64
      manifest the index reaches, as many layers as its configuration has layer digests, and all there. */
  lemma IdentifiedExactly(json: Json, tar: Archive, image: Image)
    ensures Identifies(json, tar, image) <==>
            && (forall i, j :: 0 <= i < j < |tar| ==> tar[i].name != tar[j].name)
            && Read(tar, IndexJson).Some? && json(Read(tar, IndexJson).value).Some?
            && var list := json(Read(tar, IndexJson).value).value.manifests;
            && Walkable(json, tar, list, 0)
            && Reached(json, tar, list, 0, Candidate(image.platform, image.manifest, image.config))
            && Candidates(json, tar, list, 0).Ok? && |Candidates(json, tar, list, 0).value| == 1
            && 0 < |image.manifest.layers| == |image.config.diffIds|
            && forall l :: l in image.manifest.layers ==> Holds(tar, l)
  {
    if Read(tar, IndexJson).Some? && json(Read(tar, IndexJson).value).Some? {
      var list := json(Read(tar, IndexJson).value).value.manifests;
      CandidatesExactly(json, tar, list, 0);
      var c := Candidate(image.platform, image.manifest, image.config);
      if Walkable(json, tar, list, 0) && |Candidates(json, tar, list, 0).value| == 1 {
        assert Candidates(json, tar, list, 0).value == [Candidates(json, tar, list, 0).value[0]];
      }
      assert c in [c];
    }
  }

  lemma IdentityByContent(json: Json, tar: Archive, image: Image)
    requires Identifies(json, tar, image)
    ensures ByContent(json, tar, Candidate(image.platform, image.manifest, image.config))
    ensures forall l :: l in image.manifest.layers ==> Holds(tar, l)
  {
    var list := json(Read(tar, IndexJson).value).value.manifests;
    CandidatesByContent(json, tar, list, 0);
    assert Candidate(image.platform, image.manifest, image.config) in Candidates(json, tar, list, 0).value;
  }

  /** Two archives with one platform digest have the same manifest, the same configuration, and the
      same bytes in every layer. */
  lemma EqualPlatformEqualImage(json: Json, a: Archive, b: Archive, x: Image, y: Image)
    requires Identifies(json, a, x) && Identifies(json, b, y)
    requires x.platform.digest == y.platform.digest
    ensures x.manifest == y.manifest && x.config == y.config
    ensures forall l :: l in x.manifest.layers ==>
      l.digest.WellFormed? &&
      var m, n := Lookup(a, Blob(l.digest.digest)), Lookup(b, Blob(l.digest.digest));
      m.Some? && n.Some? && m.value.bytes == n.value.bytes
  {
    IdentityByContent(json, a, x);
    IdentityByContent(json, b, y);
  }

  // ---------------------------------------------------------------- the scan layout

  datatype LayoutPath =
    | IndexFile | MarkerFile | BlobsDir | Sha256Dir
    | BlobFile(digest: Digest)
    | OtherPath(path: string)

  /** The two JSON documents a layout holds. */
  datatype LayoutJson = Marker(version: string) | IndexOf(platform: Digest, size: int, mediaType: JsonValues.Value)

  /** A directory entry; a file carries its bytes and what a JSON reader makes of them. */
  datatype Entry = Directory | File(bytes: seq<Byte>, json: Option<LayoutJson>) | Symlink

  type Layout = map<LayoutPath, Entry>

  const MARKER := Marker("1.0.0")

  function LayoutIndex(tar: Archive, image: Image): LayoutJson
    requires image.platform.digest.WellFormed?
  {
    IndexOf(image.platform.digest.digest, SizeOf(tar, image.platform.digest.digest), MediaOf(image))
  }

  function MediaOf(image: Image): JsonValues.Value {
    if image.manifest.mediaType.Some? then image.manifest.mediaType.value else DEFAULT_MEDIA
  }

  function SizeOf(tar: Archive, d: Digest): int {
    var m := Lookup(tar, Blob(d));
    if m.Some? then |m.value.bytes| else -1
  }

  /** A blob to copy: what a well-formed descriptor says of it. */
  datatype BlobRef = BlobRef(digest: Digest, size: int)

  predicate Selectable(image: Image) {
    && image.platform.digest.WellFormed?
    && image.manifest.config.Some? && image.manifest.config.value.digest.WellFormed?
    && forall i :: 0 <= i < |image.manifest.layers| ==> image.manifest.layers[i].digest.WellFormed?
  }

  /** The manifest, the configuration and the layers, in that order. */
  function Selected(tar: Archive, image: Image): seq<BlobRef>
    requires Selectable(image)
  {
    var platform, config, layers := image.platform.digest.digest, image.manifest.config.value, image.manifest.layers;
    [BlobRef(platform, SizeOf(tar, platform)), BlobRef(config.digest.digest, config.size)]
    + seq(|layers|, i requires 0 <= i < |layers| => BlobRef(layers[i].digest.digest, layers[i].size))
  }

  function BlobPaths(selected: seq<BlobRef>): set<LayoutPath> {
    set b | b in selected :: BlobFile(b.digest)
  }

  predicate BlobMatches(layout: Layout, b: BlobRef) {
    var path := BlobFile(b.digest);
    path in layout && layout[path].File? && |layout[path].bytes| == b.size && Sha256(layout[path].bytes) == b.digest
  }

  /** The archive has the blob, with the content its digest names. */
  predicate InArchive(tar: Archive, b: BlobRef) {
    var m := Lookup(tar, Blob(b.digest));
    m.Some? && m.value.isFile && m.value.bytes == b.digest.preimage && |m.value.bytes| == b.size
  }

  lemma SelectedPresent(json: Json, tar: Archive, image: Image)
    requires Identifies(json, tar, image)
    ensures Selectable(image)
    ensures forall b :: b in Selected(tar, image) ==> InArchive(tar, b)
  {
    IdentityByContent(json, tar, image);
    var layers := image.manifest.layers;
    forall i | 0 <= i < |layers| ensures layers[i].digest.WellFormed? && Holds(tar, layers[i]) {
      assert layers[i] in layers;
    }
  }

  /** The index read back and the expected one are equal JSON. */
  predicate SameIndex(read: Option<LayoutJson>, expected: LayoutJson) {
    && read.Some? && read.value.IndexOf? && expected.IndexOf?
    && read.value.platform == expected.platform && read.value.size == expected.size
    && JsonValues.Equal(read.value.mediaType, expected.mediaType)
  }

  /** A layout of exactly these blobs, the marker and this index. */
  predicate Exact(layout: Layout, selected: seq<BlobRef>, index: LayoutJson) {
    && (forall path :: path in layout ==> !layout[path].Symlink?)
    && layout.Keys == {IndexFile, MarkerFile, BlobsDir, Sha256Dir} + BlobPaths(selected)
    && layout[MarkerFile].File? && layout[MarkerFile].json == Some(MARKER)
    && layout[IndexFile].File? && SameIndex(layout[IndexFile].json, index)
    && forall i :: 0 <= i < |selected| ==> BlobMatches(layout, selected[i])
  }

  method CheckLayout(layout: Layout, selected: seq<BlobRef>, index: LayoutJson) returns (ok: bool)
    ensures ok <==> Exact(layout, selected, index)
  {
    if exists path :: path in layout && layout[path].Symlink? { return false; }
    if layout.Keys != {IndexFile, MarkerFile, BlobsDir, Sha256Dir} + BlobPaths(selected) { return false; }
    if !layout[MarkerFile].File? || layout[MarkerFile].json != Some(MARKER) { return false; }
    if !layout[IndexFile].File? || !SameIndex(layout[IndexFile].json, index) { return false; }
    for i := 0 to |selected|
      invariant forall k :: 0 <= k < i ==> BlobMatches(layout, selected[k])
    {
      if !BlobMatches(layout, selected[i]) { return false; }
    }
    return true;
  }

  /** The layout of one identified image. */
  ghost predicate LayoutOf(json: Json, tar: Archive, layout: Layout) {
    exists image :: Identifies(json, tar, image) && Selectable(image)
                    && Exact(layout, Selected(tar, image), LayoutIndex(tar, image))
  }

  /** The check of an existing layout against its archive. */
  method VerifyLayout(json: Json, tar: Archive, layout: Layout) returns (ok: bool)
    ensures ok <==> LayoutOf(json, tar, layout)
  {
    var identified := Identity(json, tar);
    if identified.Err? { return false; }
    SelectedPresent(json, tar, identified.value);
    ok := CheckLayout(layout, Selected(tar, identified.value), LayoutIndex(tar, identified.value));
    if LayoutOf(json, tar, layout) {
      var image :| Identifies(json, tar, image) && Selectable(image)
                   && Exact(layout, Selected(tar, image), LayoutIndex(tar, image));
      OneImage(json, tar, image, identified.value);
    }
  }

  lemma OneImage(json: Json, tar: Archive, x: Image, y: Image)
    requires Identifies(json, tar, x) && Identifies(json, tar, y)
    ensures x == y
  {
    var cx, cy := Candidate(x.platform, x.manifest, x.config), Candidate(y.platform, y.manifest, y.config);
    assert [cx][0] == [cy][0];
  }

  /** An accepted layout holds the archive's own bytes for the manifest, the configuration and every
      layer, and no other blob. */
  lemma AcceptedLayoutHoldsArchive(json: Json, tar: Archive, image: Image, layout: Layout)
    requires Identifies(json, tar, image) && LayoutOf(json, tar, layout)
    ensures Selectable(image)
    ensures forall b :: b in Selected(tar, image) ==>
      var m := Lookup(tar, Blob(b.digest));
      m.Some? && BlobFile(b.digest) in layout && layout[BlobFile(b.digest)].File?
        && layout[BlobFile(b.digest)].bytes == m.value.bytes
    ensures forall x :: BlobFile(x) in layout ==> exists b :: b in Selected(tar, image) && b.digest == x
  {
    var described :| Identifies(json, tar, described) && Selectable(described)
                    && Exact(layout, Selected(tar, described), LayoutIndex(tar, described));
    OneImage(json, tar, image, described);
    SelectedPresent(json, tar, image);
    var selected := Selected(tar, image);
    forall b | b in selected ensures BlobMatches(layout, b) {
      var i :| 0 <= i < |selected| && selected[i] == b;
    }
    forall x | BlobFile(x) in layout ensures exists b :: b in selected && b.digest == x {
      assert BlobFile(x) in BlobPaths(selected);
    }
  }

  /** The layouts of an identified image, in the archive's own terms: nothing but these paths, no symbolic
      link, the marker of version 1.0.0, an index of the platform digest, the size of its blob and the
      manifest's media type, and every blob with the archive's bytes. */
  lemma LayoutExactly(json: Json, tar: Archive, image: Image, layout: Layout)
    requires Identifies(json, tar, image)
    ensures Selectable(image)
    ensures LayoutOf(json, tar, layout) <==>
            var platform, selected := image.platform.digest.digest, Selected(tar, image);
            && (forall path :: path in layout <==>
                  || path == IndexFile || path == MarkerFile || path == BlobsDir || path == Sha256Dir
                  || exists b :: b in selected && path == BlobFile(b.digest))
            && (forall path :: path in layout ==> layout[path] != Symlink)
            && (exists text :: layout[MarkerFile] == File(text, Some(Marker("1.0.0"))))
            && (exists text, media ::
                  && layout[IndexFile] == File(text, Some(IndexOf(platform, |platform.preimage|, media)))
                  && JsonValues.Equal(media, MediaOf(image)))
            && forall b :: b in selected ==>
                 exists json :: layout[BlobFile(b.digest)] == File(b.digest.preimage, json)
  {
    SelectedPresent(json, tar, image);
    OnlyImage(json, tar, layout, image);
    var selected := Selected(tar, image);
    assert SelectedOf(tar, selected) by { assert forall b :: b in selected ==> InArchive(tar, b); }
    PlatformSize(tar, image);
    ExactMeans(tar, layout, selected, LayoutIndex(tar, image));
  }

  ghost predicate SelectedOf(tar: Archive, selected: seq<BlobRef>) {
    forall b :: b in selected ==> InArchive(tar, b)
  }

  lemma PlatformSize(tar: Archive, image: Image)
    requires Selectable(image) && SelectedOf(tar, Selected(tar, image))
    ensures SizeOf(tar, image.platform.digest.digest) == |image.platform.digest.digest.preimage|
  {
    assert Selected(tar, image)[0] in Selected(tar, image);
  }

  lemma ExactMeans(tar: Archive, layout: Layout, selected: seq<BlobRef>, index: LayoutJson)
    requires SelectedOf(tar, selected) && index.IndexOf?
    ensures Exact(layout, selected, index) <==>
            && (forall path :: path in layout <==>
                  || path == IndexFile || path == MarkerFile || path == BlobsDir || path == Sha256Dir
                  || exists b :: b in selected && path == BlobFile(b.digest))
            && (forall path :: path in layout ==> layout[path] != Symlink)
            && (exists text :: layout[MarkerFile] == File(text, Some(Marker("1.0.0"))))
            && (exists text, media ::
                  && layout[IndexFile] == File(text, Some(IndexOf(index.platform, index.size, media)))
                  && JsonValues.Equal(media, index.mediaType))
            && forall b :: b in selected ==>
                 exists json :: layout[BlobFile(b.digest)] == File(b.digest.preimage, json)
  {
    PathsMean(layout, selected);
    if layout.Keys == {IndexFile, MarkerFile, BlobsDir, Sha256Dir} + BlobPaths(selected) {
      BlobsMean(tar, layout, selected);
    }
  }

  lemma PathsMean(layout: Layout, selected: seq<BlobRef>)
    ensures layout.Keys == {IndexFile, MarkerFile, BlobsDir, Sha256Dir} + BlobPaths(selected) <==>
            forall path :: path in layout <==>
              || path == IndexFile || path == MarkerFile || path == BlobsDir || path == Sha256Dir
              || exists b :: b in selected && path == BlobFile(b.digest)
  {
    var expected := {IndexFile, MarkerFile, BlobsDir, Sha256Dir} + BlobPaths(selected);
    assert (forall path :: path in layout <==> path in expected) <==> layout.Keys == expected;
  }

  lemma BlobsMean(tar: Archive, layout: Layout, selected: seq<BlobRef>)
    requires SelectedOf(tar, selected) && BlobPaths(selected) <= layout.Keys
    ensures forall b :: b in selected ==> BlobFile(b.digest) in layout
    ensures (forall i :: 0 <= i < |selected| ==> BlobMatches(layout, selected[i])) <==>
            forall b :: b in selected ==> exists json :: layout[BlobFile(b.digest)] == File(b.digest.preimage, json)
  {
    forall b | b in selected
      ensures BlobFile(b.digest) in layout
      ensures BlobMatches(layout, b) <==> exists json :: layout[BlobFile(b.digest)] == File(b.digest.preimage, json)
    {
      assert BlobFile(b.digest) in BlobPaths(selected);
      BlobMatchMeans(tar, layout, b);
    }
    assert (forall i :: 0 <= i < |selected| ==> BlobMatches(layout, selected[i])) <==>
           forall b :: b in selected ==> BlobMatches(layout, b);
  }

  lemma BlobMatchMeans(tar: Archive, layout: Layout, b: BlobRef)
    requires InArchive(tar, b) && BlobFile(b.digest) in layout
    ensures BlobMatches(layout, b) <==> exists json :: layout[BlobFile(b.digest)] == File(b.digest.preimage, json)
  {
    var entry := layout[BlobFile(b.digest)];
    if entry.File? { assert entry == File(entry.bytes, entry.json); }
  }

  /** What the copy has established after its first `i` blobs. */
  ghost predicate Copied(layout: Layout, selected: seq<BlobRef>, i: nat)
    requires i <= |selected|
  {
    && layout.Keys == {BlobsDir, Sha256Dir} + BlobPaths(selected[..i])
    && (forall path :: path in layout ==> !layout[path].Symlink?)
    && (forall x :: BlobFile(x) in layout ==> layout[BlobFile(x)].File? && layout[BlobFile(x)].bytes == x.preimage)
    && forall k :: 0 <= k < i ==> BlobMatches(layout, selected[k])
  }

  lemma CopiedPaths(selected: seq<BlobRef>, i: nat)
    requires i < |selected|
    ensures BlobPaths(selected[..i + 1]) == BlobPaths(selected[..i]) + {BlobFile(selected[i].digest)}
  {
    assert selected[..i + 1] == selected[..i] + [selected[i]];
  }

  lemma CopiedOneMore(layout: Layout, selected: seq<BlobRef>, i: nat)
    requires i < |selected| && Copied(layout, selected, i) && |selected[i].digest.preimage| == selected[i].size
    ensures var path := BlobFile(selected[i].digest);
            var next := if path in layout then layout else layout[path := File(selected[i].digest.preimage, None)];
            Copied(next, selected, i + 1)
  {
    CopiedPaths(selected, i);
  }

  /** Copies the selected blobs under their digests; a repeated digest is stored once. */
  method CopyBlobs(tar: Archive, selected: seq<BlobRef>) returns (r: Result<Layout>)
    requires forall b :: b in selected ==> InArchive(tar, b)
    ensures r.Ok?
    ensures r.value.Keys == {BlobsDir, Sha256Dir} + BlobPaths(selected)
    ensures forall path :: path in r.value ==> !r.value[path].Symlink?
    ensures forall i :: 0 <= i < |selected| ==> BlobMatches(r.value, selected[i])
  {
    var layout: Layout := map[BlobsDir := Directory, Sha256Dir := Directory];
    for i := 0 to |selected|
      invariant Copied(layout, selected, i)
    {
      var b := selected[i];
      assert InArchive(tar, b);
      CopiedOneMore(layout, selected, i);
      var member := Lookup(tar, Blob(b.digest)).value;
      if !member.isFile || |member.bytes| != b.size { return Err; }
      if BlobFile(b.digest) !in layout {
        if Sha256(member.bytes) != b.digest { return Err; }
        layout := layout[BlobFile(b.digest) := File(member.bytes, None)];
      }
    }
    assert selected[..|selected|] == selected;
    return Ok(layout);
  }

  /** What is read back of a written document. */
  function ReadBack(document: LayoutJson): LayoutJson {
    match document
    case Marker(_) => document
    case IndexOf(platform, size, mediaType) => IndexOf(platform, size, JsonValues.ReadBack(mediaType))
  }

  /** How deep a document nests: the index is an object with a list of an object, and in that the media
      type beside the platform's object. */
  function Nesting(document: LayoutJson): nat {
    match document
    case Marker(_) => 1
    case IndexOf(_, _, mediaType) =>
      3 + if JsonValues.Nesting(mediaType) > 1 then JsonValues.Nesting(mediaType) else 1
  }

  /** The manifest's media type survives being written and read back, and fits into an index that nests
      no deeper than `room`. */
  predicate Copyable(image: Image, room: nat) {
    JsonValues.Whole(MediaOf(image)) && JsonValues.Nesting(MediaOf(image)) + 3 <= room && room >= 4
  }

  /** No media type, or one that is a text of characters, can be copied. */
  lemma TextIsCopyable(image: Image, media: string, room: nat)
    requires image.manifest.mediaType.Some? ==>
      image.manifest.mediaType.value == JsonValues.Text(JsonValues.Characters(media))
    requires room >= 4
    ensures Copyable(image, room)
  {
    JsonValues.CharactersHaveNoPair(media);
    JsonValues.CharactersHaveNoPair("application/vnd.oci.image.manifest.v1+json");
  }

  /** The copied blobs with the two documents are an exact layout if and only if the media type comes
      back as it was. */
  lemma CopyIsExact(copied: Layout, layout: Layout, selected: seq<BlobRef>, index: LayoutJson, marker: Entry,
                    own: Entry)
    requires copied.Keys == {BlobsDir, Sha256Dir} + BlobPaths(selected)
    requires forall path :: path in copied ==> !copied[path].Symlink?
    requires forall i :: 0 <= i < |selected| ==> BlobMatches(copied, selected[i])
    requires marker.File? && marker.json == Some(ReadBack(MARKER))
    requires index.IndexOf? && own.File? && own.json == Some(ReadBack(index))
    requires layout == copied[MarkerFile := marker][IndexFile := own]
    ensures Exact(layout, selected, index) <==> JsonValues.Whole(index.mediaType)
  {
    JsonValues.ReadBackEqual(index.mediaType);
    forall i | 0 <= i < |selected| ensures BlobMatches(layout, selected[i]) {
      assert BlobMatches(copied, selected[i]);
    }
  }

  /** The copy into a fresh directory. `dump` is what the JSON writer produces, and `room` the depth up
      to which documents can be written, read back and compared. Every identified archive ends in an
      accepted layout, but for one whose manifest has a media type too deep for that or with a text
      that does not come back. */
  method Materialize(json: Json, tar: Archive, occupied: bool, dump: LayoutJson -> seq<Byte>, room: nat)
    returns (r: Result<Layout>)
    ensures r.Ok? <==> !occupied && exists image :: Identifies(json, tar, image) && Copyable(image, room)
    ensures r.Ok? ==> LayoutOf(json, tar, r.value)
  {
    var identified := Identity(json, tar);
    if identified.Err? || occupied { return Err; }
    var image := identified.value;
    SelectedPresent(json, tar, image);
    var selected, index := Selected(tar, image), LayoutIndex(tar, image);
    OnlyCopyable(json, tar, image, room);
    var copied := CopyBlobs(tar, selected);
    if Nesting(MARKER) > room || Nesting(index) > room { return Err; }
    var marker, own := File(dump(MARKER), Some(ReadBack(MARKER))), File(dump(index), Some(ReadBack(index)));
    var layout := copied.value[MarkerFile := marker][IndexFile := own];
    CopyIsExact(copied.value, layout, selected, index, marker, own);
    OnlyImage(json, tar, layout, image);
    var ok := VerifyLayout(json, tar, layout);
    if !ok { return Err; }
    return Ok(layout);
  }

  /** The index of a layout is read from text, in which no half of a pair stands: none is left in it. */
  predicate ReadFromText(layout: Layout) {
    && IndexFile in layout && layout[IndexFile].File? && layout[IndexFile].json.Some?
    && layout[IndexFile].json.value.IndexOf? ==>
      JsonValues.Whole(layout[IndexFile].json.value.mediaType)
  }

  /** When the copy fails because a text does not come back, no layout at all is accepted. */
  lemma SplitTextRefused(json: Json, tar: Archive, layout: Layout, image: Image)
    requires Identifies(json, tar, image) && !JsonValues.Whole(MediaOf(image)) && ReadFromText(layout)
    ensures !LayoutOf(json, tar, layout)
  {
    SelectedPresent(json, tar, image);
    OnlyImage(json, tar, layout, image);
    if LayoutOf(json, tar, layout) {
      JsonValues.WholeEqual(layout[IndexFile].json.value.mediaType, MediaOf(image));
    }
  }

  /** In an archive's layout it is the identified image that counts. */
  lemma OnlyImage(json: Json, tar: Archive, layout: Layout, image: Image)
    requires Identifies(json, tar, image) && Selectable(image)
    ensures LayoutOf(json, tar, layout) <==> Exact(layout, Selected(tar, image), LayoutIndex(tar, image))
  {
    forall other | Identifies(json, tar, other) ensures other == image {
      OneImage(json, tar, other, image);
    }
  }

  lemma OnlyCopyable(json: Json, tar: Archive, image: Image, room: nat)
    requires Identifies(json, tar, image)
    ensures (exists other :: Identifies(json, tar, other) && Copyable(other, room)) <==> Copyable(image, room)
  {
    forall other | Identifies(json, tar, other) ensures other == image {
      OneImage(json, tar, other, image);
    }
  }

  // ---------------------------------------------------------------- archives that cannot be copied

  function Described(content: Byte): Descriptor {
    Descriptor("manifest", WellFormed(Sha256([content])), 1)
  }

  function ExampleManifest(media: JsonValues.Value): Doc {
    Doc([], Some(media), Some(Described(3)), [Described(4)], "", "", [])
  }

  const EXAMPLE_CONFIG := Doc([], None, None, [], "linux", "amd64", ["layer"])

  /** An index [1], a manifest [2] with the given media type, and its configuration [3]. */
  function ExampleJson(media: JsonValues.Value): Json {
    (bytes: seq<Byte>) =>
      if bytes == [1] then Some(Doc([Described(2)], None, None, [], "", "", []))
      else if bytes == [2] then Some(ExampleManifest(media))
      else if bytes == [3] then Some(EXAMPLE_CONFIG)
      else None
  }

  function BlobMember(content: Byte): Member {
    Member(Blob(Sha256([content])), true, [content])
  }

  const EXAMPLE_ARCHIVE: Archive := [Member(IndexJson, true, [1]), BlobMember(2), BlobMember(3), BlobMember(4)]

  function ExampleImage(media: JsonValues.Value): Image {
    Image(Described(2), ExampleManifest(media), EXAMPLE_CONFIG)
  }

  lemma LookupAt(tar: Archive, i: nat)
    requires i < |tar| && Unique(tar)
    ensures Lookup(tar, tar[i].name) == Some(tar[i])
  {
    LookupIsLast(tar, tar[i].name);
  }

  lemma ContentsDiffer(a: Byte, b: Byte)
    requires a != b
    ensures Blob(Sha256([a])) != Blob(Sha256([b]))
  {
    assert [a][0] != [b][0];
  }

  lemma ExampleUnique()
    ensures Unique(EXAMPLE_ARCHIVE)
  {
    ContentsDiffer(2, 3);
    ContentsDiffer(2, 4);
    ContentsDiffer(3, 4);
  }

  lemma ExampleLookups()
    ensures Lookup(EXAMPLE_ARCHIVE, IndexJson) == Some(Member(IndexJson, true, [1]))
    ensures forall content: Byte :: 2 <= content <= 4 ==>
              Lookup(EXAMPLE_ARCHIVE, Blob(Sha256([content]))) == Some(BlobMember(content))
  {
    ExampleUnique();
    LookupAt(EXAMPLE_ARCHIVE, 0);
    LookupAt(EXAMPLE_ARCHIVE, 1);
    LookupAt(EXAMPLE_ARCHIVE, 2);
    LookupAt(EXAMPLE_ARCHIVE, 3);
  }

  lemma {:induction false} TooShort(text: string, part: string)
    requires |text| < |part|
    ensures !Contains(text, part)
  {
    if text != "" { TooShort(text[1..], part); }
  }

  lemma ManifestMedia()
    ensures IsManifest("manifest")
  {
    TooShort("manifest", "image.index");
    TooShort("manifest", "manifest.list");
  }

  lemma ExampleFetches(media: JsonValues.Value)
    ensures Fetch(ExampleJson(media), EXAMPLE_ARCHIVE, Described(2)) == Some(ExampleManifest(media))
    ensures Fetch(ExampleJson(media), EXAMPLE_ARCHIVE, Described(3)) == Some(EXAMPLE_CONFIG)
    ensures LayerPresent(EXAMPLE_ARCHIVE, Described(4))
  {
    ExampleLookups();
    assert [1 as Byte][0] == 1 && [2 as Byte][0] == 2 && [3 as Byte][0] == 3;
  }

  lemma OneCandidate(json: Json, tar: Archive, d: Descriptor, manifest: Doc, config: Doc)
    requires IsManifest(d.mediaType) && Fetch(json, tar, d) == Some(manifest) && manifest.config.Some?
    requires Fetch(json, tar, manifest.config.value) == Some(config) && config.os == "linux"
             && config.architecture == "amd64"
    ensures Candidates(json, tar, [d], 0) == Ok([Candidate(d, manifest, config)])
  {
    assert [d][1..] == [] && FromManifest(json, tar, d) == Ok([Candidate(d, manifest, config)]);
    assert [Candidate(d, manifest, config)] + [] == [Candidate(d, manifest, config)];
  }

  /** Any JSON value can be the media type of an identified image. */
  lemma ExampleIdentified(media: JsonValues.Value)
    ensures Identifies(ExampleJson(media), EXAMPLE_ARCHIVE, ExampleImage(media))
  {
    ExampleLookups();
    ExampleFetches(media);
    ManifestMedia();
    OneCandidate(ExampleJson(media), EXAMPLE_ARCHIVE, Described(2), ExampleManifest(media), EXAMPLE_CONFIG);
  }

  /** The two halves of U+10000 as two code points: their escapes spell U+10000. */
  const SPLIT_TEXT := JsonValues.Text([0xD800, 0xDC00])

  /** An archive with that media type is identified, and then refused by its own copy, however much room
      there is, and by every check of a layout. */
  lemma SplitArchiveRefused(layout: Layout, room: nat)
    requires ReadFromText(layout)
    ensures Identifies(ExampleJson(SPLIT_TEXT), EXAMPLE_ARCHIVE, ExampleImage(SPLIT_TEXT))
    ensures !Copyable(ExampleImage(SPLIT_TEXT), room)
    ensures !LayoutOf(ExampleJson(SPLIT_TEXT), EXAMPLE_ARCHIVE, layout)
  {
    ExampleIdentified(SPLIT_TEXT);
    assert JsonValues.PairAt(SPLIT_TEXT.points, 0);
    SplitTextRefused(ExampleJson(SPLIT_TEXT), EXAMPLE_ARCHIVE, layout, ExampleImage(SPLIT_TEXT));
  }

  /** A list in a list, and so on. */
  function Nested(depth: nat): JsonValues.Value {
    if depth == 0 then JsonValues.Null else JsonValues.ListOf([Nested(depth - 1)])
  }

  lemma {:induction false} NestedIs(depth: nat)
    ensures JsonValues.Nesting(Nested(depth)) == depth && JsonValues.Whole(Nested(depth))
  {
    if depth > 0 {
      NestedIs(depth - 1);
      JsonValues.NestingOfOne(Nested(depth - 1), []);
    }
  }

  /** A media type that nests too deep for the index around it, such as one whose manifest itself still
      nests less than `room`: it is read, and cannot be copied. */
  lemma DeepArchive(depth: nat, room: nat)
    ensures Identifies(ExampleJson(Nested(depth)), EXAMPLE_ARCHIVE, ExampleImage(Nested(depth)))
    ensures Copyable(ExampleImage(Nested(depth)), room) <==> depth + 3 <= room && 4 <= room
  {
    ExampleIdentified(Nested(depth));
    NestedIs(depth);
  }
}

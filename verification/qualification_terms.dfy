/** The conditions of the qualification spelled out: what evidence binds an image, an environment or a
    baseline to a commit, and what a release demands of any record at all, produced or not. */
module QualificationTerms {
  import opened Bytes
  import opened Qualifications
  import opened Roles
  import opened ScanPolicy
  import ScanTerms
  import Text

  const DECIMAL := "0123456789"
  const HEXADECIMAL := DECIMAL + "abcdef"

  // ---------------------------------------------------------------- texts

  /** A full digest: the prefix and 64 hexadecimal digits. */
  ghost predicate Digest64(s: string) {
    exists hex :: s == "sha256:" + hex && |hex| == 64 && forall c :: c in hex ==> c in HEXADECIMAL
  }

  lemma HexDigits(c: char)
    ensures c in HEXADECIMAL <==> '0' <= c <= '9' || 'a' <= c <= 'f'
    ensures c in DECIMAL <==> '0' <= c <= '9'
  {
    DecimalDigits(c);
    assert c in HEXADECIMAL <==> c in DECIMAL || c in "abcdef";
    Letters(c);
  }

  lemma DecimalDigits(c: char)
    ensures c in DECIMAL <==> '0' <= c <= '9'
  {
    assert DECIMAL == ['0', '1', '2', '3', '4', '5', '6', '7', '8', '9'];
    if '0' <= c <= '9' { assert DECIMAL[c as int - '0' as int] == c; }
  }

  lemma Letters(c: char)
    ensures c in "abcdef" <==> 'a' <= c <= 'f'
  {
    if 'a' <= c <= 'f' { assert "abcdef"[c as int - 'a' as int] == c; }
  }

  lemma DigestTerms(s: string)
    ensures IsDigest(s) <==> Digest64(s)
  {
    forall c ensures c in HEXADECIMAL <==> '0' <= c <= '9' || 'a' <= c <= 'f' { HexDigits(c); }
    if IsDigest(s) {
      assert s == "sha256:" + s[7..];
    }
    forall hex | s == "sha256:" + hex && |hex| == 64 && forall c :: c in hex ==> c in HEXADECIMAL ensures IsDigest(s) {
      assert s[..7] == "sha256:" && s[7..] == hex;
    }
  }

  lemma NumberTerms(s: string)
    ensures IsNumber(s) <==> s != "" && forall c :: c in s ==> c in DECIMAL
    ensures IsCommit(s) <==> |s| == 40 && forall c :: c in s ==> c in HEXADECIMAL
  {
    forall c
      ensures c in HEXADECIMAL <==> '0' <= c <= '9' || 'a' <= c <= 'f'
      ensures c in DECIMAL <==> '0' <= c <= '9'
    {
      HexDigits(c);
    }
  }

  // ---------------------------------------------------------------- images

  /** A package in some Node result of the report. */
  ghost predicate ListsPackage(report: Report, p: Package) {
    report.results.Items? &&
    exists r :: r in report.results.items && r.section == "lang-pkgs" && r.language == "node-pkg"
                && r.packages.Items? && p in r.packages.items
  }

  /** The installed Node packages are listed, at least one, each with its name and version. */
  ghost predicate PackagesListed(report: Report) {
    && report.results.Items?
    && (forall r :: r in report.results.items && r.section == "lang-pkgs" && r.language == "node-pkg" ==>
          !r.packages.Unlisted?)
    && (exists p :: ListsPackage(report, p))
    && forall p :: ListsPackage(report, p) ==> p.name != "" && p.version != ""
  }

  lemma {:induction false} NodePackagesAre(results: seq<ScanResult>)
    ensures forall p :: p in NodePackages(results) <==>
              exists r :: r in results && r.section == "lang-pkgs" && r.language == "node-pkg"
                          && r.packages.Items? && p in r.packages.items
  {
    if results != [] {
      NodePackagesAre(results[1..]);
      assert forall r :: r in results <==> r == results[0] || r in results[1..];
    }
  }

  ghost predicate ListsNpm(report: Report) {
    exists p :: ListsPackage(report, p) && p.name == "npm"
  }

  lemma ListedTerms(report: Report, packages: seq<Package>)
    requires report.results.Items? && packages == NodePackages(report.results.items)
    ensures PackagesListed(report) <==>
            && (forall r :: r in report.results.items && IsNodeResult(r) ==> !r.packages.Unlisted?)
            && packages != [] && (forall p :: p in packages ==> p.name != "" && p.version != "")
    ensures ListsNpm(report) <==> exists p :: p in packages && p.name == "npm"
  {
    NodePackagesAre(report.results.items);
    forall p ensures p in packages <==> ListsPackage(report, p) { }
    if packages != [] { assert packages[0] in packages; }
  }

  lemma PackagesTerms(report: Report, role: Name)
    ensures NodePackagesScanned(report, role) <==>
            match role
            case Backend => PackagesListed(report)
            case BackendDeps | BackendBuilder | FrontendDeps | FrontendBuilder =>
              PackagesListed(report) && ListsNpm(report)
            case _ => true
  {
    if report.results.Items? { ListedTerms(report, NodePackages(report.results.items)); }
  }

  /** A stage's cache proof: the same build as that of its runtime image. */
  ghost predicate CachedWith(directory: Directory, runtime: Name, files: ImageFiles, role: Name, source: string,
                             config: string)
  {
    && files.progressSha.Some? && files.metadataSha.Some? && files.cache.Some?
    && files.cache.value.status == Expected && files.cache.value.role == role && files.cache.value.source == source
    && files.cache.value.progress == files.progressSha.value && files.cache.value.metadata == files.metadataSha.value
    && files.cache.value.configDigest == config
    && runtime in directory.images
    && exists b :: directory.images[runtime].binding == Some(b) && b.platformDigest == files.cache.value.runtimeDigest
  }

  ghost predicate LoadedFrom(files: ImageFiles, role: Name, source: string, platform: string, config: string) {
    files.loaded == Some(Loaded(Expected, role, source, platform, config))
  }

  /** What an image must show by its role: the locked platform, a smoke test of that very platform and
      configuration, the Node packages in it, and for a build stage the build of its runtime image. */
  ghost predicate RoleTerms(directory: Directory, role: Name, source: string, platform: string, config: string,
                            files: ImageFiles, report: Report)
  {
    match role
    case Backend => LoadedFrom(files, role, source, platform, config) && PackagesListed(report)
    case Frontend => LoadedFrom(files, role, source, platform, config)
    case Postgres | Ingress | Buildkit => role in directory.lock && directory.lock[role] == platform
    case BackendDeps | BackendBuilder =>
      CachedWith(directory, Backend, files, role, source, config) && PackagesListed(report) && ListsNpm(report)
    case FrontendDeps | FrontendBuilder =>
      CachedWith(directory, Frontend, files, role, source, config) && PackagesListed(report) && ListsNpm(report)
    case _ => true
  }

  /** What binds one image: a binding of this role and commit with four full digests, the report it names by
      its bytes and its image, a passed archive scan, and what its role asks for. */
  ghost predicate ImageTerms(directory: Directory, role: Name, source: string, archive: string, platform: string,
                             config: string)
  {
    role in directory.images &&
    var files := directory.images[role];
    var scan := "sha256:" + files.reportSha;
    && Digest64(archive) && Digest64(platform) && Digest64(config) && Digest64(scan)
    && files.binding == Some(Binding(Expected, role, source, Expected, Expected, archive, platform, config, scan))
    && files.report.Some? && files.report.value.imageId == config
    && (exists reference :: files.sidecar == Some(Sidecar(true, Archive, reference, true)))
    && RoleTerms(directory, role, source, platform, config, files, files.report.value)
  }

  lemma CacheTerms(directory: Directory, b: Binding, files: ImageFiles)
    requires b.role in STAGES
    ensures CacheMatches(directory, b, files) <==>
            CachedWith(directory, if b.role.BackendDeps? || b.role.BackendBuilder? then Backend else Frontend, files,
                       b.role, b.source, b.configDigest)
  {
  }

  lemma SidecarTerms(files: ImageFiles)
    ensures (exists reference :: files.sidecar == Some(Sidecar(true, Archive, reference, true))) <==>
            files.sidecar.Some? && files.sidecar.value.passed && files.sidecar.value.kind == Archive
            && files.sidecar.value.validated
  {
    if files.sidecar.Some? {
      var s := files.sidecar.value;
      assert s == Sidecar(s.passed, s.kind, s.reference, s.validated);
    }
  }

  lemma BindingTerms(b: Binding, role: Name, source: string)
    ensures BindingMatches(b, role, source) <==>
            && b == Binding(Expected, role, source, Expected, Expected,
                            b.archive, b.platformDigest, b.configDigest, b.scan)
            && Digest64(b.archive) && Digest64(b.platformDigest) && Digest64(b.configDigest) && Digest64(b.scan)
  {
    DigestTerms(b.archive);
    DigestTerms(b.platformDigest);
    DigestTerms(b.configDigest);
    DigestTerms(b.scan);
  }

  lemma RolesMean(directory: Directory, b: Binding, files: ImageFiles, report: Report)
    ensures RoleTerms(directory, b.role, b.source, b.platformDigest, b.configDigest, files, report) <==>
            && NodePackagesScanned(report, b.role) && LockMatches(directory, b)
            && (b.role in [Backend, Frontend] ==> LoadedMatches(b, files.loaded))
            && (b.role in STAGES ==> CacheMatches(directory, b, files))
  {
    PackagesTerms(report, b.role);
    if b.role in STAGES { CacheTerms(directory, b, files); }
  }

  lemma BoundHasTerms(directory: Directory, role: Name, source: string)
    requires ImageBound(directory, role, source)
    ensures var b := directory.images[role].binding.value;
            ImageTerms(directory, role, source, b.archive, b.platformDigest, b.configDigest)
  {
    var files := directory.images[role];
    var b := files.binding.value;
    BindingTerms(b, role, source);
    SidecarTerms(files);
    RolesMean(directory, b, files, files.report.value);
  }

  lemma TermsBind(directory: Directory, role: Name, source: string, archive: string, platform: string, config: string)
    requires ImageTerms(directory, role, source, archive, platform, config)
    ensures ImageBound(directory, role, source)
  {
    var files := directory.images[role];
    var b := files.binding.value;
    BindingTerms(b, role, source);
    SidecarTerms(files);
    RolesMean(directory, b, files, files.report.value);
  }

  /** An image is bound to a commit exactly when its files say so in these terms. */
  lemma ImageBoundExactly(directory: Directory, role: Name, source: string)
    ensures ImageBound(directory, role, source) <==>
            exists archive, platform, config :: ImageTerms(directory, role, source, archive, platform, config)
  {
    if ImageBound(directory, role, source) { BoundHasTerms(directory, role, source); }
    if archive, platform, config :| ImageTerms(directory, role, source, archive, platform, config) {
      TermsBind(directory, role, source, archive, platform, config);
    }
  }

  // ---------------------------------------------------------------- environments

  /** The environment of that name at place `i`. */
  predicate NamedAt(files: seq<EnvironmentFile>, name: Name, i: int) {
    0 <= i < |files| && files[i].Readable? && files[i].observed.id == name
  }

  lemma {:induction false} MatchingNone(files: seq<EnvironmentFile>, name: Name)
    ensures Matching(files, name) == [] <==> forall i :: !NamedAt(files, name, i)
  {
    if files != [] {
      var rest := files[1..];
      MatchingNone(rest, name);
      forall i ensures NamedAt(files, name, i) <==> (i == 0 && NamedAt(files, name, 0)) || NamedAt(rest, name, i - 1) {
        if 0 < i < |files| { assert files[i] == rest[i - 1]; }
      }
      if NamedAt(files, name, 0) {
        assert Matching(files, name)[0] == files[0].observed;
      } else {
        assert Matching(files, name) == Matching(rest, name);
        if i :| NamedAt(rest, name, i) { assert rest[i] == files[i + 1] && NamedAt(files, name, i + 1); }
      }
    }
  }

  ghost predicate OnlyAt(files: seq<EnvironmentFile>, name: Name, i: int) {
    NamedAt(files, name, i) && forall j :: NamedAt(files, name, j) ==> j == i
  }

  lemma {:induction false} MatchingOne(files: seq<EnvironmentFile>, name: Name, o: Observed)
    ensures Matching(files, name) == [o] <==> exists i :: OnlyAt(files, name, i) && files[i].observed == o
  {
    if files != [] {
      var rest := files[1..];
      forall i ensures NamedAt(files, name, i) <==> (i == 0 && NamedAt(files, name, 0)) || NamedAt(rest, name, i - 1) {
        if 0 < i < |files| { assert files[i] == rest[i - 1]; }
      }
      if NamedAt(files, name, 0) {
        MatchingNone(rest, name);
        FirstIsOnly(files, rest, name);
        assert Matching(files, name) == [files[0].observed] + Matching(rest, name);
        assert Matching(files, name)[0] == files[0].observed;
        assert |Matching(files, name)| == 1 + |Matching(rest, name)|;
      } else {
        MatchingOne(rest, name, o);
        forall i ensures OnlyAt(files, name, i) <==> OnlyAt(rest, name, i - 1) { LaterIsOnly(files, rest, name, i); }
        if i :| OnlyAt(rest, name, i) && rest[i].observed == o { assert OnlyAt(rest, name, i + 1 - 1); }
      }
    }
  }

  lemma FirstIsOnly(files: seq<EnvironmentFile>, rest: seq<EnvironmentFile>, name: Name)
    requires files != [] && rest == files[1..] && NamedAt(files, name, 0)
    ensures forall i :: OnlyAt(files, name, i) <==> i == 0 && forall j :: !NamedAt(rest, name, j)
  {
    forall j | NamedAt(rest, name, j) ensures NamedAt(files, name, j + 1) { assert files[j + 1] == rest[j]; }
    forall j | NamedAt(files, name, j) && j > 0 ensures NamedAt(rest, name, j - 1) { assert files[j] == rest[j - 1]; }
  }

  lemma LaterIsOnly(files: seq<EnvironmentFile>, rest: seq<EnvironmentFile>, name: Name, i: int)
    requires files != [] && rest == files[1..] && !NamedAt(files, name, 0)
    ensures OnlyAt(files, name, i) <==> OnlyAt(rest, name, i - 1)
  {
    forall j | NamedAt(rest, name, j) ensures NamedAt(files, name, j + 1) { assert files[j + 1] == rest[j]; }
    forall j | NamedAt(files, name, j) ensures NamedAt(rest, name, j - 1) { assert files[j] == rest[j - 1]; }
  }

  /** An environment is found exactly when every file can be read and one alone has its name. */
  lemma FindExactly(files: seq<EnvironmentFile>, name: Name, o: Observed)
    ensures Find(files, name) == Ok(o) <==>
            Unreadable !in files && exists i :: OnlyAt(files, name, i) && files[i].observed == o
  {
    MatchingOne(files, name, o);
    var found := Matching(files, name);
    if |found| == 1 { assert found == [found[0]]; }
  }

  /** The tools are the required ones, each once, from its own path. */
  ghost predicate ToolsAre(tools: seq<Tool>, required: map<ToolId, Place>) {
    && IdsApart(tools)
    && (forall i :: 0 <= i < |tools| ==> tools[i].id in required && required[tools[i].id] == tools[i].path)
    && forall id :: id in required ==> HasTool(tools, id)
  }

  lemma MapSize(before: map<ToolId, Place>, id: ToolId, path: Place)
    ensures |before[id := path]| == |before| + if id in before then 0 else 1
  {
    assert before[id := path].Keys == before.Keys + {id};
    assert |before[id := path]| == |before[id := path].Keys| && |before| == |before.Keys|;
  }

  ghost predicate IdsApart(tools: seq<Tool>) {
    forall i, j :: 0 <= i < j < |tools| ==> tools[i].id != tools[j].id
  }

  ghost predicate HasTool(tools: seq<Tool>, id: ToolId) {
    exists i :: 0 <= i < |tools| && tools[i].id == id
  }

  lemma OneMoreTool(tools: seq<Tool>, id: ToolId)
    requires tools != []
    ensures var last := |tools| - 1;
            && (HasTool(tools, id) <==> HasTool(tools[..last], id) || tools[last].id == id)
            && (IdsApart(tools) <==> IdsApart(tools[..last]) && !HasTool(tools[..last], tools[last].id))
  {
    var last := |tools| - 1;
    assert forall i :: 0 <= i < last ==> tools[..last][i] == tools[i];
  }

  lemma {:induction false} ToolPathsKeys(tools: seq<Tool>, id: ToolId)
    ensures id in ToolPaths(tools) <==> HasTool(tools, id)
  {
    if tools != [] {
      OneMoreTool(tools, id);
      ToolPathsKeys(tools[..|tools| - 1], id);
    }
  }

  lemma {:induction false} ToolPathsSize(tools: seq<Tool>)
    ensures |ToolPaths(tools)| <= |tools|
    ensures |ToolPaths(tools)| == |tools| <==> IdsApart(tools)
  {
    if tools != [] {
      var last := |tools| - 1;
      ToolPathsSize(tools[..last]);
      ToolPathsKeys(tools[..last], tools[last].id);
      OneMoreTool(tools, tools[last].id);
      MapSize(ToolPaths(tools[..last]), tools[last].id, tools[last].path);
    }
  }

  lemma {:induction false} ToolPathsAre(tools: seq<Tool>)
    requires IdsApart(tools)
    ensures forall i :: 0 <= i < |tools| ==>
              tools[i].id in ToolPaths(tools) && ToolPaths(tools)[tools[i].id] == tools[i].path
  {
    if tools != [] {
      var last := |tools| - 1;
      OneMoreTool(tools, tools[last].id);
      ToolPathsAre(tools[..last]);
      forall i | 0 <= i < last
        ensures tools[i].id in ToolPaths(tools) && ToolPaths(tools)[tools[i].id] == tools[i].path
      {
        assert tools[..last][i] == tools[i];
      }
    }
  }

  lemma ToolsExactly(tools: seq<Tool>, required: map<ToolId, Place>)
    ensures |tools| == |required| && ToolPaths(tools) == required <==> ToolsAre(tools, required)
  {
    ToolPathsSize(tools);
    forall id ensures id in ToolPaths(tools) <==> HasTool(tools, id) { ToolPathsKeys(tools, id); }
    if ToolsAre(tools, required) {
      ToolPathsAre(tools);
      assert ToolPaths(tools).Keys == required.Keys;
      assert ToolPaths(tools) == required;
    }
    if |tools| == |required| && ToolPaths(tools) == required { ToolPathsAre(tools); }
  }

  /** Every environment runs the scanner; those that build images a second one, and two have a tool of
      their own. */
  lemma ToolsByName(name: Name, temp: string)
    ensures var tools := RequiredTools(name, temp);
      && Trivy in tools && tools[Trivy] == EnvironmentTrivy(temp)
      && (ImageTrivy in tools <==>
            name in {ImageBuildBackend, ImageBuildFrontend, BaseNode, BaseNginx, BasePostgres, BaseNodeCi,
                     SupportPostgres, SupportIngress, SupportBuildkit})
      && (ImageTrivy in tools ==> tools[ImageTrivy] == HomecloudTrivy(temp))
      && (Compose in tools <==> name == Configuration) && (Compose in tools ==> tools[Compose] == ComposeBinary(temp))
      && (Gitleaks in tools <==> name == Secrets) && (Gitleaks in tools ==> tools[Gitleaks] == GitleaksBinary(temp))
      && forall id :: id in tools ==> id in {Trivy, ImageTrivy, Compose, Gitleaks}
  {
  }

  /** The component an environment's name calls for. */
  ghost function CalledFor(name: Name): ComponentId {
    match name
    case Backend | PrFastBackend | SecurityBackend => BackendTree
    case Frontend | SecurityFrontend => FrontendTree
    case _ => NoTree
  }

  ghost predicate InstalledAt(o: Observed, component: ComponentId) {
    o.component == component
    && o.target == if component.NoTree? then None else Some(NodeModules(o.workspace, component))
  }

  ghost predicate ReportsKept(o: Observed, component: ComponentId) {
    && (forall scope :: scope in o.recorded <==>
          scope in {Rootfs, GlobalNpm, Tools} || (scope == Component && !component.NoTree?))
    && (forall scope :: scope in o.recorded ==>
          scope in o.reports && scope in o.shas && o.shas[scope] == o.recorded[scope])
  }

  /** What binds an environment: this commit, a passed and validated record, the component its name calls
      for with its dependencies under the workspace, the right reports with the recorded bytes, and the
      tools. */
  ghost predicate EnvironmentTerms(o: Observed, name: Name, source: string) {
    && o.source == source && o.passed && o.validated
    && InstalledAt(o, CalledFor(name)) && ReportsKept(o, CalledFor(name))
    && ToolsAre(o.tools, RequiredTools(name, o.temp))
  }

  lemma ReportsTerms(o: Observed, component: ComponentId)
    ensures ReportsKept(o, component) <==> o.recorded.Keys == ReportSet(component != NoTree) && ReportsRetained(o)
  {
    KeysAre(o.recorded.Keys, ReportSet(component != NoTree));
  }

  lemma EnvironmentBoundExactly(o: Observed, name: Name, source: string)
    ensures EnvironmentBound(o, name, source) <==> EnvironmentTerms(o, name, source)
  {
    ToolsExactly(o.tools, RequiredTools(name, o.temp));
    ReportsTerms(o, CalledFor(name));
    BoundIs(o, name, source, RequiredTools(name, o.temp));
  }

  lemma BoundIs(o: Observed, name: Name, source: string, required: map<ToolId, Place>)
    requires required == RequiredTools(name, o.temp)
    ensures EnvironmentBound(o, name, source) <==>
            && o.source == source && o.passed && o.validated && InstalledAt(o, CalledFor(name))
            && o.recorded.Keys == ReportSet(CalledFor(name) != NoTree) && ReportsRetained(o)
            && |o.tools| == |required| && ToolPaths(o.tools) == required
  {
  }

  /** Which policy judges which scan: a hosted runner's own root file system by the provider's assurance,
      every other one strictly, and of those the root file system and any unnamed one by its operating
      system's packages, the others by language packages. */
  lemma ScanJudged(o: Observed, name: Name, scope: Scope)
    ensures Scan(o, name, scope).Ok? <==>
            scope in o.reports &&
            var report := o.reports[scope];
            if scope == Rootfs && name != Backend && name != PrFastBackend then
              && o.passed && o.id != Backend && o.id != PrFastBackend && o.hosted
              && report.artifactName == o.rootfsName && IsTree(report) && ScanTerms.CompleteTerms(report, true)
            else if scope == Component || scope == GlobalNpm || scope == Tools then
              IsTree(report) && ScanTerms.CompleteTerms(report, false) && ListsLanguagePackage(report)
            else IsTree(report) && ScanTerms.CompleteTerms(report, true)
  {
    if scope in o.reports {
      var report := o.reports[scope];
      ScanTerms.TreeJudged(report, scope in {Component, GlobalNpm, Tools});
      ScanTerms.PlatformJudged(report, o.passed, o.id, o.hosted, o.rootfsName);
    }
  }

  ghost predicate IsTree(report: Report) {
    report.artifactType == "filesystem" || report.artifactType == "rootfs"
  }

  ghost predicate ListsLanguagePackage(report: Report) {
    report.results.Items? &&
    exists r, p :: r in report.results.items && r.section == "lang-pkgs" && p in ScanTerms.PackagesOf(r)
  }

  // ---------------------------------------------------------------- baselines and rosters

  /** A baseline is delivered exactly on a complete report with a passed remote scan of the pinned input. */
  lemma BaselineExactly(directory: Directory, role: Name)
    ensures Baseline(directory, role).Ok? <==>
            && role in directory.bases && (role == NodeCi || role in directory.rawLock)
            && var files := directory.bases[role];
            && files.report.Some? && Evaluate(files.report.value, true).Ok?
            && var expected := if role == NodeCi then NODE_CI else directory.rawLock[role];
            files.sidecar == Some(Sidecar(true, Remote, expected, true))
  {
    if role in directory.bases && directory.bases[role].sidecar.Some? {
      var s := directory.bases[role].sidecar.value;
      assert s == Sidecar(s.passed, s.kind, s.reference, s.validated);
    }
  }

  /** A pull request leaves out the base environments and the baselines, and nothing else. */
  lemma RosterExactly(profile: Profile)
    ensures RosterOf(profile).runtime == RUNTIME && RosterOf(profile).build == BUILD
    ensures forall name :: name in RosterOf(profile).environments <==>
              name in ENVIRONMENTS && !(profile.PullRequest? && name in {BaseNode, BaseNginx, BasePostgres, BaseNodeCi})
    ensures RosterOf(profile).bases == if profile.PullRequest? then [] else RAW_BASES
  {
    forall name ensures name in BASE_ENVIRONMENTS <==> name in {BaseNode, BaseNginx, BasePostgres, BaseNodeCi} {
      BaseEnvironment(name);
    }
  }

  lemma BaseEnvironment(name: Name)
    ensures name in BASE_ENVIRONMENTS <==> name in {BaseNode, BaseNginx, BasePostgres, BaseNodeCi}
  {
  }

  // ---------------------------------------------------------------- the release

  ghost predicate NoSevereCounts(findings: map<string, nat>) {
    ("HIGH" in findings ==> findings["HIGH"] == 0) && ("CRITICAL" in findings ==> findings["CRITICAL"] == 0)
  }

  ghost predicate CleanScan(scan: Summary) {
    scan.gate == Pass && NoSevereCounts(scan.findings)
  }

  /** What a release demands of an image's entry. */
  ghost predicate ArtifactDemands(item: Artifact, role: Name, commit: string) {
    && item.gate == Pass && NoSevereCounts(item.findings)
    && item.binding == item.binding.(role := role, source := commit, platform := Expected, binding := Expected)
    && Digest64(item.binding.archive) && Digest64(item.binding.platformDigest)
    && Digest64(item.binding.configDigest) && Digest64(item.binding.scan)
  }

  /** And of an environment's: every scan clean but that of a hosted runner's own root file system, which
      stands under the provider's assurance. */
  ghost predicate EntryDemands(item: Environment, commit: string, component: bool, pinned: bool) {
    && item.gate == Pass && item.source == commit
    && (forall scope :: scope in item.scans <==>
          scope in {Rootfs, GlobalNpm, Tools} || (scope == Component && component))
    && RootDemands(item, pinned)
    && forall scope :: scope in item.scans && scope != Rootfs ==> CleanScan(item.scans[scope])
  }

  ghost predicate EnvironmentDemands(item: Environment, name: Name, commit: string) {
    EntryDemands(item, commit, name in {Backend, PrFastBackend, Frontend, SecurityBackend, SecurityFrontend},
                 name in {Backend, PrFastBackend})
  }

  lemma CountsTerms(findings: map<string, nat>)
    ensures SevereCounts(findings) <==> !NoSevereCounts(findings)
  {
  }

  lemma ArtifactTerms(item: Artifact, role: Name, commit: string)
    ensures ArtifactAccepted(item, role, commit) <==> ArtifactDemands(item, role, commit)
  {
    CountsTerms(item.findings);
    DigestTerms(item.binding.archive);
    DigestTerms(item.binding.platformDigest);
    DigestTerms(item.binding.configDigest);
    DigestTerms(item.binding.scan);
  }

  /** The root file system, by the runner it belongs to. */
  ghost predicate RootDemands(item: Environment, pinned: bool)
  {
    Rootfs in item.scans &&
    var rootfs := item.scans[Rootfs];
    if pinned then item.policy == PinnedStrict && CleanScan(rootfs)
    else item.policy == HostedAssurance && rootfs.gate == PlatformAssurance && rootfs.retained
         && rootfs.riskDomain == "github-hosted-runner-platform"
  }

  lemma CleanTerms(scan: Summary)
    ensures ScanAccepted(scan) <==> CleanScan(scan)
  {
    CountsTerms(scan.findings);
  }

  lemma RootTerms(item: Environment, name: Name)
    requires Rootfs in item.scans
    ensures RootAccepted(item, name) <==> RootDemands(item, name in RELEASE_PINNED)
  {
    CleanTerms(item.scans[Rootfs]);
  }

  lemma OthersTerms(item: Environment, name: Name)
    requires Rootfs in item.scans && RootAccepted(item, name)
    ensures (forall role :: role in item.scans && !(role == Rootfs && name !in RELEASE_PINNED) ==>
               ScanAccepted(item.scans[role])) <==>
            forall scope :: scope in item.scans && scope != Rootfs ==> CleanScan(item.scans[scope])
  {
    forall scope | scope in item.scans ensures ScanAccepted(item.scans[scope]) <==> CleanScan(item.scans[scope]) {
      CleanTerms(item.scans[scope]);
    }
  }

  lemma EntryTerms(item: Environment, name: Name, commit: string)
    ensures EnvironmentAccepted(item, name, commit) <==>
            EntryDemands(item, commit, name in RELEASE_COMPONENTS, name in RELEASE_PINNED)
  {
    ScansTerms(item, name in RELEASE_COMPONENTS);
    if Rootfs in item.scans {
      RootTerms(item, name);
      if RootAccepted(item, name) { OthersTerms(item, name); }
    }
  }

  lemma EnvironmentEntryTerms(item: Environment, name: Name, commit: string)
    ensures EnvironmentAccepted(item, name, commit) <==> EnvironmentDemands(item, name, commit)
  {
    EntryTerms(item, name, commit);
    assert name in RELEASE_COMPONENTS <==>
      name in {Backend, PrFastBackend, Frontend, SecurityBackend, SecurityFrontend};
  }

  lemma ScansTerms(item: Environment, component: bool)
    ensures item.scans.Keys == (if component then {Rootfs, GlobalNpm, Tools, Component} else {Rootfs, GlobalNpm, Tools})
            <==> forall scope :: scope in item.scans <==>
                   scope in {Rootfs, GlobalNpm, Tools} || (scope == Component && component)
  {
    var expected: set<Scope> := if component then {Rootfs, GlobalNpm, Tools, Component} else {Rootfs, GlobalNpm, Tools};
    KeysAre(item.scans.Keys, expected);
  }

  /** Exactly these entries, each as demanded. */
  ghost predicate ArtifactsDemanded(items: map<Name, Artifact>, expected: set<Name>, commit: string) {
    && (forall role :: role in items <==> role in expected)
    && forall role :: role in items ==> ArtifactDemands(items[role], role, commit)
  }

  ghost predicate EnvironmentsDemanded(items: map<Name, Environment>, commit: string) {
    && items.Keys == (set name | name in ENVIRONMENTS)
    && forall name :: name in items ==> EnvironmentDemands(items[name], name, commit)
  }

  lemma KeysAre<T>(keys: set<T>, expected: set<T>)
    ensures keys == expected <==> forall x :: x in keys <==> x in expected
  {
  }

  lemma ArtifactsTerms(items: map<Name, Artifact>, expected: set<Name>, commit: string)
    ensures ArtifactsAccepted(items, expected, commit) <==> ArtifactsDemanded(items, expected, commit)
  {
    forall role | role in items
      ensures ArtifactAccepted(items[role], role, commit) <==> ArtifactDemands(items[role], role, commit)
    {
      ArtifactTerms(items[role], role, commit);
    }
    KeysAre(items.Keys, expected);
  }

  lemma AllEntries(items: map<Name, Environment>, commit: string, expected: set<Name>)
    ensures EnvironmentsAccepted(items, expected, commit) <==>
            items.Keys == expected && forall name :: name in items ==> EnvironmentDemands(items[name], name, commit)
  {
    forall name | name in items
      ensures EnvironmentAccepted(items[name], name, commit) <==> EnvironmentDemands(items[name], name, commit)
    {
      EnvironmentEntryTerms(items[name], name, commit);
    }
  }

  lemma EnvironmentsTerms(items: map<Name, Environment>, commit: string)
    ensures EnvironmentsAccepted(items, RELEASE_ENVIRONMENTS, commit) <==> EnvironmentsDemanded(items, commit)
  {
    AllEntries(items, commit, RELEASE_ENVIRONMENTS);
    SameEnvironments();
  }

  /** The entries of a record: the four runtime images, the five build images, all environments and the
      four diagnosed baselines. */
  ghost predicate ContentsDemanded(value: Record, commit: string) {
    && ArtifactsDemanded(value.runtime, {Backend, Frontend, Postgres, Ingress}, commit)
    && ArtifactsDemanded(value.build, {BackendDeps, BackendBuilder, FrontendDeps, FrontendBuilder, Buildkit}, commit)
    && EnvironmentsDemanded(value.environments, commit)
    && value.rawBases.Keys == {Node, Nginx, Postgres, NodeCi}
    && forall role :: role in value.rawBases ==> value.rawBases[role].gate == Diagnostic
  }

  lemma ContentsTerms(value: Record, commit: string)
    ensures ContentsAccepted(value, commit) <==> ContentsDemanded(value, commit)
  {
    ArtifactsTerms(value.runtime, RELEASE_RUNTIME, commit);
    ArtifactsTerms(value.build, RELEASE_BUILD, commit);
    EnvironmentsTerms(value.environments, commit);
  }

  /** What a release demands of any record, whoever wrote it. */
  lemma AcceptedDemands(value: Record, commit: string, run: Option<(string, string)>)
    ensures Accepted(value, commit, run) <==>
            && value.format == Expected && value.profile == Release && value.source == commit
            && value.policy == Expected && value.production == Expected
            && value.pass && value.covered && value.errors == []
            && IsNumber(value.runId) && IsNumber(value.attempt)
            && (run == None || run == Some((value.runId, value.attempt)))
            && ContentsDemanded(value, commit)
  {
    ContentsTerms(value, commit);
  }
}

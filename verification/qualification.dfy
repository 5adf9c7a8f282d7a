/** The production qualification record: how it is produced from the evidence of one run
    (scripts/ci/policy-coverage.py), and how a release independently decides whether to accept it
    (scripts/ci/release.py). */
module Qualifications {
  import opened Bytes
  import opened Roles
  import opened ScanPolicy
  import Text

  datatype Profile = PullRequest | Mainline | Release

  // ---------------------------------------------------------------- the evidence of a run

  /** A member that is only ever compared with one fixed string: that string, or another one. */
  datatype Fixed = Expected | Unexpected(text: string)

  datatype Kind = Archive | Remote | OtherKind(text: string)

  datatype Binding = Binding(format: Fixed, role: Name, source: string, platform: Fixed, binding: Fixed,
                             archive: string, platformDigest: string, configDigest: string, scan: string)

  /** `validated` is the outcome of the scan database, scanner and target checks. */
  datatype Sidecar = Sidecar(passed: bool, kind: Kind, reference: string, validated: bool)

  datatype Loaded = Loaded(binding: Fixed, role: Name, source: string, platformDigest: string, configDigest: string)

  datatype Cache = Cache(status: Fixed, role: Name, source: string, progress: string, metadata: string,
                         configDigest: string, runtimeDigest: string)

  /** The files of one image; None when there is not exactly one such file, or it cannot be read. */
  datatype ImageFiles = ImageFiles(binding: Option<Binding>, report: Option<Report>, reportSha: string,
                                   sidecar: Option<Sidecar>, loaded: Option<Loaded>, cache: Option<Cache>,
                                   progressSha: Option<string>, metadataSha: Option<string>)

  datatype Tool = Tool(id: ToolId, path: Place)

  /** One environment.json and the reports beside it. `hosted` and `validated` are the outcomes of
      the runner identity checks and of the inventory and freshness checks. */
  datatype Observed = Observed(id: Name, source: string, passed: bool, component: ComponentId, target: Option<Place>,
                               workspace: string, temp: string, recorded: map<Scope, string>, tools: seq<Tool>,
                               reports: map<Scope, Report>, shas: map<Scope, string>, rootfsName: string,
                               hosted: bool, validated: bool)

  datatype EnvironmentFile = Unreadable | Readable(observed: Observed)

  datatype BaseFiles = BaseFiles(report: Option<Report>, sidecar: Option<Sidecar>)

  /** A downloaded evidence directory, with the repository's two lock files. */
  datatype Directory = Directory(images: map<Name, ImageFiles>, environments: seq<EnvironmentFile>,
                                 bases: map<Name, BaseFiles>, lock: map<Name, string>, rawLock: map<Name, string>)

  // ---------------------------------------------------------------- the record

  datatype Artifact = Artifact(binding: Binding, findings: map<string, nat>, gate: Gate)

  datatype RunnerPolicy = HostedAssurance | PinnedStrict | OtherPolicy

  datatype Environment = Environment(source: string, scans: map<Scope, Summary>, policy: RunnerPolicy, gate: Gate)

  datatype Group = RuntimeGroup | BuildGroup | EnvironmentGroup | BaseGroup

  datatype Failure = Failed(group: Group, name: Name) | MissingRunIdentity

  datatype Record = Record(format: Fixed, profile: Profile, source: string, production: Fixed, policy: Fixed,
                           runtime: map<Name, Artifact>, build: map<Name, Artifact>,
                           environments: map<Name, Environment>, rawBases: map<Name, Summary>,
                           errors: seq<Failure>, pass: bool, covered: bool, runId: string, attempt: string)

  const NODE_CI := "node:24.21.0-bookworm-slim@sha256:51b1100cc2a83d370c6a60952e3f2989c8a43159d0e38586e090f3b3326efefd"

  predicate IsHex(s: string) {
    forall c :: c in s ==> '0' <= c <= '9' || 'a' <= c <= 'f'
  }

  predicate IsCommit(s: string) {
    |s| == 40 && IsHex(s)
  }

  predicate IsDigest(s: string) {
    Text.StartsWith(s, "sha256:") && |s| == 71 && IsHex(s[7..])
  }

  predicate IsNumber(s: string) {
    s != "" && forall c :: c in s ==> '0' <= c <= '9'
  }

  // ---------------------------------------------------------------- the producer

  const RUNTIME := [Backend, Frontend, Postgres, Ingress]
  const STAGES := [BackendDeps, BackendBuilder, FrontendDeps, FrontendBuilder]
  const BUILD := STAGES + [Buildkit]
  const BASE_ENVIRONMENTS := [BaseNode, BaseNginx, BasePostgres, BaseNodeCi]
  const ENVIRONMENTS :=
    [Backend, PrFastBackend, Frontend, Configuration, ImageBuildBackend, ImageBuildFrontend,
     ProvenancePair, BaseNode, BaseNginx, BasePostgres, BaseNodeCi, SecurityBackend,
     SecurityFrontend, Secrets, SupportPostgres, SupportIngress, SupportBuildkit]
  const RAW_BASES := [Node, Nginx, Postgres, NodeCi]

  function ComponentOf(name: Name): ComponentId {
    match name
    case Backend | PrFastBackend | SecurityBackend => BackendTree
    case Frontend | SecurityFrontend => FrontendTree
    case _ => NoTree
  }

  /** The runtime image named by the first word of a build stage's name. */
  function RuntimeOf(stage: Name): Name {
    if stage in [BackendDeps, BackendBuilder] then Backend else Frontend
  }

  predicate BindingMatches(b: Binding, role: Name, source: string) {
    && b.format == Expected && b.role == role && b.source == source && b.platform == Expected && b.binding == Expected
    && IsDigest(b.archive) && IsDigest(b.platformDigest) && IsDigest(b.configDigest) && IsDigest(b.scan)
  }

  predicate ScanMatches(b: Binding, files: ImageFiles) {
    && files.report.Some? && b.scan == "sha256:" + files.reportSha && files.report.value.imageId == b.configDigest
    && files.sidecar.Some? && files.sidecar.value.passed && files.sidecar.value.kind == Archive
    && files.sidecar.value.validated
  }

  predicate IsNodeResult(result: ScanResult) {
    result.section == "lang-pkgs" && result.language == "node-pkg"
  }

  function NodePackages(results: seq<ScanResult>): seq<Package> {
    if results == [] then []
    else
      (if IsNodeResult(results[0]) && results[0].packages.Items? then results[0].packages.items else [])
      + NodePackages(results[1..])
  }

  predicate NodePackagesScanned(report: Report, role: Name) {
    role == Backend || role in STAGES ==>
      && report.results.Items?
      && (forall r :: r in report.results.items && IsNodeResult(r) ==> !r.packages.Unlisted?)
      && var packages := NodePackages(report.results.items);
         packages != [] && (forall p :: p in packages ==> p.name != "" && p.version != "")
         && (role in STAGES ==> exists p :: p in packages && p.name == "npm")
  }

  predicate LoadedMatches(b: Binding, loaded: Option<Loaded>) {
    loaded.Some? && loaded.value == Loaded(Expected, b.role, b.source, b.platformDigest, b.configDigest)
  }

  /** A build stage comes from the same cached build as the runtime image named by its first word. */
  predicate CacheMatches(directory: Directory, b: Binding, files: ImageFiles) {
    var runtime := RuntimeOf(b.role);
    && files.progressSha.Some? && files.metadataSha.Some?
    && runtime in directory.images && directory.images[runtime].binding.Some?
    && files.cache == Some(Cache(Expected, b.role, b.source, files.progressSha.value, files.metadataSha.value,
                                 b.configDigest, directory.images[runtime].binding.value.platformDigest))
  }

  predicate LockMatches(directory: Directory, b: Binding) {
    b.role in [Postgres, Ingress, Buildkit] ==>
      b.role in directory.lock && directory.lock[b.role] == b.platformDigest
  }

  /** The checks of one image's binding, scan, lock, smoke test and build cache. */
  predicate ImageBound(directory: Directory, role: Name, source: string) {
    role in directory.images &&
    var files := directory.images[role];
    files.binding.Some? &&
    var b := files.binding.value;
    && BindingMatches(b, role, source) && ScanMatches(b, files) && NodePackagesScanned(files.report.value, role)
    && LockMatches(directory, b)
    && (role in [Backend, Frontend] ==> LoadedMatches(b, files.loaded))
    && (role in STAGES ==> CacheMatches(directory, b, files))
  }

  function Image(directory: Directory, role: Name, source: string): Result<Artifact> {
    if !ImageBound(directory, role, source) || Evaluate(directory.images[role].report.value, false).Err? then Err
    else
      var files := directory.images[role];
      var summary := Evaluate(files.report.value, false).value;
      Ok(Artifact(files.binding.value, summary.findings, summary.gate))
  }

  function Matching(files: seq<EnvironmentFile>, name: Name): seq<Observed> {
    if files == [] then []
    else (if files[0].Readable? && files[0].observed.id == name then [files[0].observed] else [])
         + Matching(files[1..], name)
  }

  /** Exactly one environment of that name; one unreadable file spoils the search for every name. */
  function Find(files: seq<EnvironmentFile>, name: Name): Result<Observed> {
    var found := Matching(files, name);
    if Unreadable in files || |found| != 1 then Err else Ok(found[0])
  }

  function TargetOf(observed: Observed, component: ComponentId): Option<Place> {
    if component == NoTree then None else Some(NodeModules(observed.workspace, component))
  }

  function ReportSet(component: bool): set<Scope> {
    if component then {Rootfs, GlobalNpm, Component, Tools} else {Rootfs, GlobalNpm, Tools}
  }

  predicate BuildsImages(name: Name) {
    name.ImageBuildBackend? || name.ImageBuildFrontend? || name.BaseNode? || name.BaseNginx? || name.BasePostgres?
    || name.BaseNodeCi? || name.SupportPostgres? || name.SupportIngress? || name.SupportBuildkit?
  }

  function RequiredTools(name: Name, temp: string): map<ToolId, Place> {
    map[Trivy := EnvironmentTrivy(temp)]
    + (if BuildsImages(name) then map[ImageTrivy := HomecloudTrivy(temp)] else map[])
    + (if name == Configuration then map[Compose := ComposeBinary(temp)] else map[])
    + (if name == Secrets then map[Gitleaks := GitleaksBinary(temp)] else map[])
  }

  function ToolPaths(tools: seq<Tool>): map<ToolId, Place> {
    if tools == [] then map[]
    else var last := |tools| - 1; ToolPaths(tools[..last])[tools[last].id := tools[last].path]
  }

  predicate ReportsRetained(observed: Observed) {
    forall role :: role in observed.recorded ==>
      role in observed.reports && role in observed.shas && observed.shas[role] == observed.recorded[role]
  }

  /** The checks of one environment's identity, component, tools and retained reports. */
  predicate EnvironmentBound(observed: Observed, name: Name, source: string) {
    && observed.source == source && observed.passed
    && observed.component == ComponentOf(name) && observed.target == TargetOf(observed, ComponentOf(name))
    && observed.recorded.Keys == ReportSet(ComponentOf(name) != NoTree)
    && |observed.tools| == |RequiredTools(name, observed.temp)|
    && ToolPaths(observed.tools) == RequiredTools(name, observed.temp)
    && ReportsRetained(observed) && observed.validated
  }

  /** The root file system of a hosted runner is the only scan outside this project's control. */
  predicate Controlled(name: Name, role: Scope) {
    role != Rootfs || name in PINNED
  }

  function Scan(observed: Observed, name: Name, role: Scope): Result<Summary> {
    if role !in observed.reports then Err
    else if Controlled(name, role) then
      EvaluateEnvironment(observed.reports[role], role in {Component, GlobalNpm, Tools})
    else
      EvaluateHostPlatform(observed.reports[role], observed.passed, observed.id, observed.hosted, observed.rootfsName)
  }

  predicate Scanned(observed: Observed, name: Name) {
    forall role :: role in observed.recorded ==> Scan(observed, name, role).Ok?
  }

  function Scans(observed: Observed, name: Name): map<Scope, Summary>
    requires Scanned(observed, name)
  {
    map role | role in observed.recorded :: Scan(observed, name, role).value
  }

  /** Blocked as soon as one scan is neither passing nor under the provider's assurance. */
  function JointGate(scans: map<Scope, Summary>): Gate {
    if exists role :: role in scans && scans[role].gate !in {Pass, PlatformAssurance} then Blocked else Pass
  }

  function EnvironmentOf(observed: Observed, name: Name, source: string): Environment
    requires Scanned(observed, name)
  {
    var scans := Scans(observed, name);
    Environment(source, scans, if name in PINNED then PinnedStrict else HostedAssurance, JointGate(scans))
  }

  function CheckEnvironment(directory: Directory, name: Name, source: string): Result<Environment> {
    var found := Find(directory.environments, name);
    if found.Err? || !EnvironmentBound(found.value, name, source) || !Scanned(found.value, name) then Err
    else Ok(EnvironmentOf(found.value, name, source))
  }

  function Baseline(directory: Directory, role: Name): Result<Summary> {
    if role !in directory.bases || (role != NodeCi && role !in directory.rawLock) then Err
    else
      var files := directory.bases[role];
      var expected := if role == NodeCi then NODE_CI else directory.rawLock[role];
      if files.report.None? || files.sidecar.None? || !files.sidecar.value.passed || files.sidecar.value.kind != Remote
         || files.sidecar.value.reference != expected || !files.sidecar.value.validated then Err
      else Evaluate(files.report.value, true)
  }

  function Succeeded<T>(names: seq<Name>, check: Name -> Result<T>): map<Name, T> {
    map name | name in names && check(name).Ok? :: check(name).value
  }

  function Failures<T>(group: Group, names: seq<Name>, check: Name -> Result<T>): (failures: seq<Failure>)
    ensures failures == [] <==> forall name :: name in names ==> check(name).Ok?
  {
    if names == [] then []
    else
      var last := |names| - 1;
      assert forall name :: name in names <==> name in names[..last] || name == names[last];
      Failures(group, names[..last], check) + if check(names[last]).Ok? then [] else [Failed(group, names[last])]
  }

  lemma AttemptStep<T>(group: Group, names: seq<Name>, check: Name -> Result<T>, i: nat)
    requires i < |names|
    ensures Succeeded(names[..i + 1], check) ==
            if check(names[i]).Ok? then Succeeded(names[..i], check)[names[i] := check(names[i]).value]
            else Succeeded(names[..i], check)
    ensures Failures(group, names[..i + 1], check) ==
            Failures(group, names[..i], check) + if check(names[i]).Ok? then [] else [Failed(group, names[i])]
  {
    assert names[..i + 1][..i] == names[..i];
    assert forall name :: name in names[..i + 1] <==> name in names[..i] || name == names[i];
  }

  /** One group of attempts: a check that raises becomes an error and leaves no entry. */
  method Attempt<T>(group: Group, names: seq<Name>, check: Name -> Result<T>, earlier: seq<Failure>)
    returns (items: map<Name, T>, errors: seq<Failure>)
    ensures items == Succeeded(names, check)
    ensures errors == earlier + Failures(group, names, check)
  {
    items, errors := map[], earlier;
    for i := 0 to |names|
      invariant items == Succeeded(names[..i], check)
      invariant errors == earlier + Failures(group, names[..i], check)
    {
      AttemptStep(group, names, check, i);
      var outcome := check(names[i]);
      if outcome.Ok? {
        items := items[names[i] := outcome.value];
      } else {
        errors := errors + [Failed(group, names[i])];
      }
    }
    assert names[..|names|] == names;
  }

  /** The roles and names a record must cover, group by group. */
  datatype Roster = Roster(runtime: seq<Name>, build: seq<Name>, environments: seq<Name>, bases: seq<Name>)

  const FULL_ROSTER := Roster(RUNTIME, BUILD, ENVIRONMENTS, RAW_BASES)

  function RosterOf(profile: Profile): Roster {
    if profile == PullRequest then Roster(RUNTIME, BUILD, Outside(ENVIRONMENTS, BASE_ENVIRONMENTS), [])
    else FULL_ROSTER
  }

  function Outside(names: seq<Name>, excluded: seq<Name>): (kept: seq<Name>)
    ensures forall name :: name in kept <==> name in names && name !in excluded
  {
    if names == [] then []
    else
      assert forall name :: name in names <==> name == names[0] || name in names[1..];
      (if names[0] in excluded then [] else [names[0]]) + Outside(names[1..], excluded)
  }

  /** The three kinds of checks, as functions of a name. */
  datatype Checks = Checks(image: Name -> Result<Artifact>, environment: Name -> Result<Environment>,
                           baseline: Name -> Result<Summary>)

  function ChecksOf(directory: Directory, source: string): Checks {
    Checks(role => Image(directory, role, source), name => CheckEnvironment(directory, name, source),
           role => Baseline(directory, role))
  }

  function Errors(checks: Checks, roster: Roster): seq<Failure> {
    ImageErrors(checks, roster) + OtherErrors(checks, roster)
  }

  function ImageErrors(checks: Checks, roster: Roster): seq<Failure> {
    Failures(RuntimeGroup, roster.runtime, checks.image) + Failures(BuildGroup, roster.build, checks.image)
  }

  function OtherErrors(checks: Checks, roster: Roster): seq<Failure> {
    Failures(EnvironmentGroup, roster.environments, checks.environment)
    + Failures(BaseGroup, roster.bases, checks.baseline)
  }

  predicate GatesPass(runtime: map<Name, Artifact>, build: map<Name, Artifact>, environments: map<Name, Environment>) {
    && (forall role :: role in runtime ==> runtime[role].gate == Pass)
    && (forall role :: role in build ==> build[role].gate == Pass)
    && (forall name :: name in environments ==> environments[name].gate == Pass)
  }

  /** It passes when nothing failed and every gate passes, and covers when nothing failed. */
  function Assembled(profile: Profile, source: string, runtime: map<Name, Artifact>, build: map<Name, Artifact>,
                     environments: map<Name, Environment>, bases: map<Name, Summary>, errors: seq<Failure>): Record {
    Record(Expected, profile, source, Expected, Expected, runtime, build, environments, bases, errors,
           errors == [] && GatesPass(runtime, build, environments), errors == [], "", "")
  }

  /** The record over a roster, before the run is identified. */
  function Uncertified(checks: Checks, source: string, profile: Profile, roster: Roster): Record {
    Assembled(profile, source, Succeeded(roster.runtime, checks.image), Succeeded(roster.build, checks.image),
              Succeeded(roster.environments, checks.environment), Succeeded(roster.bases, checks.baseline),
              Errors(checks, roster))
  }

  /** The record of a run: one that is not numbered neither passes nor covers. */
  function Certificate(directory: Directory, source: string, profile: Profile, runId: string, attempt: string): Record {
    Identified(Uncertified(ChecksOf(directory, source), source, profile, RosterOf(profile)), runId, attempt)
  }

  function Identified(value: Record, runId: string, attempt: string): Record {
    var numbered := IsNumber(runId) && IsNumber(attempt);
    value.(errors := if numbered then value.errors else value.errors + [MissingRunIdentity],
           pass := value.pass && numbered, covered := value.covered && numbered, runId := runId, attempt := attempt)
  }

  /** The image groups: runtime, then build. */
  method CollectImages(checks: Checks, roster: Roster)
    returns (runtime: map<Name, Artifact>, build: map<Name, Artifact>, errors: seq<Failure>)
    ensures runtime == Succeeded(roster.runtime, checks.image) && build == Succeeded(roster.build, checks.image)
    ensures errors == ImageErrors(checks, roster)
  {
    runtime, errors := Attempt(RuntimeGroup, roster.runtime, checks.image, []);
    build, errors := Attempt(BuildGroup, roster.build, checks.image, errors);
  }

  /** The other groups, on the same list of errors. */
  method CollectOthers(checks: Checks, roster: Roster, earlier: seq<Failure>)
    returns (environments: map<Name, Environment>, bases: map<Name, Summary>, errors: seq<Failure>)
    ensures environments == Succeeded(roster.environments, checks.environment)
    ensures bases == Succeeded(roster.bases, checks.baseline)
    ensures errors == earlier + OtherErrors(checks, roster)
  {
    environments, errors := Attempt(EnvironmentGroup, roster.environments, checks.environment, earlier);
    bases, errors := Attempt(BaseGroup, roster.bases, checks.baseline, errors);
  }

  /** The producer over a roster. */
  method Qualify(checks: Checks, source: string, profile: Profile, roster: Roster) returns (r: Record)
    ensures r == Uncertified(checks, source, profile, roster)
  {
    var runtime, build, errors := CollectImages(checks, roster);
    var environments, bases;
    environments, bases, errors := CollectOthers(checks, roster, errors);
    return Assembled(profile, source, runtime, build, environments, bases, errors);
  }

  /** What the producer's entry point writes; a source that is not a full commit writes no record. */
  method WriteRecord(directory: Directory, source: string, profile: Profile, runId: string, attempt: string)
    returns (r: Result<Record>)
    ensures r == if IsCommit(source) then Ok(Certificate(directory, source, profile, runId, attempt)) else Err
  {
    if !IsCommit(source) { return Err; }
    var value := Qualify(ChecksOf(directory, source), source, profile, RosterOf(profile));
    if !IsNumber(runId) || !IsNumber(attempt) {
      value := value.(errors := value.errors + [MissingRunIdentity], pass := false, covered := false);
    }
    return Ok(value.(runId := runId, attempt := attempt));
  }

  // ---------------------------------------------------------------- the consumer

  const RELEASE_RUNTIME := {Backend, Frontend, Postgres, Ingress}
  const RELEASE_BUILD := {BackendDeps, BackendBuilder, FrontendDeps, FrontendBuilder, Buildkit}
  const RELEASE_ENVIRONMENTS :=
    {Backend, PrFastBackend, Frontend, Configuration, ImageBuildBackend, ImageBuildFrontend,
     ProvenancePair, BaseNode, BaseNginx, BasePostgres, BaseNodeCi, SecurityBackend,
     SecurityFrontend, Secrets, SupportPostgres, SupportIngress, SupportBuildkit}
  const RELEASE_COMPONENTS := {Backend, PrFastBackend, Frontend, SecurityBackend, SecurityFrontend}
  const RELEASE_PINNED := {Backend, PrFastBackend}
  const RELEASE_BASES := {Node, Nginx, Postgres, NodeCi}

  predicate ArtifactAccepted(item: Artifact, role: Name, commit: string) {
    && item.gate == Pass && item.binding.source == commit && item.binding.role == role
    && item.binding.platform == Expected && item.binding.binding == Expected
    && IsDigest(item.binding.archive) && IsDigest(item.binding.platformDigest)
    && IsDigest(item.binding.configDigest) && IsDigest(item.binding.scan)
    && !SevereCounts(item.findings)
  }

  predicate ScanAccepted(scan: Summary) {
    scan.gate == Pass && !SevereCounts(scan.findings)
  }

  predicate RootAccepted(item: Environment, name: Name)
    requires Rootfs in item.scans
  {
    var rootfs := item.scans[Rootfs];
    if name in RELEASE_PINNED then item.policy == PinnedStrict && ScanAccepted(rootfs)
    else item.policy == HostedAssurance && rootfs.gate == PlatformAssurance && rootfs.riskDomain == RISK_DOMAIN
         && rootfs.retained
  }

  predicate EnvironmentAccepted(item: Environment, name: Name, commit: string) {
    && item.gate == Pass && item.source == commit
    && item.scans.Keys == (if name in RELEASE_COMPONENTS then {Rootfs, GlobalNpm, Tools, Component}
                           else {Rootfs, GlobalNpm, Tools})
    && RootAccepted(item, name)
    && forall role :: role in item.scans && !(role == Rootfs && name !in RELEASE_PINNED) ==>
      ScanAccepted(item.scans[role])
  }

  predicate HeaderAccepted(value: Record, commit: string, run: Option<(string, string)>) {
    && value.format == Expected && value.profile == Release && value.source == commit
    && IsNumber(value.runId) && IsNumber(value.attempt)
    && (run.Some? ==> (value.runId, value.attempt) == run.value)
    && value.pass && value.covered && value.policy == Expected && value.production == Expected && value.errors == []
  }

  predicate ArtifactsAccepted(items: map<Name, Artifact>, expected: set<Name>, commit: string) {
    items.Keys == expected && forall role :: role in items ==> ArtifactAccepted(items[role], role, commit)
  }

  predicate EnvironmentsAccepted(items: map<Name, Environment>, expected: set<Name>, commit: string) {
    items.Keys == expected && forall name :: name in items ==> EnvironmentAccepted(items[name], name, commit)
  }

  predicate BaselinesAccepted(items: map<Name, Summary>) {
    items.Keys == RELEASE_BASES && forall role :: role in items ==> items[role].gate == Diagnostic
  }

  predicate ContentsAccepted(value: Record, commit: string) {
    && ArtifactsAccepted(value.runtime, RELEASE_RUNTIME, commit)
    && ArtifactsAccepted(value.build, RELEASE_BUILD, commit)
    && EnvironmentsAccepted(value.environments, RELEASE_ENVIRONMENTS, commit)
    && BaselinesAccepted(value.rawBases)
  }

  /** The release's decision over any record. */
  predicate Accepted(value: Record, commit: string, run: Option<(string, string)>) {
    HeaderAccepted(value, commit, run) && ContentsAccepted(value, commit)
  }

  // ---------------------------------------------------------------- agreement

  /** The image's evidence is bound to the commit and its scan lists no severe finding. */
  predicate ImageClean(directory: Directory, role: Name, source: string) {
    && ImageBound(directory, role, source)
    && var report := directory.images[role].report.value;
       ScannedImage(report) && Complete(report, true) && !Severe(report)
  }

  lemma ImageVerdict(directory: Directory, role: Name, source: string)
    ensures var r := Image(directory, role, source);
            && (r.Ok? && r.value.gate == Pass <==> ImageClean(directory, role, source))
            && (r.Ok? && r.value.gate == Pass ==> ArtifactAccepted(r.value, role, source))
  {
    if ImageBound(directory, role, source) {
      var report := directory.images[role].report.value;
      GatesAreExact(report, false, true, role, true, "");
    }
  }

  /** The environment's evidence is bound to the commit, every scan is complete, and no scan lists a
      severe finding, except that of a hosted runner's own root file system. */
  predicate EnvironmentClean(directory: Directory, name: Name, source: string) {
    var found := Find(directory.environments, name);
    && found.Ok? && EnvironmentBound(found.value, name, source) && Scanned(found.value, name)
    && forall role :: role in found.value.recorded && Controlled(name, role) ==> !Severe(found.value.reports[role])
  }

  lemma ScanVerdict(observed: Observed, name: Name, role: Scope)
    requires role in observed.reports && Scan(observed, name, role).Ok?
    ensures var s := Scan(observed, name, role).value;
            if Controlled(name, role) then
              (s.gate == Pass <==> !Severe(observed.reports[role])) && (s.gate == Pass || s.gate == Blocked)
              && (s.gate == Pass ==> ScanAccepted(s))
            else s.gate == PlatformAssurance && s.riskDomain == RISK_DOMAIN && s.retained
  {
    var component := role in {Component, GlobalNpm, Tools};
    GatesAreExact(observed.reports[role], component, observed.passed, observed.id, observed.hosted,
        observed.rootfsName);
  }

  /** Both sides install a component in the same environments. */
  predicate ComponentsAgree(name: Name) {
    ComponentOf(name) != NoTree <==> name in RELEASE_COMPONENTS
  }

  lemma SameComponents(name: Name)
    requires name in ENVIRONMENTS
    ensures ComponentsAgree(name)
  {
    assert ComponentOf(name) == BackendTree <==> name in {Backend, PrFastBackend, SecurityBackend};
    assert ComponentOf(name) == FrontendTree <==> name in {Frontend, SecurityFrontend};
  }

  lemma SamePinned(name: Name)
    ensures name in PINNED <==> name in RELEASE_PINNED
  {
  }

  predicate ScanSound(s: Summary, name: Name, role: Scope) {
    if Controlled(name, role) then ScanAccepted(s)
    else s.gate == PlatformAssurance && s.riskDomain == RISK_DOMAIN && s.retained
  }

  lemma ScansVerdict(observed: Observed, name: Name)
    requires Scanned(observed, name) && ReportsRetained(observed)
    ensures var scans := Scans(observed, name);
            && (JointGate(scans) == Pass <==>
                forall role :: role in observed.recorded && Controlled(name, role) ==> !Severe(observed.reports[role]))
            && (JointGate(scans) == Pass ==> forall role :: role in scans ==> ScanSound(scans[role], name, role))
  {
    var scans := Scans(observed, name);
    assert scans.Keys == observed.recorded.Keys;
    forall role | role in observed.recorded
      ensures scans[role].gate in {Pass, PlatformAssurance} <==> Controlled(name, role) ==>
        !Severe(observed.reports[role])
      ensures scans[role].gate in {Pass, PlatformAssurance} ==> ScanSound(scans[role], name, role)
    {
      ScanVerdict(observed, name, role);
    }
  }

  lemma EnvironmentGate(directory: Directory, name: Name, source: string)
    ensures var r := CheckEnvironment(directory, name, source);
            r.Ok? && r.value.gate == Pass <==> EnvironmentClean(directory, name, source)
  {
    if CheckEnvironment(directory, name, source).Ok? {
      ScansVerdict(Find(directory.environments, name).value, name);
    }
  }

  lemma SoundIsAccepted(item: Environment, name: Name, source: string)
    requires item.gate == Pass && item.source == source
    requires item.policy == if name in PINNED then PinnedStrict else HostedAssurance
    requires item.scans.Keys == ReportSet(name in RELEASE_COMPONENTS)
    requires forall role :: role in item.scans ==> ScanSound(item.scans[role], name, role)
    ensures EnvironmentAccepted(item, name, source)
  {
    SamePinned(name);
    assert Rootfs in item.scans;
    assert ScanSound(item.scans[Rootfs], name, Rootfs);
  }

  lemma ObservedVerdict(observed: Observed, name: Name, source: string)
    requires Scanned(observed, name) && ReportsRetained(observed)
    requires observed.recorded.Keys == ReportSet(name in RELEASE_COMPONENTS)
    requires forall role :: role in observed.recorded && Controlled(name, role) ==> !Severe(observed.reports[role])
    ensures EnvironmentAccepted(EnvironmentOf(observed, name, source), name, source)
  {
    ScansVerdict(observed, name);
    assert Scans(observed, name).Keys == observed.recorded.Keys;
    SoundIsAccepted(EnvironmentOf(observed, name, source), name, source);
  }

  lemma BoundReports(observed: Observed, name: Name, source: string)
    requires ComponentsAgree(name) && EnvironmentBound(observed, name, source)
    ensures observed.recorded.Keys == ReportSet(name in RELEASE_COMPONENTS) && ReportsRetained(observed)
  {
  }

  lemma EnvironmentVerdict(directory: Directory, name: Name, source: string)
    requires ComponentsAgree(name)
    requires EnvironmentClean(directory, name, source)
    ensures var r := CheckEnvironment(directory, name, source);
            r.Ok? && EnvironmentAccepted(r.value, name, source)
  {
    var observed := Find(directory.environments, name).value;
    assert CheckEnvironment(directory, name, source) == Ok(EnvironmentOf(observed, name, source));
    BoundReports(observed, name, source);
    ObservedVerdict(observed, name, source);
  }

  lemma BaselineVerdict(directory: Directory, role: Name)
    ensures var r := Baseline(directory, role); r.Ok? ==> r.value.gate == Diagnostic
  {
  }

  /** Both sides name the same runtime images, build images, environments and baselines. */
  predicate RosterAgrees(roster: Roster) {
    && (set name | name in roster.runtime) == RELEASE_RUNTIME
    && (set name | name in roster.build) == RELEASE_BUILD
    && (set name | name in roster.environments) == RELEASE_ENVIRONMENTS
    && (set name | name in roster.bases) == RELEASE_BASES
    && forall name :: name in roster.environments ==> ComponentsAgree(name)
  }

  lemma SameImages()
    ensures (set name | name in RUNTIME) == RELEASE_RUNTIME
    ensures (set name | name in BUILD) == RELEASE_BUILD
    ensures (set name | name in RAW_BASES) == RELEASE_BASES
  {
  }

  lemma SameEnvironment(name: Name)
    ensures name in ENVIRONMENTS <==> name in RELEASE_ENVIRONMENTS
  {
  }

  lemma SameSet(names: seq<Name>, expected: set<Name>)
    requires forall name :: name in names <==> name in expected
    ensures (set name | name in names) == expected
  {
  }

  lemma SameEnvironments()
    ensures (set name | name in ENVIRONMENTS) == RELEASE_ENVIRONMENTS
  {
    forall name ensures name in ENVIRONMENTS <==> name in RELEASE_ENVIRONMENTS {
      SameEnvironment(name);
    }
    SameSet(ENVIRONMENTS, RELEASE_ENVIRONMENTS);
  }

  lemma RosterBySets(roster: Roster)
    requires (set name | name in roster.runtime) == RELEASE_RUNTIME
             && (set name | name in roster.build) == RELEASE_BUILD
    requires (set name | name in roster.environments) == RELEASE_ENVIRONMENTS
             && (set name | name in roster.bases) == RELEASE_BASES
    requires forall name :: name in roster.environments ==> ComponentsAgree(name)
    ensures RosterAgrees(roster)
  {
  }

  lemma SameRoster()
    ensures RosterAgrees(FULL_ROSTER)
  {
    SameImages();
    SameEnvironments();
    forall name | name in ENVIRONMENTS {
      SameComponents(name);
    }
    RosterBySets(FULL_ROSTER);
  }

  /** The evidence a release needs, with no mention of any record. */
  predicate EvidenceClean(directory: Directory, source: string, roster: Roster) {
    && (forall role :: role in roster.runtime ==> ImageClean(directory, role, source))
    && (forall role :: role in roster.build ==> ImageClean(directory, role, source))
    && (forall name :: name in roster.environments ==> EnvironmentClean(directory, name, source))
    && (forall role :: role in roster.bases ==> Baseline(directory, role).Ok?)
  }

  lemma NoErrors(checks: Checks, roster: Roster)
    ensures Errors(checks, roster) == [] <==>
            && (forall role :: role in roster.runtime ==> checks.image(role).Ok?)
            && (forall role :: role in roster.build ==> checks.image(role).Ok?)
            && (forall name :: name in roster.environments ==> checks.environment(name).Ok?)
            && (forall role :: role in roster.bases ==> checks.baseline(role).Ok?)
  {
  }

  predicate ChecksPass(checks: Checks, roster: Roster) {
    && (forall role :: role in roster.runtime ==> checks.image(role).Ok? && checks.image(role).value.gate == Pass)
    && (forall role :: role in roster.build ==> checks.image(role).Ok? && checks.image(role).value.gate == Pass)
    && (forall name :: name in roster.environments ==>
          checks.environment(name).Ok? && checks.environment(name).value.gate == Pass)
    && (forall role :: role in roster.bases ==> checks.baseline(role).Ok?)
  }

  /** A record passes exactly when every check succeeds with a passing gate. */
  lemma PassByChecks(checks: Checks, source: string, profile: Profile, roster: Roster)
    ensures Uncertified(checks, source, profile, roster).pass <==> ChecksPass(checks, roster)
  {
    NoErrors(checks, roster);
    var value := Uncertified(checks, source, profile, roster);
    if value.pass {
      assert forall role :: role in roster.runtime ==> role in value.runtime;
      assert forall role :: role in roster.build ==> role in value.build;
      assert forall name :: name in roster.environments ==> name in value.environments;
    }
  }

  lemma {:induction false} PassIsClean(directory: Directory, source: string, roster: Roster)
    ensures ChecksPass(ChecksOf(directory, source), roster) <==> EvidenceClean(directory, source, roster)
  {
    var checks := ChecksOf(directory, source);
    forall role
      ensures checks.image(role).Ok? && checks.image(role).value.gate == Pass <==> ImageClean(directory, role, source)
    {
      ImageVerdict(directory, role, source);
    }
    forall name
      ensures checks.environment(name).Ok? && checks.environment(name).value.gate == Pass <==>
        EnvironmentClean(directory, name, source)
    {
      EnvironmentGate(directory, name, source);
    }
    forall role ensures checks.baseline(role) == Baseline(directory, role) {
    }
  }

  /** What the checks deliver is what the consumer asks of each entry. */
  predicate ChecksAccepted(checks: Checks, roster: Roster, commit: string) {
    && ImagesAcceptable(checks.image, roster.runtime, commit) && ImagesAcceptable(checks.image, roster.build, commit)
    && EnvironmentsAcceptable(checks.environment, roster.environments, commit)
    && BaselinesAcceptable(checks.baseline, roster.bases)
  }

  predicate ImagesAcceptable(image: Name -> Result<Artifact>, names: seq<Name>, commit: string) {
    forall role :: role in names ==> image(role).Ok? && ArtifactAccepted(image(role).value, role, commit)
  }

  predicate EnvironmentsAcceptable(environment: Name -> Result<Environment>, names: seq<Name>, commit: string) {
    forall name :: name in names ==> environment(name).Ok? && EnvironmentAccepted(environment(name).value, name, commit)
  }

  predicate BaselinesAcceptable(baseline: Name -> Result<Summary>, names: seq<Name>) {
    forall role :: role in names ==> baseline(role).Ok? && baseline(role).value.gate == Diagnostic
  }

  lemma ArtifactsOf(names: seq<Name>, check: Name -> Result<Artifact>, expected: set<Name>, commit: string)
    requires (set name | name in names) == expected
    requires ImagesAcceptable(check, names, commit)
    ensures ArtifactsAccepted(Succeeded(names, check), expected, commit)
  {
  }

  lemma EnvironmentsOf(names: seq<Name>, check: Name -> Result<Environment>, expected: set<Name>, commit: string)
    requires (set name | name in names) == expected
    requires EnvironmentsAcceptable(check, names, commit)
    ensures EnvironmentsAccepted(Succeeded(names, check), expected, commit)
  {
  }

  lemma BaselinesOf(names: seq<Name>, check: Name -> Result<Summary>)
    requires (set name | name in names) == RELEASE_BASES
    requires BaselinesAcceptable(check, names)
    ensures BaselinesAccepted(Succeeded(names, check))
  {
  }

  lemma AcceptedByChecks(checks: Checks, source: string, profile: Profile, roster: Roster)
    requires RosterAgrees(roster) && ChecksAccepted(checks, roster, source)
    ensures ContentsAccepted(Uncertified(checks, source, profile, roster), source)
  {
    ArtifactsOf(roster.runtime, checks.image, RELEASE_RUNTIME, source);
    ArtifactsOf(roster.build, checks.image, RELEASE_BUILD, source);
    EnvironmentsOf(roster.environments, checks.environment, RELEASE_ENVIRONMENTS, source);
    BaselinesOf(roster.bases, checks.baseline);
  }

  lemma CleanImages(directory: Directory, source: string, names: seq<Name>)
    requires forall role :: role in names ==> ImageClean(directory, role, source)
    ensures ImagesAcceptable(ChecksOf(directory, source).image, names, source)
  {
    forall role | role in names
      ensures Image(directory, role, source).Ok? && ArtifactAccepted(Image(directory, role, source).value, role, source)
    {
      ImageVerdict(directory, role, source);
    }
  }

  lemma CleanEnvironments(directory: Directory, source: string, names: seq<Name>)
    requires forall name :: name in names ==> ComponentsAgree(name) && EnvironmentClean(directory, name, source)
    ensures EnvironmentsAcceptable(ChecksOf(directory, source).environment, names, source)
  {
    forall name | name in names
      ensures CheckEnvironment(directory, name, source).Ok?
      ensures EnvironmentAccepted(CheckEnvironment(directory, name, source).value, name, source)
    {
      EnvironmentVerdict(directory, name, source);
    }
  }

  lemma CleanBaselines(directory: Directory, source: string, names: seq<Name>)
    requires forall role :: role in names ==> Baseline(directory, role).Ok?
    ensures BaselinesAcceptable(ChecksOf(directory, source).baseline, names)
  {
    forall role | role in names ensures Baseline(directory, role).value.gate == Diagnostic {
      BaselineVerdict(directory, role);
    }
  }

  lemma CleanIsAccepted(directory: Directory, source: string, roster: Roster)
    requires RosterAgrees(roster) && EvidenceClean(directory, source, roster)
    ensures ChecksAccepted(ChecksOf(directory, source), roster, source)
  {
    CleanImages(directory, source, roster.runtime);
    CleanImages(directory, source, roster.build);
    CleanEnvironments(directory, source, roster.environments);
    CleanBaselines(directory, source, roster.bases);
  }

  lemma IdentifiedContents(value: Record, runId: string, attempt: string, commit: string, run: Option<(string, string)>)
    ensures Accepted(Identified(value, runId, attempt), commit, run) <==>
            HeaderAccepted(Identified(value, runId, attempt), commit, run) && ContentsAccepted(value, commit)
  {
  }

  lemma HeaderExactly(value: Record, runId: string, attempt: string, commit: string, run: Option<(string, string)>)
    requires value.format == Expected && value.policy == Expected && value.production == Expected
    requires value.pass ==> value.covered && value.errors == []
    ensures HeaderAccepted(Identified(value, runId, attempt), commit, run) <==>
            && value.profile == Release && commit == value.source && IsNumber(runId) && IsNumber(attempt)
            && (run.Some? ==> run.value == (runId, attempt)) && value.pass
  {
  }

  lemma AcceptedOver(directory: Directory, source: string, profile: Profile, roster: Roster, runId: string,
                     attempt: string,
                     commit: string, run: Option<(string, string)>)
    requires profile == Release ==> RosterAgrees(roster)
    ensures var value := Uncertified(ChecksOf(directory, source), source, profile, roster);
            Accepted(Identified(value, runId, attempt), commit, run) <==>
            && profile == Release && commit == source && IsNumber(runId) && IsNumber(attempt)
            && (run.Some? ==> run.value == (runId, attempt))
            && EvidenceClean(directory, source, roster)
  {
    var checks := ChecksOf(directory, source);
    PassIsClean(directory, source, roster);
    if profile == Release && EvidenceClean(directory, source, roster) {
      CleanIsAccepted(directory, source, roster);
      AcceptedByChecks(checks, source, profile, roster);
    }
    AcceptedWhen(checks, source, profile, roster, runId, attempt, commit, run,
                 EvidenceClean(directory, source, roster));
  }

  lemma AcceptedWhen(checks: Checks, source: string, profile: Profile, roster: Roster, runId: string, attempt: string,
                     commit: string, run: Option<(string, string)>, clean: bool)
    requires clean <==> ChecksPass(checks, roster)
    requires clean && profile == Release ==> ContentsAccepted(Uncertified(checks, source, profile, roster), source)
    ensures Accepted(Identified(Uncertified(checks, source, profile, roster), runId, attempt), commit, run) <==>
            && profile == Release && commit == source && IsNumber(runId) && IsNumber(attempt)
            && (run.Some? ==> run.value == (runId, attempt)) && clean
  {
    var value := Uncertified(checks, source, profile, roster);
    PassByChecks(checks, source, profile, roster);
    HeaderExactly(value, runId, attempt, commit, run);
    IdentifiedContents(value, runId, attempt, commit, run);
  }

  lemma OtherProfilesRefused(directory: Directory, source: string, profile: Profile, runId: string, attempt: string,
                             commit: string, run: Option<(string, string)>)
    requires profile != Release
    ensures !Accepted(Certificate(directory, source, profile, runId, attempt), commit, run)
  {
  }

  /** Producer and consumer agree: a release accepts the record of a run exactly when it is a release
      record of that commit and run whose evidence is clean. */
  lemma AcceptedExactly(directory: Directory, source: string, profile: Profile, runId: string, attempt: string,
                        commit: string, run: Option<(string, string)>)
    ensures Accepted(Certificate(directory, source, profile, runId, attempt), commit, run) <==>
            && profile == Release && commit == source && IsNumber(runId) && IsNumber(attempt)
            && (run.Some? ==> run.value == (runId, attempt))
            && EvidenceClean(directory, source, FULL_ROSTER)
  {
    if profile == Release {
      SameRoster();
      AcceptedOver(directory, source, Release, FULL_ROSTER, runId, attempt, commit, run);
    } else {
      OtherProfilesRefused(directory, source, profile, runId, attempt, commit, run);
    }
  }

  /** What a release learns from accepting a record: no severe finding in any runtime or build image,
      nor in any scan of any environment but a hosted runner's own root file system. */
  lemma AcceptedMeansNothingSevere(directory: Directory, source: string, profile: Profile, runId: string,
                                   attempt: string,
                                   commit: string, run: Option<(string, string)>)
    requires Accepted(Certificate(directory, source, profile, runId, attempt), commit, run)
    ensures forall role :: role in RUNTIME || role in BUILD ==>
              role in directory.images && directory.images[role].report.Some?
              && !Severe(directory.images[role].report.value)
    ensures forall name :: name in ENVIRONMENTS ==>
              var found := Find(directory.environments, name);
              found.Ok? && ReportSet(ComponentOf(name) != NoTree) <= found.value.reports.Keys
              && forall role :: role in ReportSet(ComponentOf(name) != NoTree) && Controlled(name, role) ==>
                   !Severe(found.value.reports[role])
  {
    AcceptedExactly(directory, source, profile, runId, attempt, commit, run);
    forall role | role in RUNTIME || role in BUILD ensures ImageClean(directory, role, source) {
    }
    forall name | name in ENVIRONMENTS ensures EnvironmentClean(directory, name, source) {
    }
  }
}

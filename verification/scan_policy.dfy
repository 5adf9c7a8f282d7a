/** The severity policy over one scan report, without suppression (scripts/ci/scan-policy.py). */
module ScanPolicy {
  import opened Bytes
  import opened Roles

  /** A JSON member expected to be a list: missing, of another type, or listed. */
  datatype Listing<T> = Absent | Unlisted | Items(items: seq<T>)

  /** A package or finding with an empty string stands for a missing or ill-typed member. */
  datatype Package = Package(name: string, version: string)

  datatype Finding = Finding(id: string, package: string, severity: string)

  datatype ScanResult = ScanResult(section: string, language: string, packages: Listing<Package>,
                                   vulnerabilities: Listing<Finding>)

  datatype Report = Report(artifactType: string, artifactName: string, os: string, architecture: string,
                           imageId: string, results: Listing<ScanResult>)

  datatype Gate = Pass | Blocked | Diagnostic | PlatformAssurance | OtherGate

  datatype Summary = Summary(artifact: string, findings: map<string, nat>, gate: Gate, severe: bool,
                             riskDomain: string, retained: bool)

  const SEVERITIES := ["UNKNOWN", "LOW", "MEDIUM", "HIGH", "CRITICAL"]

  predicate PackagesNamed(packages: Listing<Package>) {
    packages.Items? && packages.items != [] && forall p :: p in packages.items ==> p.name != "" && p.version != ""
  }

  predicate FindingValid(f: Finding) {
    f.id != "" && f.package != "" && f.severity in SEVERITIES
  }

  /** What one result lists; a missing list is an empty one. */
  function Listed(result: ScanResult): seq<Finding> {
    if result.vulnerabilities.Items? then result.vulnerabilities.items else []
  }

  predicate ResultValid(result: ScanResult) {
    !result.vulnerabilities.Unlisted? && forall f :: f in Listed(result) ==> FindingValid(f)
  }

  predicate OperatingSystemListed(results: seq<ScanResult>) {
    && (exists r :: r in results && r.section == "os-pkgs")
    && (forall r :: r in results && r.section == "os-pkgs" ==> PackagesNamed(r.packages))
  }

  /** Complete: results are listed, every finding is well formed and, where required, so are the
      operating system's packages. */
  predicate Complete(report: Report, requireOs: bool) {
    && report.results.Items? && report.results.items != []
    && (requireOs ==> OperatingSystemListed(report.results.items))
    && (forall r :: r in report.results.items ==> ResultValid(r))
  }

  function AllListed(results: seq<ScanResult>): (all: seq<Finding>)
    ensures forall f :: f in all <==> exists r :: r in results && f in Listed(r)
  {
    if results == [] then []
    else
      assert forall r :: r in results <==> r == results[0] || r in results[1..];
      Listed(results[0]) + AllListed(results[1..])
  }

  lemma {:induction false} AllListedAppend(results: seq<ScanResult>, last: ScanResult)
    ensures AllListed(results + [last]) == AllListed(results) + Listed(last)
  {
    if results == [] {
      assert results + [last] == [last];
    } else {
      assert (results + [last])[1..] == results[1..] + [last];
      AllListedAppend(results[1..], last);
    }
  }

  function Findings(report: Report, requireOs: bool): Result<seq<Finding>> {
    if Complete(report, requireOs) then Ok(AllListed(report.results.items)) else Err
  }

  /** The inner loop: the findings of one result, up to the first invalid one. */
  method ValidateResult(result: ScanResult, earlier: seq<Finding>) returns (r: Result<seq<Finding>>)
    ensures r == if ResultValid(result) then Ok(earlier + Listed(result)) else Err
  {
    if result.vulnerabilities.Unlisted? { return Err; }
    var findings, listed := earlier, Listed(result);
    for j := 0 to |listed|
      invariant forall k :: 0 <= k < j ==> FindingValid(listed[k])
      invariant findings == earlier + listed[..j]
    {
      if !FindingValid(listed[j]) { return Err; }
      findings := findings + [listed[j]];
    }
    assert listed[..|listed|] == listed;
    return Ok(findings);
  }

  /** The outer loop over results stops at the first invalid one. */
  method ValidateResults(report: Report, requireOs: bool) returns (r: Result<seq<Finding>>)
    ensures r == Findings(report, requireOs)
  {
    if !report.results.Items? || report.results.items == [] { return Err; }
    var results := report.results.items;
    if requireOs && !OperatingSystemListed(results) { return Err; }
    var findings := [];
    for i := 0 to |results|
      invariant forall k :: 0 <= k < i ==> ResultValid(results[k])
      invariant findings == AllListed(results[..i])
    {
      var checked := ValidateResult(results[i], findings);
      if checked.Err? {
        assert results[i] in results;
        return Err;
      }
      AllListedAppend(results[..i], results[i]);
      assert results[..i + 1] == results[..i] + [results[i]];
      findings := checked.value;
    }
    assert results[..|results|] == results;
    assert forall r :: r in results ==> ResultValid(r);
    return Ok(findings);
  }

  /** The counter of severities: only severities that occur have an entry. */
  function Tally(findings: seq<Finding>): map<string, nat> {
    if findings == [] then map[]
    else
      var last := |findings| - 1;
      var counts := Tally(findings[..last]);
      var s := findings[last].severity;
      counts[s := CountOf(counts, s) + 1]
  }

  /** An entry of a counter, zero when missing. */
  function CountOf(counts: map<string, nat>, severity: string): nat {
    if severity in counts then counts[severity] else 0
  }

  function Places(findings: seq<Finding>, severity: string): set<nat> {
    set i: nat | i < |findings| && findings[i].severity == severity
  }

  function WithSeverity(findings: seq<Finding>, severity: string): nat {
    |Places(findings, severity)|
  }

  lemma WithSeverityAppend(findings: seq<Finding>, severity: string)
    requires findings != []
    ensures var last := |findings| - 1;
            WithSeverity(findings, severity)
            == WithSeverity(findings[..last], severity) + if findings[last].severity == severity then 1 else 0
  {
    var last := |findings| - 1;
    var earlier := Places(findings[..last], severity);
    assert last !in earlier;
    assert Places(findings, severity) == if findings[last].severity == severity then earlier + {last} else earlier;
  }

  /** Nothing is suppressed: the counter holds, for each severity, the number of findings of it. */
  lemma {:induction false} TallyCounts(findings: seq<Finding>, severity: string)
    ensures CountOf(Tally(findings), severity) == WithSeverity(findings, severity)
    ensures severity in Tally(findings) <==> exists f :: f in findings && f.severity == severity
    ensures severity in Tally(findings) ==> Tally(findings)[severity] > 0
  {
    if findings != [] {
      var last := |findings| - 1;
      TallyCounts(findings[..last], severity);
      WithSeverityAppend(findings, severity);
      assert forall f :: f in findings <==> f in findings[..last] || f == findings[last];
    }
  }

  predicate SevereCounts(counts: map<string, nat>) {
    CountOf(counts, "HIGH") > 0 || CountOf(counts, "CRITICAL") > 0
  }

  predicate IsSevere(f: Finding) {
    f.severity == "HIGH" || f.severity == "CRITICAL"
  }

  /** Some result of the report lists a finding of severity HIGH or CRITICAL. */
  predicate Severe(report: Report) {
    report.results.Items? && exists r, f :: r in report.results.items && f in Listed(r) && IsSevere(f)
  }

  function Summarized(report: Report, findings: seq<Finding>, gate: Gate): Summary {
    var counts := Tally(findings);
    Summary(report.artifactName, counts, gate, SevereCounts(counts), "", false)
  }

  predicate ScannedImage(report: Report) {
    report.artifactType == "container_image" && report.artifactName != ""
    && report.os == "linux" && report.architecture == "amd64"
  }

  /** The policy over an image scan. */
  function Evaluate(report: Report, diagnostic: bool): Result<Summary> {
    if !ScannedImage(report) || Findings(report, true).Err? then Err
    else
      var findings := Findings(report, true).value;
      Ok(Summarized(report, findings,
        if diagnostic then Diagnostic else if SevereCounts(Tally(findings)) then Blocked else Pass))
  }

  predicate ScannedTree(report: Report) {
    report.artifactType == "filesystem" || report.artifactType == "rootfs"
  }

  predicate LanguagePackagesListed(results: seq<ScanResult>) {
    exists r :: r in results && r.section == "lang-pkgs" && r.packages.Items? && r.packages.items != []
  }

  /** The policy over a scan of a job's own file system, or of one component in it. */
  function EvaluateEnvironment(report: Report, component: bool): Result<Summary> {
    if !ScannedTree(report) || Findings(report, !component).Err?
       || (component && !LanguagePackagesListed(report.results.items)) then Err
    else
      var findings := Findings(report, !component).value;
      Ok(Summarized(report, findings, if SevereCounts(Tally(findings)) then Blocked else Pass))
  }

  const RISK_DOMAIN := "github-hosted-runner-platform"
  const PINNED := {Backend, PrFastBackend}

  /** The policy over a provider's own root file system: findings are retained, never a verdict.
      `hosted` is the outcome of the runner identity checks. */
  function EvaluateHostPlatform(report: Report, passed: bool, name: Name, hosted: bool,
                                rootfsName: string): Result<Summary> {
    if !passed || name in PINNED || !hosted || report.artifactName != rootfsName
       || !ScannedTree(report) || Findings(report, true).Err? then Err
    else
      Ok(Summarized(report, Findings(report, true).value, PlatformAssurance)
         .(riskDomain := RISK_DOMAIN, retained := true))
  }

  /** The counters speak for the report: they are severe exactly when some result lists a severe finding. */
  lemma SevereByCount(report: Report, requireOs: bool)
    requires Complete(report, requireOs)
    ensures SevereCounts(Tally(Findings(report, requireOs).value)) <==> Severe(report)
  {
    var findings := Findings(report, requireOs).value;
    TallyCounts(findings, "HIGH");
    TallyCounts(findings, "CRITICAL");
    if SevereCounts(Tally(findings)) {
      var f :| f in findings && IsSevere(f);
    } else {
      assert forall f :: f in findings ==> !IsSevere(f);
    }
  }

  /** Each gate passes exactly on complete scans without a severe finding, and counts every one; the
      diagnostic and the platform gate never pass. */
  lemma GatesAreExact(report: Report, component: bool, passed: bool, name: Name, hosted: bool, rootfsName: string)
    ensures var e := Evaluate(report, false);
            (e.Ok? && e.value.gate == Pass <==> ScannedImage(report) && Complete(report, true) && !Severe(report))
            && (e.Ok? ==> (e.value.severe <==> Severe(report)))
    ensures var e := EvaluateEnvironment(report, component);
            (e.Ok? && e.value.gate == Pass <==>
             ScannedTree(report) && Complete(report, !component) && !Severe(report)
             && (component ==> LanguagePackagesListed(report.results.items)))
            && (e.Ok? ==> (e.value.severe <==> Severe(report)))
    ensures var e := EvaluateHostPlatform(report, passed, name, hosted, rootfsName);
            e.Ok? ==> e.value.gate == PlatformAssurance && (e.value.severe <==> Severe(report))
    ensures var e := Evaluate(report, true); e.Ok? ==>
      e.value.gate == Diagnostic && (e.value.severe <==> Severe(report))
  {
    if Complete(report, true) { SevereByCount(report, true); }
    if Complete(report, !component) { SevereByCount(report, !component); }
  }
}

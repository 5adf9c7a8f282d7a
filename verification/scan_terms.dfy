/** The scan policy spelled out: which reports count as complete, and what each gate says of them. */
module ScanTerms {
  import opened Bytes
  import opened Roles
  import opened ScanPolicy

  /** Every finding names its vulnerability, its package and one of the five severities. */
  ghost predicate FindingsWellFormed(result: ScanResult) {
    match result.vulnerabilities
    case Absent => true
    case Unlisted => false
    case Items(items) =>
      forall f :: f in items ==>
        f.id != "" && f.package != "" && f.severity in {"UNKNOWN", "LOW", "MEDIUM", "HIGH", "CRITICAL"}
  }

  /** The operating system's packages are listed, each with its name and version. */
  ghost predicate SystemListed(results: seq<ScanResult>) {
    && (exists r :: r in results && r.section == "os-pkgs")
    && forall r :: r in results && r.section == "os-pkgs" ==>
         && (exists p :: p in PackagesOf(r))
         && r.packages.Items? && forall p :: p in r.packages.items ==> p.name != "" && p.version != ""
  }

  function PackagesOf(r: ScanResult): seq<Package> {
    match r.packages case Items(items) => items case _ => []
  }

  ghost predicate CompleteTerms(report: Report, requireOs: bool) {
    match report.results
    case Items(results) =>
      && (exists r :: r in results) && (requireOs ==> SystemListed(results))
      && forall r :: r in results ==> FindingsWellFormed(r)
    case _ => false
  }

  lemma SeverityTerms(severity: string)
    ensures severity in SEVERITIES <==> severity in {"UNKNOWN", "LOW", "MEDIUM", "HIGH", "CRITICAL"}
  {
  }

  lemma ResultTerms(result: ScanResult)
    ensures ResultValid(result) <==> FindingsWellFormed(result)
  {
    forall f | f in Listed(result)
      ensures FindingValid(f) <==>
              f.id != "" && f.package != "" && f.severity in {"UNKNOWN", "LOW", "MEDIUM", "HIGH", "CRITICAL"}
    {
      SeverityTerms(f.severity);
    }
  }

  lemma SystemTerms(results: seq<ScanResult>)
    ensures OperatingSystemListed(results) <==> SystemListed(results)
  {
    forall r | r in results && r.section == "os-pkgs"
      ensures PackagesNamed(r.packages) <==>
              && (exists p :: p in PackagesOf(r))
              && r.packages.Items? && forall p :: p in r.packages.items ==> p.name != "" && p.version != ""
    {
      if PackagesOf(r) != [] { assert PackagesOf(r)[0] in PackagesOf(r); }
    }
  }

  /** A report is complete exactly in these terms. */
  lemma CompleteExactly(report: Report, requireOs: bool)
    ensures Complete(report, requireOs) <==> CompleteTerms(report, requireOs)
  {
    if report.results.Items? {
      var results := report.results.items;
      SystemTerms(results);
      forall r | r in results ensures ResultValid(r) <==> FindingsWellFormed(r) { ResultTerms(r); }
      if results != [] { assert results[0] in results; }
    }
  }

  /** The summary names the scanned artifact and counts every finding of the report, each severity alone. */
  ghost predicate Reports(s: Summary, report: Report)
    requires report.results.Items?
  {
    var findings := AllListed(report.results.items);
    && s.artifact == report.artifactName
    && (forall severity :: severity in s.findings <==> exists f :: f in findings && f.severity == severity)
    && (forall severity :: severity in s.findings ==> s.findings[severity] == WithSeverity(findings, severity))
    && (s.severe <==> exists f :: f in findings && f.severity in {"HIGH", "CRITICAL"})
  }

  lemma SummaryReports(report: Report, requireOs: bool, gate: Gate)
    requires Complete(report, requireOs)
    ensures Reports(Summarized(report, Findings(report, requireOs).value, gate), report)
    ensures SevereCounts(Tally(Findings(report, requireOs).value)) <==>
            exists f :: f in AllListed(report.results.items) && f.severity in {"HIGH", "CRITICAL"}
  {
    var findings := AllListed(report.results.items);
    forall severity
      ensures CountOf(Tally(findings), severity) == WithSeverity(findings, severity)
      ensures severity in Tally(findings) <==> exists f :: f in findings && f.severity == severity
      ensures severity in Tally(findings) ==> Tally(findings)[severity] > 0
    {
      TallyCounts(findings, severity);
    }
  }

  /** An image scan is judged exactly when it is a complete one of a named linux/amd64 image. */
  lemma ImageJudged(report: Report, diagnostic: bool)
    ensures Evaluate(report, diagnostic).Ok? <==>
            && report.artifactType == "container_image" && report.artifactName != ""
            && report.os == "linux" && report.architecture == "amd64" && CompleteTerms(report, true)
    ensures Evaluate(report, diagnostic).Ok? ==>
      && Reports(Evaluate(report, diagnostic).value, report)
      && Evaluate(report, diagnostic).value.gate ==
         (if diagnostic then Diagnostic else if Evaluate(report, diagnostic).value.severe then Blocked else Pass)
  {
    CompleteExactly(report, true);
    if Evaluate(report, diagnostic).Ok? { SummaryReports(report, true, Evaluate(report, diagnostic).value.gate); }
  }

  /** A scan of a job's own files is judged exactly when it is a complete one of a file system; one of a
      component needs language packages instead of the operating system's. */
  lemma TreeJudged(report: Report, component: bool)
    ensures EvaluateEnvironment(report, component).Ok? <==>
            && report.artifactType in {"filesystem", "rootfs"} && CompleteTerms(report, !component)
            && (component ==>
                  exists r, p :: r in report.results.items && r.section == "lang-pkgs" && p in PackagesOf(r))
    ensures EvaluateEnvironment(report, component).Ok? ==>
      var s := EvaluateEnvironment(report, component).value;
      Reports(s, report) && s.gate == if s.severe then Blocked else Pass
  {
    CompleteExactly(report, !component);
    if report.results.Items? { LanguageTerms(report.results.items); }
    if EvaluateEnvironment(report, component).Ok? {
      SummaryReports(report, !component, EvaluateEnvironment(report, component).value.gate);
    }
  }

  lemma LanguageTerms(results: seq<ScanResult>)
    ensures LanguagePackagesListed(results) <==>
            exists r, p :: r in results && r.section == "lang-pkgs" && p in PackagesOf(r)
  {
    if LanguagePackagesListed(results) {
      var r :| r in results && r.section == "lang-pkgs" && r.packages.Items? && r.packages.items != [];
      assert r.packages.items[0] in PackagesOf(r);
    }
  }

  /** A hosted runner's own root file system is judged exactly when the record passed, the runner is no
      pinned container, and the report is a complete one of that very file system. */
  lemma PlatformJudged(report: Report, passed: bool, name: Name, hosted: bool, rootfsName: string)
    ensures EvaluateHostPlatform(report, passed, name, hosted, rootfsName).Ok? <==>
            && passed && name != Backend && name != PrFastBackend && hosted && report.artifactName == rootfsName
            && (report.artifactType == "filesystem" || report.artifactType == "rootfs") && CompleteTerms(report, true)
  {
    CompleteExactly(report, true);
  }

  /** It is reported in full, under the provider's assurance. */
  lemma PlatformReported(report: Report, passed: bool, name: Name, hosted: bool, rootfsName: string)
    requires EvaluateHostPlatform(report, passed, name, hosted, rootfsName).Ok?
    ensures var s := EvaluateHostPlatform(report, passed, name, hosted, rootfsName).value;
            && Reports(s, report) && s.gate == PlatformAssurance
            && s.riskDomain == "github-hosted-runner-platform" && s.retained
  {
    SummaryReports(report, true, PlatformAssurance);
  }
}

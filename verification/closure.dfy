/** The installed dependency closure of the skopeo package: a worklist over Debian packages
    (Debian Policy Manual, sections 7.1 and 7.5). */
module Closure {
  import opened Bytes
  import opened Graphs
  import opened Relations

  type Key = (string, string)

  datatype Provided = Provided(name: string, version: Option<string>)

  datatype Package = Package(name: string, version: string, arch: string, preDepends: string,
                             depends: string, offers: seq<Provided>, multiArch: string)

  /** The answer of `dpkg --compare-versions`; a broken comparison raises an error. */
  datatype Verdict = Yes | No | Broken

  type Compare = (string, string, string) -> Verdict

  /** Everything one run of the closure reads. */
  datatype System = System(packages: map<Key, Package>, compare: Compare, nativeArch: string)

  predicate ValidArch(arch: string) {
    arch != "" && arch[0] != '-' && forall c :: c in arch ==> 'a' <= c <= 'z' || '0' <= c <= '9' || c == '-'
  }

  /** A lower-case letter or digit, and then any of these and hyphens. */
  lemma NativeArchitectures(arch: string)
    ensures ValidArch(arch) <==>
            exists first, rest :: arch == [first] + rest && (first in LOWER || first in DECIMAL)
                                  && forall c :: c in rest ==> c in LOWER || c in DECIMAL || c == '-'
  {
    forall c
      ensures c in LOWER <==> 'a' <= c <= 'z'
      ensures c in DECIMAL <==> '0' <= c <= '9'
    {
      Letters(c);
    }
    if ValidArch(arch) {
      var first, rest := arch[0], arch[1..];
      assert arch == [first] + rest && first in arch;
      assert first in LOWER || first in DECIMAL;
      assert forall c :: c in rest ==> c in arch;
    }
    forall first, rest | arch == [first] + rest && (first in LOWER || first in DECIMAL)
                         && forall c :: c in rest ==> c in LOWER || c in DECIMAL || c == '-'
      ensures ValidArch(arch)
    {
      assert forall c :: c in arch ==> c == first || c in rest;
    }
  }

  // ---------------------------------------------------------------- one alternative, one candidate

  function ProvidedVersions(offers: seq<Provided>, name: string): seq<Option<string>> {
    if offers == [] then []
    else (if offers[0].name == name then [offers[0].version] else []) + ProvidedVersions(offers[1..], name)
  }

  function ArchOf(sys: System, p: Package): string {
    if p.arch == "all" then sys.nativeArch else p.arch
  }

  /** The qualifier and Multi-Arch rules between a depender and a candidate. */
  predicate ArchFits(sys: System, qualifier: Option<string>, depender: Package, candidate: Package) {
    var candidateArch := ArchOf(sys, candidate);
    match qualifier
    case None => candidateArch == ArchOf(sys, depender) || candidate.multiArch == "foreign"
    case Some(q) =>
      && (q == "native" ==> candidateArch == sys.nativeArch)
      && (q == "any" ==> candidate.multiArch == "allowed")
      && (q != "any" && q != "native" ==> candidateArch == q)
  }

  /** Python's `any` over the versions: stops at the first one that satisfies the constraint. */
  function AnyVersion(sys: System, versions: seq<Option<string>>, c: Option<Constraint>): Verdict {
    if versions == [] then No
    else if c.None? then Yes
    else if versions[0].None? then AnyVersion(sys, versions[1..], c)
    else
      var v := sys.compare(versions[0].value, c.value.operator, c.value.version);
      if v.No? then AnyVersion(sys, versions[1..], c) else v
  }

  function Satisfies(sys: System, depender: Package, r: Relation, candidate: Package): Verdict {
    var direct := candidate.name == r.name;
    var provided := ProvidedVersions(candidate.offers, r.name);
    if (!direct && provided == []) || !ArchFits(sys, r.qualifier, depender, candidate) then No
    else AnyVersion(sys, if direct then [Some(candidate.version)] else provided, r.constraint)
  }

  // ---------------------------------------------------------------- what satisfaction means

  /** The architectures go together: without a qualifier the same one, or a package that serves any;
      `native`, `any` and a named architecture each by their own rule. `all` counts as native. */
  ghost predicate ArchRule(sys: System, q: Option<string>, depender: Package, candidate: Package) {
    var own := if depender.arch == "all" then sys.nativeArch else depender.arch;
    var other := if candidate.arch == "all" then sys.nativeArch else candidate.arch;
    || (q == None && (other == own || candidate.multiArch == "foreign"))
    || (q == Some("native") && other == sys.nativeArch)
    || (q == Some("any") && candidate.multiArch == "allowed")
    || (q == Some(other) && other != "native" && other != "any")
  }

  /** The version meets the constraint; one that is not given meets none. */
  ghost predicate VersionMeets(sys: System, c: Option<Constraint>, version: Option<string>) {
    c == None ||
    (version.Some? && sys.compare(version.value, c.value.operator, c.value.version) == Yes)
  }

  ghost predicate VersionBreaks(sys: System, c: Option<Constraint>, version: Option<string>) {
    c.Some? && version.Some? && sys.compare(version.value, c.value.operator, c.value.version) == Broken
  }

  /** An installed package satisfies an alternative: by its own name and version, or, when its name is
      another, by something it provides under that name. */
  ghost predicate Meets(sys: System, depender: Package, r: Relation, candidate: Package) {
    && ArchRule(sys, r.qualifier, depender, candidate)
    && if candidate.name == r.name then VersionMeets(sys, r.constraint, Some(candidate.version))
       else exists p :: p in candidate.offers && p.name == r.name && VersionMeets(sys, r.constraint, p.version)
  }

  /** A comparison breaks before one is met. */
  ghost predicate Breaks(sys: System, depender: Package, r: Relation, candidate: Package) {
    && ArchRule(sys, r.qualifier, depender, candidate)
    && if candidate.name == r.name then VersionBreaks(sys, r.constraint, Some(candidate.version))
       else exists i :: 0 <= i < |candidate.offers| && BreaksAt(sys, r, candidate.offers, i)
  }

  ghost predicate BreaksAt(sys: System, r: Relation, offers: seq<Provided>, i: nat)
    requires i < |offers|
  {
    && offers[i].name == r.name && VersionBreaks(sys, r.constraint, offers[i].version)
    && forall j :: 0 <= j < i && offers[j].name == r.name ==> !VersionMeets(sys, r.constraint, offers[j].version)
  }

  lemma ArchFitsRule(sys: System, q: Option<string>, depender: Package, candidate: Package)
    ensures ArchFits(sys, q, depender, candidate) <==> ArchRule(sys, q, depender, candidate)
  {
    assert "native" != "any" by { assert "native"[0] != "any"[0]; }
  }

  ghost predicate SomeMeets(sys: System, r: Relation, offers: seq<Provided>) {
    exists p :: p in offers && p.name == r.name && VersionMeets(sys, r.constraint, p.version)
  }

  ghost predicate SomeBreaks(sys: System, r: Relation, offers: seq<Provided>) {
    exists i :: 0 <= i < |offers| && BreaksAt(sys, r, offers, i)
  }

  /** One more provided name in front. */
  lemma OfferFirst(sys: System, r: Relation, first: Provided, rest: seq<Provided>)
    ensures var met := first.name == r.name && VersionMeets(sys, r.constraint, first.version);
            var broken := first.name == r.name && VersionBreaks(sys, r.constraint, first.version);
            && (SomeMeets(sys, r, [first] + rest) <==> met || SomeMeets(sys, r, rest))
            && (SomeBreaks(sys, r, [first] + rest) <==> broken || (!met && SomeBreaks(sys, r, rest)))
  {
    var offers := [first] + rest;
    assert offers[0] == first && forall i :: 0 <= i < |rest| ==> offers[i + 1] == rest[i];
    if first.name == r.name && VersionBreaks(sys, r.constraint, first.version) { assert BreaksAt(sys, r, offers, 0); }
    forall i | 0 <= i < |rest| && BreaksAt(sys, r, rest, i)
      && !(first.name == r.name && VersionMeets(sys, r.constraint, first.version))
      ensures BreaksAt(sys, r, offers, i + 1)
    {
      assert forall j :: 1 <= j < i + 1 ==> offers[j] == rest[j - 1];
    }
    forall i | 1 <= i < |offers| && BreaksAt(sys, r, offers, i) ensures BreaksAt(sys, r, rest, i - 1) {
      assert forall j :: 0 <= j < i - 1 ==> rest[j] == offers[j + 1];
    }
  }

  lemma AnyFirst(sys: System, v: Option<string>, later: seq<Option<string>>, c: Option<Constraint>)
    ensures AnyVersion(sys, [v] + later, c) ==
            if VersionMeets(sys, c, v) then Yes else if VersionBreaks(sys, c, v) then Broken
            else AnyVersion(sys, later, c)
  {
    assert ([v] + later)[1..] == later;
  }

  lemma {:induction false} AnyOffer(sys: System, r: Relation, offers: seq<Provided>)
    ensures AnyVersion(sys, ProvidedVersions(offers, r.name), r.constraint) ==
            if SomeBreaks(sys, r, offers) then Broken else if SomeMeets(sys, r, offers) then Yes else No
  {
    if offers != [] {
      assert offers == [offers[0]] + offers[1..];
      OfferFirst(sys, r, offers[0], offers[1..]);
      AnyOffer(sys, r, offers[1..]);
      var later := ProvidedVersions(offers[1..], r.name);
      if offers[0].name == r.name {
        AnyFirst(sys, offers[0].version, later, r.constraint);
      } else {
        assert ProvidedVersions(offers, r.name) == later;
      }
    }
  }

  /** What the loop computes for one alternative and one candidate is what satisfaction means. */
  lemma SatisfiesMeets(sys: System, depender: Package, r: Relation, candidate: Package)
    ensures Satisfies(sys, depender, r, candidate) ==
            if Breaks(sys, depender, r, candidate) then Broken
            else if Meets(sys, depender, r, candidate) then Yes else No
  {
    ArchFitsRule(sys, r.qualifier, depender, candidate);
    if candidate.name == r.name {
      AnyFirst(sys, Some(candidate.version), [], r.constraint);
      assert [Some(candidate.version)] + [] == [Some(candidate.version)];
    } else {
      AnyOffer(sys, r, candidate.offers);
    }
  }

  // ---------------------------------------------------------------- what the closure means

  /** Every installed package that satisfies some alternative of the group. */
  ghost function Satisfiers(sys: System, depender: Package, g: Group): set<Key> {
    set k | k in sys.packages && exists r :: r in g && Meets(sys, depender, r, sys.packages[k])
  }

  /** No comparison of this alternative breaks. */
  ghost predicate Unbroken(sys: System, depender: Package, r: Relation) {
    forall k :: k in sys.packages ==> !Breaks(sys, depender, r, sys.packages[k])
  }

  ghost predicate GroupSound(sys: System, depender: Package, g: Group) {
    (forall r :: r in g ==> Unbroken(sys, depender, r)) && Satisfiers(sys, depender, g) != {}
  }

  ghost predicate GroupsSound(sys: System, depender: Package, groups: seq<Group>) {
    forall g :: g in groups ==> GroupSound(sys, depender, g)
  }

  /** All the groups of both fields parse, compare and are satisfied by something installed. */
  ghost predicate Sound(sys: System, p: Package) {
    && RelationGroups(p.preDepends).Ok? && RelationGroups(p.depends).Ok?
    && GroupsSound(sys, p, Groups(p))
  }

  /** The groups of both fields, Pre-Depends first. */
  function Groups(p: Package): seq<Group> {
    Parsed(p.preDepends) + Parsed(p.depends)
  }

  function Parsed(field: string): seq<Group> {
    var groups := RelationGroups(field);
    if groups.Ok? then groups.value else []
  }

  /** Everything that satisfies one of the groups. */
  ghost function Wanted(sys: System, depender: Package, groups: seq<Group>): set<Key> {
    set k | k in sys.packages && exists g :: g in groups && k in Satisfiers(sys, depender, g)
  }

  ghost function Needs(sys: System, k: Key): set<Key>
    requires k in sys.packages
  {
    var p := sys.packages[k];
    if Sound(sys, p) then Wanted(sys, p, Groups(p)) else {}
  }

  lemma WantedConcat(sys: System, depender: Package, a: seq<Group>, b: seq<Group>)
    ensures Wanted(sys, depender, a + b) == Wanted(sys, depender, a) + Wanted(sys, depender, b)
  {
    forall k | k in Wanted(sys, depender, a + b) ensures k in Wanted(sys, depender, a) + Wanted(sys, depender, b) {
      var g :| g in a + b && k in Satisfiers(sys, depender, g);
      assert g in a || g in b;
    }
    forall k | k in Wanted(sys, depender, a) ensures k in Wanted(sys, depender, a + b) {
      var g :| g in a && k in Satisfiers(sys, depender, g);
      assert g in a + b;
    }
    forall k | k in Wanted(sys, depender, b) ensures k in Wanted(sys, depender, a + b) {
      var g :| g in b && k in Satisfiers(sys, depender, g);
      assert g in a + b;
    }
  }

  lemma WantedOne(sys: System, depender: Package, g: Group)
    ensures Wanted(sys, depender, [g]) == Satisfiers(sys, depender, g)
  {
    assert g in [g];
  }

  ghost function Named(sys: System, name: string): set<Key> {
    set k | k in sys.packages && sys.packages[k].name == name
  }

  ghost predicate RootsUnique(sys: System, names: seq<string>) {
    forall name :: name in names ==> |Named(sys, name)| == 1
  }

  ghost function Roots(sys: System, names: seq<string>): set<Key> {
    set k | k in sys.packages && sys.packages[k].name in names
  }

  /** The installed packages as a graph: what each one needs, and which ones can be expanded. */
  ghost function Installed(sys: System): (g: Graph<Key>)
    ensures Graphs.Valid(g)
  {
    Graph(sys.packages.Keys, set k | k in sys.packages && Sound(sys, sys.packages[k]),
          map k | k in sys.packages :: Needs(sys, k))
  }

  // ---------------------------------------------------------------- the worklist

  function Keys(ks: seq<Key>): set<Key> {
    set k | k in ks
  }

  method FindRoots(sys: System, names: seq<string>) returns (r: Result<seq<Key>>)
    ensures r.Ok? <==> RootsUnique(sys, names)
    ensures r.Ok? ==> Keys(r.value) == Roots(sys, names)
  {
    var roots: seq<Key> := [];
    for i := 0 to |names|
      invariant RootsUnique(sys, names[..i])
      invariant forall k :: k in roots <==> k in Roots(sys, names[..i])
    {
      var matches := set k | k in sys.packages && sys.packages[k].name == names[i];
      assert matches == Named(sys, names[i]);
      assert names[i] in names;
      if |matches| != 1 { return Err; }
      var k :| k in matches;
      SingletonHas(matches, k);
      assert names[..i + 1] == names[..i] + [names[i]];
      assert forall k' :: k' in Roots(sys, names[..i + 1]) <==> k' in Roots(sys, names[..i]) || k' in matches;
      roots := roots + [k];
    }
    assert names[..|names|] == names;
    return Ok(roots);
  }

  lemma SingletonHas<T>(s: set<T>, x: T)
    requires |s| == 1 && x in s
    ensures s == {x}
  {
    assert |s - {x}| == 0;
  }

  /** The installed packages that satisfy one alternative, or an error when a comparison breaks. */
  method MatchAlternative(sys: System, depender: Package, r: Relation) returns (matches: Result<seq<Key>>)
    ensures matches.Ok? <==> Unbroken(sys, depender, r)
    ensures matches.Ok? ==>
      forall k :: k in matches.value <==> k in sys.packages && Meets(sys, depender, r, sys.packages[k])
  {
    var found: seq<Key> := [];
    var candidates := sys.packages.Keys;
    while candidates != {}
      invariant candidates <= sys.packages.Keys
      invariant forall k :: k in sys.packages && k !in candidates ==>
        !Breaks(sys, depender, r, sys.packages[k])
      invariant forall k :: k in found <==>
        k in sys.packages && k !in candidates && Meets(sys, depender, r, sys.packages[k])
      decreases candidates
    {
      var k :| k in candidates;
      SatisfiesMeets(sys, depender, r, sys.packages[k]);
      var verdict := Satisfies(sys, depender, r, sys.packages[k]);
      if verdict.Broken? { return Err; }
      if verdict.Yes? { found := found + [k]; }
      candidates := candidates - {k};
    }
    return Ok(found);
  }

  lemma SatisfiersAppend(sys: System, depender: Package, g: Group, r: Relation)
    ensures forall k :: k in Satisfiers(sys, depender, g + [r]) <==>
              k in Satisfiers(sys, depender, g)
              || (k in sys.packages && Meets(sys, depender, r, sys.packages[k]))
  {
    assert forall r' :: r' in g + [r] <==> r' in g || r' == r;
  }

  /** All installed satisfiers of one group, or an error when a comparison breaks or none exists. */
  method MatchGroup(sys: System, depender: Package, g: Group) returns (r: Result<seq<Key>>)
    ensures r.Ok? <==> GroupSound(sys, depender, g)
    ensures r.Ok? ==> Keys(r.value) == Satisfiers(sys, depender, g)
  {
    var matches: seq<Key> := [];
    for i := 0 to |g|
      invariant forall j :: 0 <= j < i ==> Unbroken(sys, depender, g[j])
      invariant forall k :: k in matches <==> k in Satisfiers(sys, depender, g[..i])
    {
      var found := MatchAlternative(sys, depender, g[i]);
      if found.Err? {
        assert g[i] in g;
        return Err;
      }
      SatisfiersAppend(sys, depender, g[..i], g[i]);
      assert g[..i + 1] == g[..i] + [g[i]];
      matches := matches + found.value;
    }
    assert g[..|g|] == g;
    if matches == [] {
      NothingMatched(Satisfiers(sys, depender, g), matches);
      return Err;
    }
    assert matches[0] in Satisfiers(sys, depender, g);
    return Ok(matches);
  }

  lemma NothingMatched(s: set<Key>, matches: seq<Key>)
    requires matches == [] && forall k :: k in matches <==> k in s
    ensures s == {}
  {
  }

  /** All that some groups of a package need, one after the other. */
  method ExpandGroups(sys: System, p: Package, groups: seq<Group>) returns (r: Result<seq<Key>>)
    ensures r.Ok? <==> GroupsSound(sys, p, groups)
    ensures r.Ok? ==> Keys(r.value) == Wanted(sys, p, groups)
  {
    var found: seq<Key> := [];
    NothingWanted(sys, p, groups);
    for i := 0 to |groups|
      invariant GroupsSound(sys, p, groups[..i])
      invariant Keys(found) == Wanted(sys, p, groups[..i])
    {
      var matches := MatchGroup(sys, p, groups[i]);
      SoundMore(sys, p, groups, i);
      if matches.Err? { return Err; }
      WantedMore(sys, p, groups, i);
      KeysConcat(found, matches.value);
      found := found + matches.value;
    }
    assert groups[..|groups|] == groups;
    return Ok(found);
  }

  lemma SoundMore(sys: System, depender: Package, groups: seq<Group>, i: nat)
    requires i < |groups|
    ensures GroupsSound(sys, depender, groups[..i + 1])
            <==> GroupsSound(sys, depender, groups[..i]) && GroupSound(sys, depender, groups[i])
    ensures GroupsSound(sys, depender, groups) ==> GroupsSound(sys, depender, groups[..i + 1])
  {
    assert groups[..i + 1] == groups[..i] + [groups[i]];
  }

  lemma NothingWanted(sys: System, depender: Package, groups: seq<Group>)
    ensures Wanted(sys, depender, groups[..0]) == Keys([])
  {
  }

  lemma WantedMore(sys: System, depender: Package, groups: seq<Group>, i: nat)
    requires i < |groups|
    ensures Wanted(sys, depender, groups[..i + 1])
            == Wanted(sys, depender, groups[..i]) + Satisfiers(sys, depender, groups[i])
  {
    assert groups[..i + 1] == groups[..i] + [groups[i]];
    WantedConcat(sys, depender, groups[..i], [groups[i]]);
    WantedOne(sys, depender, groups[i]);
  }

  /** All that one field of a package needs. */
  method ExpandField(sys: System, p: Package, field: string) returns (r: Result<seq<Key>>)
    ensures r.Ok? <==> RelationGroups(field).Ok? && GroupsSound(sys, p, Parsed(field))
    ensures r.Ok? ==> Keys(r.value) == Wanted(sys, p, Parsed(field))
  {
    var groups := ParseRelationGroups(field);
    if groups.Err? { return Err; }
    r := ExpandGroups(sys, p, groups.value);
  }

  /** Pre-Depends, then Depends. */
  method ExpandPackage(sys: System, k: Key) returns (r: Result<seq<Key>>)
    requires k in sys.packages
    ensures r.Ok? <==> k in Installed(sys).sound
    ensures r.Ok? ==> Keys(r.value) == Installed(sys).needs[k]
  {
    var p := sys.packages[k];
    SoundByField(sys, p);
    var first := ExpandField(sys, p, p.preDepends);
    if first.Err? { return Err; }
    var second := ExpandField(sys, p, p.depends);
    if second.Err? { return Err; }
    WantedConcat(sys, p, Parsed(p.preDepends), Parsed(p.depends));
    KeysConcat(first.value, second.value);
    return Ok(first.value + second.value);
  }

  lemma SoundByField(sys: System, p: Package)
    ensures Sound(sys, p) <==>
            && RelationGroups(p.preDepends).Ok? && GroupsSound(sys, p, Parsed(p.preDepends))
            && RelationGroups(p.depends).Ok? && GroupsSound(sys, p, Parsed(p.depends))
  {
    assert forall g :: g in Groups(p) <==> g in Parsed(p.preDepends) || g in Parsed(p.depends);
  }

  /** Every package of the set parses, each of its groups is satisfied by something installed, and
      whatever satisfies one of its alternatives is in the set as well. */
  ghost predicate Resolved(sys: System, included: set<Key>) {
    forall k :: k in included ==>
      && k in sys.packages
      && var p := sys.packages[k];
      && RelationGroups(p.preDepends).Ok? && RelationGroups(p.depends).Ok?
      && forall g :: g in RelationGroups(p.preDepends).value + RelationGroups(p.depends).value ==>
           GroupResolved(sys, p, g, included)
  }

  ghost predicate GroupResolved(sys: System, p: Package, g: Group, included: set<Key>) {
    && (exists c, r :: c in sys.packages && r in g && Meets(sys, p, r, sys.packages[c]))
    && forall c, r :: c in sys.packages && r in g && Meets(sys, p, r, sys.packages[c]) ==> c in included
  }

  lemma GroupIsResolved(sys: System, k: Key, g: Group, included: set<Key>)
    requires k in sys.packages && g in Groups(sys.packages[k]) && Sound(sys, sys.packages[k])
    requires Needs(sys, k) <= included
    ensures GroupResolved(sys, sys.packages[k], g, included)
  {
    var p := sys.packages[k];
    assert GroupSound(sys, p, g);
    var c :| c in Satisfiers(sys, p, g);
    forall c, r | c in sys.packages && r in g && Meets(sys, p, r, sys.packages[c]) ensures c in included {
      assert c in Satisfiers(sys, p, g) && c in Wanted(sys, p, Groups(p));
    }
  }

  lemma ClosedIsResolved(sys: System, roots: set<Key>, included: set<Key>)
    requires ClosedOver(Installed(sys), roots, included) && included <= Installed(sys).sound
    ensures Resolved(sys, included)
  {
    forall k, g | k in included && g in Groups(sys.packages[k])
      ensures GroupResolved(sys, sys.packages[k], g, included)
    {
      assert Installed(sys).needs[k] == Needs(sys, k);
      GroupIsResolved(sys, k, g, included);
    }
  }

  /** The closure: the least set closed over the roots, or an error exactly when a root is not
      unique or something reachable is unsound. The order in which the worklist is popped and the
      packages are listed does not show in the result. */
  method DependencyClosure(sys: System, names: seq<string>) returns (r: Result<set<Key>>)
    ensures r.Ok? ==> ClosedOver(Installed(sys), Roots(sys, names), r.value)
    ensures r.Ok? ==> forall s :: ClosedOver(Installed(sys), Roots(sys, names), s) ==> r.value <= s
    ensures r.Ok? ==> forall k :: k in r.value <==> Reachable(Installed(sys), Roots(sys, names), k)
    ensures r.Ok? ==> Resolved(sys, r.value)
    ensures r.Err? <==> !ValidArch(sys.nativeArch) || !RootsUnique(sys, names) ||
                        exists k :: k in sys.packages && Reachable(Installed(sys), Roots(sys, names), k)
                          && k !in Installed(sys).sound
  {
    if !ValidArch(sys.nativeArch) { return Err; }
    var found := FindRoots(sys, names);
    if found.Err? { return Err; }
    ghost var g, roots := Installed(sys), Roots(sys, names);
    r := Explore(sys, found.value, g, roots);
    if r.Ok? { ClosedIsResolved(sys, roots, r.value); }
  }

  method Explore(sys: System, start: seq<Key>, ghost g: Graph<Key>, ghost roots: set<Key>) returns (r: Result<set<Key>>)
    requires g == Installed(sys) && Keys(start) == roots && roots <= g.nodes
    ensures r.Ok? ==> ClosedOver(g, roots, r.value)
    ensures r.Ok? ==> forall s :: ClosedOver(g, roots, s) ==> r.value <= s
    ensures r.Ok? ==> forall k :: k in r.value <==> Reachable(g, roots, k)
    ensures r.Err? <==> exists k :: k in g.nodes && Reachable(g, roots, k) && k !in g.sound
  {
    var included: set<Key>, pending := {}, start;
    ExploringStarts(g, roots);
    while pending != []
      invariant Exploring(g, roots, included, Keys(pending))
      decreases g.nodes - included, |pending|
    {
      var key, rest := pending[|pending| - 1], pending[..|pending| - 1];
      KeysPop(pending);
      if key in included {
        ExploringSkips(g, roots, included, Keys(rest), key);
        pending := rest;
      } else {
        ExploringKey(g, roots, included, Keys(rest), key);
        var needed := ExpandPackage(sys, key);
        if needed.Err? { return Err; }
        ExploringExpands(g, roots, included, Keys(rest), key);
        KeysConcat(rest, needed.value);
        included, pending := included + {key}, rest + needed.value;
      }
    }
    ExploredIsLeast(g, roots, included);
    return Ok(included);
  }

  lemma KeysPop(ks: seq<Key>)
    requires ks != []
    ensures Keys(ks) == Keys(ks[..|ks| - 1]) + {ks[|ks| - 1]}
  {
    assert ks == ks[..|ks| - 1] + [ks[|ks| - 1]];
  }

  lemma KeysConcat(a: seq<Key>, b: seq<Key>)
    ensures Keys(a + b) == Keys(a) + Keys(b)
  {
  }
}

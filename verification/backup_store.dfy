/** Backup generations in one target directory: publication and retention by rename, with the
    process allowed to die between any two file-system actions. */
module BackupStores {
  import opened Bytes
  import opened Sizes

  datatype Manifest = Manifest(format: int, generation: string, createdAt: int, size: int, sha256: Digest)

  /** A file carries its bytes and what a JSON reader makes of them. */
  datatype Node = File(bytes: seq<Byte>, json: Option<Manifest>) | Dir(entries: map<string, Node>) | Link

  type Entries = map<string, Node>

  const BACKUP := "backup.age"
  const MANIFEST := "manifest.json"

  predicate IsDigit(c: char) { '0' <= c <= '9' }

  predicate IsHex(c: char) { IsDigit(c) || 'a' <= c <= 'f' }

  /** `hc_YYYYMMDDTHHMMSSZ_` and sixteen hexadecimal digits. */
  predicate IsGenerationName(n: string) {
    && |n| == 36 && n[0] == 'h' && n[1] == 'c' && n[2] == '_' && n[11] == 'T' && n[18] == 'Z' && n[19] == '_'
    && (forall i :: 3 <= i < 18 && i != 11 ==> IsDigit(n[i]))
    && forall i :: 20 <= i < 36 ==> IsHex(n[i])
  }

  /** The parts of a generation's name: a date, a time and an identifier. */
  ghost predicate NameParts(n: string, date: string, time: string, id: string) {
    && n == "hc_" + date + "T" + time + "Z_" + id && |date| == 8 && |time| == 6 && |id| == 16
    && (forall c :: c in date + time ==> '0' <= c <= '9')
    && forall c :: c in id ==> '0' <= c <= '9' || 'a' <= c <= 'f'
  }

  lemma NameIsParts(n: string)
    requires IsGenerationName(n)
    ensures NameParts(n, n[3..11], n[12..18], n[20..])
  {
    var date, time, id := n[3..11], n[12..18], n[20..];
    assert n == n[..3] + date + n[11..12] + time + n[18..20] + id;
    assert n[..3] == "hc_" && n[11..12] == "T" && n[18..20] == "Z_";
    forall c | c in date + time ensures '0' <= c <= '9' {
      assert (exists i :: 3 <= i < 11 && n[i] == c) || exists i :: 12 <= i < 18 && n[i] == c;
    }
  }

  lemma PartsAreName(n: string, date: string, time: string, id: string)
    requires NameParts(n, date, time, id)
    ensures IsGenerationName(n)
  {
    assert forall i :: 3 <= i < 11 ==> n[i] == date[i - 3] && n[i] in date + time;
    assert forall i :: 12 <= i < 18 ==> n[i] == time[i - 12] && n[i] in date + time;
    assert forall i :: 20 <= i < 36 ==> n[i] == id[i - 20] && n[i] in id;
  }

  /** The manifest of a complete generation, or nothing. */
  function Verify(name: string, node: Node): Option<Manifest> {
    if !IsGenerationName(name) || !node.Dir? || node.entries.Keys != {BACKUP, MANIFEST} then None
    else
      var backup, manifest := node.entries[BACKUP], node.entries[MANIFEST];
      if !backup.File? || !manifest.File? || manifest.json.None? then None
      else
        var m := manifest.json.value;
        if m.format == 1 && m.generation == name && m.size > 0
           && |backup.bytes| == m.size && Sha256(backup.bytes) == m.sha256
        then Some(m) else None
  }

  predicate Complete(name: string, entries: Entries) {
    name in entries && Verify(name, entries[name]).Some?
  }

  /** A complete generation is a directory of exactly its backup, not empty, and its manifest, which names
      the generation and gives the backup's size and digest. */
  lemma CompleteExactly(n: string, entries: Entries)
    ensures Complete(n, entries) <==>
            && n in entries && IsGenerationName(n)
            && exists bytes, json, text, created ::
                 bytes != [] && entries[n] == GenerationDirectory(n, bytes, json, text, created)
  {
    if Complete(n, entries) {
      var node := entries[n];
      var backup, manifest := node.entries[BACKUP], node.entries[MANIFEST];
      assert node.entries == map[BACKUP := backup, MANIFEST := manifest];
      assert node == GenerationDirectory(n, backup.bytes, backup.json, manifest.bytes, manifest.json.value.createdAt);
    }
  }

  function GenerationDirectory(n: string, bytes: seq<Byte>, json: Option<Manifest>, text: seq<Byte>, created: int): Node
  {
    Dir(map[BACKUP := File(bytes, json),
            MANIFEST := File(text, Some(Manifest(1, n, created, |bytes|, Sha256(bytes))))])
  }

  /** The discoverable generations that verify. */
  function ValidNames(entries: Entries): set<string> {
    set n | n in entries && Complete(n, entries)
  }

  // ---------------------------------------------------------------- order of generations

  predicate LexLess(a: string, b: string) {
    if a == "" then b != ""
    else if b == "" then false
    else a[0] < b[0] || (a[0] == b[0] && LexLess(a[1..], b[1..]))
  }

  /** A generation as the retention pass sorts it. */
  datatype Candidate = Candidate(createdAt: int, name: string)

  /** `a` sorts before `b`, newest first; on a tie the protected one, then the larger name. */
  predicate Before(a: Candidate, b: Candidate, kept: Option<string>) {
    || a.createdAt > b.createdAt
    || (a.createdAt == b.createdAt &&
        (|| (kept == Some(a.name) && kept != Some(b.name))
         || ((kept == Some(a.name) <==> kept == Some(b.name)) && LexLess(b.name, a.name))))
  }

  lemma {:induction false} LexTotal(a: string, b: string)
    ensures a == b || LexLess(a, b) || LexLess(b, a)
  {
    if a != "" && b != "" && a[0] == b[0] {
      LexTotal(a[1..], b[1..]);
      assert a == [a[0]] + a[1..] && b == [b[0]] + b[1..];
    }
  }

  lemma {:induction false} LexTransitive(a: string, b: string, c: string)
    requires LexLess(a, b) && LexLess(b, c)
    ensures LexLess(a, c)
  {
    if a != "" && a[0] == b[0] == c[0] { LexTransitive(a[1..], b[1..], c[1..]); }
  }

  lemma BeforeTotal(a: Candidate, b: Candidate, kept: Option<string>)
    ensures a == b || Before(a, b, kept) || Before(b, a, kept)
  {
    LexTotal(a.name, b.name);
  }

  lemma BeforeTransitive(a: Candidate, b: Candidate, c: Candidate, kept: Option<string>)
    requires Before(a, b, kept) && Before(b, c, kept)
    ensures Before(a, c, kept)
  {
    if LexLess(b.name, a.name) && LexLess(c.name, b.name) { LexTransitive(c.name, b.name, a.name); }
  }

  predicate NewestFirst(list: seq<Candidate>, kept: Option<string>) {
    forall i, j :: 0 <= i < j < |list| ==> Before(list[i], list[j], kept)
  }

  function Elements(list: seq<Candidate>): set<Candidate> {
    set c | c in list
  }

  /** Sorting keeps every candidate and orders them newest first. */
  method Insert(list: seq<Candidate>, c: Candidate, kept: Option<string>) returns (r: seq<Candidate>)
    requires NewestFirst(list, kept) && c !in list
    ensures NewestFirst(r, kept) && Elements(r) == Elements(list) + {c}
    ensures |r| == |list| + 1
  {
    var i := 0;
    while i < |list| && Before(list[i], c, kept)
      invariant 0 <= i <= |list|
      invariant forall k :: 0 <= k < i ==> Before(list[k], c, kept)
    {
      i := i + 1;
    }
    r := list[..i] + [c] + list[i..];
    assert forall x :: x in list <==> x in list[..i] || x in list[i..] by { assert list == list[..i] + list[i..]; }
    forall k | i <= k < |list| ensures Before(c, list[k], kept) {
      BeforeTotal(list[i], c, kept);
      if k > i { BeforeTransitive(c, list[i], list[k], kept); }
    }
    assert NewestFirst(r, kept) by {
      forall a, b | 0 <= a < b < |r| ensures Before(r[a], r[b], kept) {
        var oa, ob := if a <= i then a else a - 1, if b <= i then b else b - 1;
      }
    }
  }

  // ---------------------------------------------------------------- the target directory

  datatype Outcome = Finished | Raised | Crashed

  /** What became of the actions a process had left: none is given to one that never dies, and one that
      died had run out of them. */
  predicate Spent(before: Option<nat>, after: Option<nat>, alive: bool) {
    (before.None? <==> after.None?) && (!alive ==> after == Some(0))
  }

  class Store {
    var entries: Entries
    /** File-system actions left before the process dies; None when it does not die. */
    var budget: Option<nat>

    constructor (entries: Entries)
      ensures this.entries == entries && budget.None?
    {
      this.entries, budget := entries, None;
    }

    /** One atomic action, unless the process died before it. */
    method Act(next: Entries) returns (alive: bool)
      modifies this
      ensures alive <==> old(budget) != Some(0)
      ensures entries == if alive then next else old(entries)
      ensures budget == if alive && old(budget).Some? then Some(old(budget).value - 1) else old(budget)
    {
      if budget == Some(0) { return false; }
      if budget.Some? { budget := Some(budget.value - 1); }
      entries := next;
      alive := true;
    }
  }

  /** Only names that no generation can have differ. */
  ghost predicate SameGenerations(a: Entries, b: Entries) {
    forall n :: IsGenerationName(n) ==> (n in a <==> n in b) && (n in a ==> a[n] == b[n])
  }

  lemma SameGenerationsSameValid(a: Entries, b: Entries)
    requires SameGenerations(a, b)
    ensures ValidNames(a) == ValidNames(b)
    ensures forall n :: Complete(n, a) <==> Complete(n, b)
  {
    forall n ensures Complete(n, a) <==> Complete(n, b) {
      if IsGenerationName(n) { }
    }
  }

  /** Only names that no generation can have, and `name`, differ. */
  ghost predicate SameOtherGenerations(a: Entries, b: Entries, name: string) {
    forall n :: IsGenerationName(n) && n != name ==> (n in a <==> n in b) && (n in a ==> a[n] == b[n])
  }

  // ---------------------------------------------------------------- publication

  function PartialName(nonce: string): string {
    ".partial_" + nonce
  }

  lemma DotNamesAreHidden(prefix: string, nonce: string)
    requires prefix != "" && prefix[0] == '.'
    ensures !IsGenerationName(prefix + nonce)
  {
    assert (prefix + nonce)[0] == '.';
  }

  /** A hidden entry appears, changes or goes. */
  lemma HiddenChange(a: Entries, hidden: string, node: Node)
    requires !IsGenerationName(hidden)
    ensures SameGenerations(a, a[hidden := node]) && SameGenerations(a, a - {hidden})
  {
  }

  /** Exactly this generation appeared, with the manifest of its source. */
  ghost predicate Published(was: Entries, now: Entries, name: string, source: Node) {
    && name !in was && SameOtherGenerations(was, now, name)
    && name in now && Verify(name, source).Some? && Verify(name, now[name]) == Verify(name, source)
  }

  /** Nothing discoverable changed, or exactly this generation appeared. */
  ghost predicate AtMostPublished(was: Entries, now: Entries, name: string, source: Node) {
    SameGenerations(was, now) || Published(was, now, name, source)
  }

  /** Nothing is in the way of a publication, and the copy comes out right. */
  predicate Ready(entries: Entries, source: Node, name: string, nonce: string, copied: Entries) {
    Verify(name, source).Some? && name !in entries && PartialName(nonce) !in entries && copied == source.entries
  }

  lemma SameEntries(source: Node)
    requires source.Dir? && source.entries.Keys == {BACKUP, MANIFEST}
    ensures Dir(map[BACKUP := source.entries[BACKUP], MANIFEST := source.entries[MANIFEST]]) == source
  {
  }

  /** One action inside an entry that discovery ignores. */
  method TouchHidden(store: Store, hidden: string, node: Node) returns (alive: bool)
    requires !IsGenerationName(hidden)
    modifies store
    ensures SameGenerations(old(store.entries), store.entries)
    ensures store.entries == if alive then old(store.entries)[hidden := node] else old(store.entries)
    ensures Spent(old(store.budget), store.budget, alive)
  {
    HiddenChange(store.entries, hidden, node);
    alive := store.Act(store.entries[hidden := node]);
  }

  /** The copy and the two moves under the final name, all inside the staging directory. */
  method BuildPartial(store: Store, partial: string, name: string, halfCopied: Entries, copied: Entries,
                      faultless: bool)
    returns (o: Outcome)
    requires !IsGenerationName(partial)
    modifies store
    ensures SameGenerations(old(store.entries), store.entries)
    ensures o.Finished? ==> BACKUP in copied && MANIFEST in copied
    ensures store.entries.Keys <= old(store.entries.Keys) + {partial}
    ensures faultless && partial !in old(store.entries) && copied.Keys == {BACKUP, MANIFEST} && name !in copied ==>
      !o.Raised?
    ensures Spent(old(store.budget), store.budget, !o.Crashed?)
  {
    if partial in store.entries { return Raised; }
    var alive := TouchHidden(store, partial, Dir(halfCopied));
    if !alive { return Crashed; }
    if !faultless {
      if * { return Raised; }  // the copy stops half way
    }
    alive := TouchHidden(store, partial, Dir(copied));
    if !alive { return Crashed; }
    if name in copied { return Raised; }
    alive := TouchHidden(store, partial, Dir(copied[name := Dir(map[])]));
    if !alive { return Crashed; }
    if BACKUP !in copied { return Raised; }
    alive := TouchHidden(store, partial, Dir((copied - {BACKUP})[name := Dir(map[BACKUP := copied[BACKUP]])]));
    if !alive { return Crashed; }
    if MANIFEST !in copied { return Raised; }
    var check := Dir(map[BACKUP := copied[BACKUP], MANIFEST := copied[MANIFEST]]);
    alive := TouchHidden(store, partial, Dir((copied - {BACKUP, MANIFEST})[name := check]));
    if !alive { return Crashed; }
    return Finished;
  }

  /** The rename that makes a generation discoverable. */
  method Expose(store: Store, name: string, check: Node, partial: string, rest: Node, faultless: bool)
    returns (o: Outcome)
    requires !IsGenerationName(partial)
    modifies store
    ensures store.entries == old(store.entries)
            || (name !in old(store.entries) && store.entries == old(store.entries)[name := check][partial := rest])
    ensures o.Finished? ==>
      name !in old(store.entries) && store.entries == old(store.entries)[name := check][partial := rest]
    ensures faultless && name !in old(store.entries) ==> !o.Raised?
    ensures Spent(old(store.budget), store.budget, !o.Crashed?)
  {
    if name in store.entries { return Raised; }
    var alive := store.Act(store.entries[name := check][partial := rest]);
    if !alive { return Crashed; }
    if !faultless {
      if * { return Raised; }  // an error of fsync
    }
    return Finished;
  }

  /** Copies, checks under the final name, and exposes by one rename. The copy may come out wrong in
      any way; only the check decides. */
  method Stage(store: Store, source: Node, name: string, nonce: string, halfCopied: Entries, copied: Entries,
               faultless: bool)
    returns (o: Outcome)
    requires Verify(name, source).Some?
    modifies store
    ensures AtMostPublished(old(store.entries), store.entries, name, source)
    ensures o.Finished? ==> Published(old(store.entries), store.entries, name, source)
    ensures forall n :: n in store.entries && n !in old(store.entries) ==> n == name || n == PartialName(nonce)
    ensures faultless && Ready(old(store.entries), source, name, nonce, copied) ==> !o.Raised?
    ensures Spent(old(store.budget), store.budget, !o.Crashed?)
  {
    var partial := PartialName(nonce);
    DotNamesAreHidden(".partial_", nonce);
    o := BuildPartial(store, partial, name, halfCopied, copied, faultless);
    if !o.Finished? { return; }
    var check := Dir(map[BACKUP := copied[BACKUP], MANIFEST := copied[MANIFEST]]);
    if copied == source.entries { SameEntries(source); }
    if Verify(name, check) != Verify(name, source) { return Raised; }
    if !faultless {
      if * { return Raised; }  // an error of fsync
    }
    o := Expose(store, name, check, partial, Dir(copied - {BACKUP, MANIFEST}), faultless);
  }

  /** Publication and its `finally`: the staging directory goes, unless removal fails or the process
      dies first. */
  method Publish(store: Store, source: Node, name: string, nonce: string, halfCopied: Entries, copied: Entries,
                 faultless: bool)
    returns (o: Outcome)
    modifies store
    ensures AtMostPublished(old(store.entries), store.entries, name, source)
    ensures o.Finished? ==> Published(old(store.entries), store.entries, name, source)
    ensures Verify(name, source).None? ==> o.Raised? && store.entries == old(store.entries)
    ensures forall n :: n in store.entries && n !in old(store.entries) ==> n == name || n == PartialName(nonce)
    ensures faultless && Ready(old(store.entries), source, name, nonce, copied) ==> !o.Raised?
    ensures faultless && o.Finished? ==> PartialName(nonce) !in store.entries
    ensures Spent(old(store.budget), store.budget, !o.Crashed?)
  {
    if Verify(name, source).None? { return Raised; }
    o := Stage(store, source, name, nonce, halfCopied, copied, faultless);
    if o.Crashed? { return; }
    if !faultless {
      if * { return; }  // the removal fails, which is ignored
    }
    DotNamesAreHidden(".partial_", nonce);
    var alive := store.Act(store.entries - {PartialName(nonce)});
    if !alive { o := Crashed; }
  }

  /** A published generation carries the very bytes of its source. */
  lemma PublishedBytes(name: string, source: Node, published: Node)
    requires Verify(name, source).Some? && Verify(name, published) == Verify(name, source)
    ensures published.entries[BACKUP].bytes == source.entries[BACKUP].bytes
  {
  }

  // ---------------------------------------------------------------- retention

  function CandidateOf(n: string, entries: Entries): Candidate
    requires Complete(n, entries)
  {
    Candidate(Verify(n, entries[n]).value.createdAt, n)
  }

  /** When a complete generation was made, by its manifest. */
  function CreatedAt(n: string, entries: Entries): int
    requires Complete(n, entries)
  {
    Verify(n, entries[n]).value.createdAt
  }

  /** The first difference of two names is in favour of `a`. */
  ghost predicate NameLarger(a: string, b: string) {
    exists i :: 0 <= i < |a| && i <= |b| && a[..i] == b[..i] && (i == |b| || a[i] > b[i])
  }

  /** `m` goes before `n`: it is newer, or as new and protected, or as new with the larger name and
      neither of them protected. */
  ghost predicate Ahead(m: string, n: string, entries: Entries, kept: Option<string>)
    requires Complete(m, entries) && Complete(n, entries)
  {
    || CreatedAt(m, entries) > CreatedAt(n, entries)
    || (CreatedAt(m, entries) == CreatedAt(n, entries) && m != n
        && (kept == Some(m) || (kept != Some(n) && NameLarger(m, n))))
  }

  lemma {:induction false} LexIsNameLarger(a: string, b: string)
    ensures LexLess(b, a) <==> NameLarger(a, b)
  {
    if a != "" && b == "" {
      assert a[..0] == b[..0];
    } else if a != "" {
      LexIsNameLarger(a[1..], b[1..]);
      assert a == [a[0]] + a[1..] && b == [b[0]] + b[1..];
      if a[0] > b[0] {
        assert a[..0] == b[..0];
      } else if a[0] == b[0] {
        LargerBehind(a[0], a[1..], b[1..]);
      } else {
        SmallerFirst(a, b);
      }
    }
  }

  lemma SmallerFirst(a: string, b: string)
    requires a != "" && b != "" && a[0] < b[0]
    ensures !NameLarger(a, b)
  {
    forall i | 0 < i < |a| && i <= |b| ensures a[..i] != b[..i] { assert a[..i][0] != b[..i][0]; }
  }

  /** One equal character in front changes nothing. */
  lemma LargerBehind(c: char, a: string, b: string)
    ensures NameLarger([c] + a, [c] + b) <==> NameLarger(a, b)
  {
    forall i | 0 <= i < |a| && i <= |b| && a[..i] == b[..i] && (i == |b| || a[i] > b[i])
      ensures NameLarger([c] + a, [c] + b)
    {
      assert ([c] + a)[..i + 1] == [c] + a[..i] && ([c] + b)[..i + 1] == [c] + b[..i];
    }
    forall i | 0 < i <= |a| && i <= |b| + 1 && ([c] + a)[..i] == ([c] + b)[..i]
               && (i == |b| + 1 || ([c] + a)[i] > ([c] + b)[i])
      ensures NameLarger(a, b)
    {
      assert a[..i - 1] == ([c] + a)[..i][1..] && b[..i - 1] == ([c] + b)[..i][1..];
    }
  }

  lemma BeforeIsAhead(m: string, n: string, entries: Entries, kept: Option<string>)
    requires Complete(m, entries) && Complete(n, entries)
    ensures Before(CandidateOf(m, entries), CandidateOf(n, entries), kept) <==> Ahead(m, n, entries, kept)
  {
    LexIsNameLarger(m, n);
    LexIrreflexive(m);
  }

  /** The complete generations that go before `n`. */
  ghost function Newer(n: string, entries: Entries, kept: Option<string>): (names: set<string>)
    requires Complete(n, entries)
    ensures forall m :: m in names <==>
              m in ValidNames(entries) && Before(CandidateOf(m, entries), CandidateOf(n, entries), kept)
  {
    var names := set m | m in ValidNames(entries) && Ahead(m, n, entries, kept);
    assert forall m :: m in ValidNames(entries) ==>
             (Before(CandidateOf(m, entries), CandidateOf(n, entries), kept) <==> Ahead(m, n, entries, kept)) by {
      forall m | m in ValidNames(entries)
        ensures Before(CandidateOf(m, entries), CandidateOf(n, entries), kept) <==> Ahead(m, n, entries, kept)
      {
        BeforeIsAhead(m, n, entries, kept);
      }
    }
    names
  }

  /** A generation retention may hide: `count` newer ones are there, it is not the one just made,
      and it is older than the cutoff. */
  ghost predicate Surplus(n: string, entries: Entries, count: nat, cutoff: int, kept: Option<string>) {
    && Complete(n, entries)
    && |Newer(n, entries, kept)| >= count
    && kept != Some(n)
    && CandidateOf(n, entries).createdAt < cutoff
  }

  lemma {:induction false} NotLargerThanItself(a: string)
    ensures !NameLarger(a, a)
  {
    LexIsNameLarger(a, a);
    LexIrreflexive(a);
  }

  /** The rule by times and names alone: old enough, not protected, and behind `count` others that are
      newer, or as new and protected or of the larger name. */
  lemma SurplusByTimes(n: string, entries: Entries, count: nat, cutoff: int, kept: Option<string>)
    requires Complete(n, entries)
    ensures Surplus(n, entries, count, cutoff, kept) <==>
            && kept != Some(n) && CreatedAt(n, entries) < cutoff
            && |set m | m in ValidNames(entries) &&
                        (|| CreatedAt(m, entries) > CreatedAt(n, entries)
                         || (CreatedAt(m, entries) == CreatedAt(n, entries)
                             && (kept == Some(m) || NameLarger(m, n))))| >= count
  {
    if kept != Some(n) {
      var others := set m | m in ValidNames(entries) &&
                            (|| CreatedAt(m, entries) > CreatedAt(n, entries)
                             || (CreatedAt(m, entries) == CreatedAt(n, entries)
                                 && (kept == Some(m) || NameLarger(m, n))));
      forall m | m in ValidNames(entries) ensures m in others <==> m in Newer(n, entries, kept) {
        NotLargerThanItself(m);
        BeforeIsAhead(m, n, entries, kept);
      }
      assert others == Newer(n, entries, kept);
    }
  }

  /** Retention has nothing left to hide. */
  ghost predicate NothingSurplus(entries: Entries, count: nat, cutoff: int, kept: Option<string>) {
    forall n :: !Surplus(n, entries, count, cutoff, kept)
  }

  /** A list of distinct complete generations, newest first. */
  predicate Listing(list: seq<Candidate>, entries: Entries, kept: Option<string>) {
    && NewestFirst(list, kept)
    && forall c :: c in list ==> Complete(c.name, entries) && c == CandidateOf(c.name, entries)
  }

  function Names(list: seq<Candidate>): set<string> {
    set c | c in list :: c.name
  }

  lemma LastIsNew(list: seq<Candidate>, entries: Entries, kept: Option<string>)
    requires Listing(list, entries, kept) && list != []
    ensures list[|list| - 1].name !in Names(list[..|list| - 1])
  {
    var n := |list| - 1;
    forall c | c in list[..n] ensures c.name != list[n].name {
      var i :| 0 <= i < n && list[..n][i] == c;
      ListedApart(list, i, n, entries, kept);
    }
  }

  lemma {:induction false} NamesCount(list: seq<Candidate>, entries: Entries, kept: Option<string>)
    requires Listing(list, entries, kept)
    ensures |Names(list)| == |list|
    decreases |list|
  {
    if list != [] {
      var n := |list| - 1;
      var shorter, last := list[..n], list[n];
      assert list == shorter + [last];
      assert forall c :: c in shorter ==> c in list;
      NamesCount(shorter, entries, kept);
      LastIsNew(list, entries, kept);
      assert Names(list) == Names(shorter) + {last.name};
    }
  }

  lemma {:induction false} LexIrreflexive(a: string)
    ensures !LexLess(a, a)
  {
    if a != "" { LexIrreflexive(a[1..]); }
  }

  lemma BeforeIrreflexive(c: Candidate, kept: Option<string>)
    ensures !Before(c, c, kept)
  {
    LexIrreflexive(c.name);
  }

  lemma SubsetSize<T>(a: set<T>, b: set<T>)
    requires a <= b
    ensures |a| <= |b|
  {
    if a != b { assert a + (b - a) == b; }
  }

  /** The first `i` listed generations are newer than the one listed at `i`. */
  lemma ListedAreNewer(list: seq<Candidate>, i: nat, entries: Entries, kept: Option<string>)
    requires Listing(list, entries, kept) && i < |list|
    ensures list[i] in list && Names(list[..i]) <= Newer(list[i].name, entries, kept)
    ensures |Newer(list[i].name, entries, kept)| >= i
  {
    assert list[i] in list;
    forall c | c in list[..i] ensures c.name in Newer(list[i].name, entries, kept) {
      var k :| 0 <= k < i && list[..i][k] == c;
      assert list[k] == c && c in list;
      assert Before(list[k], list[i], kept);
    }
    assert Listing(list[..i], entries, kept) by { assert forall c :: c in list[..i] ==> c in list; }
    NamesCount(list[..i], entries, kept);
    SubsetSize(Names(list[..i]), Newer(list[i].name, entries, kept));
  }

  /** When nothing was missed, the listed place is exactly the number of newer generations. */
  lemma ListedPlace(list: seq<Candidate>, i: nat, entries: Entries, kept: Option<string>)
    requires Listing(list, entries, kept) && i < |list| && Names(list) == ValidNames(entries)
    ensures list[i] in list && |Newer(list[i].name, entries, kept)| == i
  {
    ListedAreNewer(list, i, entries, kept);
    var c := list[i];
    forall m | m in Newer(c.name, entries, kept) ensures m in Names(list[..i]) {
      assert m in Names(list);
      var d :| d in list && d.name == m;
      var k :| 0 <= k < |list| && list[k] == d;
      if k > i {
        assert Before(list[i], list[k], kept);
        BeforeTransitive(c, d, c, kept);
        BeforeIrreflexive(c, kept);
      } else if k == i {
        BeforeIrreflexive(c, kept);
      } else {
        assert list[..i][k] == d;
      }
    }
    assert Names(list[..i]) == Newer(c.name, entries, kept);
    assert Listing(list[..i], entries, kept) by { assert forall c :: c in list[..i] ==> c in list; }
    NamesCount(list[..i], entries, kept);
  }

  /** Scans the directory; what cannot be read is left out of the list, and so out of retention. */
  method ListGenerations(entries: Entries, kept: Option<string>, readable: bool) returns (list: seq<Candidate>)
    ensures Listing(list, entries, kept)
    ensures readable ==> Names(list) == ValidNames(entries)
  {
    list := [];
    var todo := entries.Keys;
    while todo != {}
      invariant todo <= entries.Keys
      invariant Listing(list, entries, kept)
      invariant forall c :: c in list ==> c.name !in todo
      invariant readable ==> Names(list) == ValidNames(entries) - todo
      decreases todo
    {
      var n :| n in todo;
      todo := todo - {n};
      var skipped := false;
      if !readable { skipped := *; }
      if Complete(n, entries) && !skipped {
        ghost var before := list;
        var c := CandidateOf(n, entries);
        list := Insert(list, c, kept);
        ElementsToNames(before, list, c);
      }
    }
  }

  lemma ElementsToNames(before: seq<Candidate>, after: seq<Candidate>, c: Candidate)
    requires Elements(after) == Elements(before) + {c}
    ensures forall x :: x in after <==> x in before || x == c
    ensures Names(after) == Names(before) + {c.name}
  {
    forall x ensures x in after <==> x in before || x == c {
      assert x in after <==> x in Elements(after);
      assert x in before <==> x in Elements(before);
    }
    assert c in after;
  }

  function Tombstone(nonce: string): string {
    ".expired_" + nonce
  }

  /** `now` is `was` with the generations in `hidden` gone, all of them surplus; entries that discovery
      ignores are free. */
  ghost predicate Trimming(was: Entries, now: Entries, hidden: set<string>, count: nat, cutoff: int,
                           kept: Option<string>) {
    && (forall n :: IsGenerationName(n) ==> (n in now <==> n in was && n !in hidden) && (n in now ==> now[n] == was[n]))
    && forall n :: n in hidden ==> Surplus(n, was, count, cutoff, kept)
  }

  /** Only surplus generations went. */
  ghost predicate Retained(was: Entries, now: Entries, count: nat, cutoff: int, kept: Option<string>) {
    && (forall n :: IsGenerationName(n) && n in now ==> n in was && now[n] == was[n])
    && forall n :: IsGenerationName(n) && n in was && n !in now ==> Surplus(n, was, count, cutoff, kept)
  }

  /** Hides one generation by a rename and then removes it; an operating-system error is a warning
      and leaves the generation, or its tombstone, where it is. */
  method HideOne(store: Store, name: string, nonce: string, faultless: bool) returns (alive: bool, gone: bool)
    requires name in store.entries && IsGenerationName(name)
    modifies store
    ensures gone ==> name !in store.entries && SameOtherGenerations(old(store.entries), store.entries, name)
    ensures !gone ==> store.entries == old(store.entries)
    ensures faultless && alive && Tombstone(nonce) !in old(store.entries) ==>
      gone && store.entries.Keys == old(store.entries).Keys - {name}
    ensures Spent(old(store.budget), store.budget, alive)
  {
    var tombstone := Tombstone(nonce);
    DotNamesAreHidden(".expired_", nonce);
    var failed := false;
    if !faultless { failed := *; }
    if failed || tombstone in store.entries { return true, false; }
    alive := store.Act((store.entries - {name})[tombstone := store.entries[name]]);
    if !alive { return false, false; }
    gone := true;
    if !faultless { failed := *; }
    if failed { return; }
    alive := store.Act(store.entries - {tombstone});
  }

  /** No tombstone of the pass is taken. */
  ghost predicate TombstonesFree(entries: Entries, nonces: nat -> string) {
    forall i :: Tombstone(nonces(i)) !in entries
  }

  /** Hides only surplus generations, and with nothing going wrong every surplus one. */
  method Retain(store: Store, count: nat, cutoff: int, kept: Option<string>, nonces: nat -> string, faultless: bool)
    returns (o: Outcome)
    modifies store
    ensures Retained(old(store.entries), store.entries, count, cutoff, kept)
    ensures faultless && TombstonesFree(old(store.entries), nonces) && o.Finished? ==>
      && (forall n :: Surplus(n, old(store.entries), count, cutoff, kept) ==> n !in store.entries)
      && NothingSurplus(store.entries, count, cutoff, kept)
    ensures forall n :: n in ValidNames(old(store.entries)) && n !in ValidNames(store.entries) ==>
      Outlived(store.entries, CreatedAt(n, old(store.entries)), count)
    ensures !o.Raised? && Spent(old(store.budget), store.budget, !o.Crashed?)
  {
    ghost var was := store.entries;
    o := HideSurplus(store, count, cutoff, kept, nonces, faultless);
    forall n | n in ValidNames(was) && n !in ValidNames(store.entries)
      ensures Outlived(store.entries, CreatedAt(n, was), count)
    {
      GoneAreOutlived(was, store.entries, n, count, cutoff, kept);
    }
  }

  method HideSurplus(store: Store, count: nat, cutoff: int, kept: Option<string>, nonces: nat -> string,
                     faultless: bool)
    returns (o: Outcome)
    modifies store
    ensures Retained(old(store.entries), store.entries, count, cutoff, kept)
    ensures faultless && TombstonesFree(old(store.entries), nonces) && o.Finished? ==>
      && (forall n :: Surplus(n, old(store.entries), count, cutoff, kept) ==> n !in store.entries)
      && NothingSurplus(store.entries, count, cutoff, kept)
    ensures !o.Raised? && Spent(old(store.budget), store.budget, !o.Crashed?)
  {
    ghost var was := store.entries;
    var list := ListGenerations(store.entries, kept, faultless);
    if |list| <= count {
      if faultless { NoSurplus(list, was, count, cutoff, kept); }
      return Finished;
    }
    var alive;
    ghost var hidden;
    alive, hidden := TrimTail(store, list, count, cutoff, kept, nonces, faultless);
    if !alive { return Crashed; }
    if faultless && TombstonesFree(was, nonces) { AllSurplusHidden(list, was, hidden, count, cutoff, kept); }
    SurplusShrinks(was, store.entries, count, cutoff, kept);
    return Finished;
  }

  /** Hiding generations makes no other one surplus. */
  lemma SurplusShrinks(was: Entries, now: Entries, count: nat, cutoff: int, kept: Option<string>)
    requires forall n :: IsGenerationName(n) && n in now ==> n in was && now[n] == was[n]
    ensures forall n :: Surplus(n, now, count, cutoff, kept) ==> Surplus(n, was, count, cutoff, kept)
  {
    forall n | Surplus(n, now, count, cutoff, kept) ensures Surplus(n, was, count, cutoff, kept) {
      SubsetSize(Newer(n, now, kept), Newer(n, was, kept));
    }
  }

  lemma NoSurplus(list: seq<Candidate>, entries: Entries, count: nat, cutoff: int, kept: Option<string>)
    requires Listing(list, entries, kept) && Names(list) == ValidNames(entries) && |list| <= count
    ensures NothingSurplus(entries, count, cutoff, kept)
  {
    forall n | Complete(n, entries) ensures |Newer(n, entries, kept)| < count {
      var i := PlaceOf(list, n, entries, kept);
    }
  }

  lemma PlaceOf(list: seq<Candidate>, n: string, entries: Entries, kept: Option<string>) returns (i: nat)
    requires Listing(list, entries, kept) && Names(list) == ValidNames(entries) && Complete(n, entries)
    ensures i < |list| && list[i].name == n && |Newer(n, entries, kept)| == i
  {
    assert n in Names(list);
    var c :| c in list && c.name == n;
    i :| 0 <= i < |list| && list[i] == c;
    ListedPlace(list, i, entries, kept);
  }

  lemma ListedApart(list: seq<Candidate>, i: nat, j: nat, entries: Entries, kept: Option<string>)
    requires Listing(list, entries, kept) && i < j < |list|
    ensures list[i].name != list[j].name
  {
    assert list[i] in list && list[j] in list && Before(list[i], list[j], kept);
    if list[i].name == list[j].name { BeforeIrreflexive(list[i], kept); }
  }

  /** One turn of the pass: the generation listed at `i`, if it is eligible. */
  method HideListed(store: Store, list: seq<Candidate>, i: nat, count: nat, cutoff: int, kept: Option<string>,
                    nonce: string,
                    faultless: bool, ghost was: Entries, ghost hidden: set<string>)
    returns (alive: bool, ghost more: set<string>)
    requires count <= i < |list| && Listing(list, was, kept)
             && Trimming(was, store.entries, hidden, count, cutoff, kept)
    requires list[i].name !in hidden
    modifies store
    ensures more == hidden || more == hidden + {list[i].name}
    ensures Trimming(was, store.entries, more, count, cutoff, kept)
    ensures faultless && alive && Tombstone(nonce) !in old(store.entries) ==>
      store.entries.Keys <= old(store.entries.Keys) && (Eligible(list[i], cutoff, kept) ==> list[i].name in more)
    ensures Spent(old(store.budget), store.budget, alive)
  {
    alive, more := true, hidden;
    if !Eligible(list[i], cutoff, kept) { return; }
    ghost var now := store.entries;
    StillListed(was, now, hidden, list, i, count, cutoff, kept);
    var gone;
    alive, gone := HideOne(store, list[i].name, nonce, faultless);
    if gone {
      TrimMore(was, now, hidden, list, i, count, cutoff, kept, store.entries);
      more := hidden + {list[i].name};
    }
  }

  /** The loop over the tail of the list; it stops only when the process dies. */
  method TrimTail(store: Store, list: seq<Candidate>, count: nat, cutoff: int, kept: Option<string>,
                  nonces: nat -> string,
                  faultless: bool) returns (alive: bool, ghost hidden: set<string>)
    requires Listing(list, store.entries, kept) && count < |list|
    modifies store
    ensures Trimming(old(store.entries), store.entries, hidden, count, cutoff, kept)
    ensures faultless && TombstonesFree(old(store.entries), nonces) && alive ==>
      EligibleHidden(list, count, |list|, hidden, cutoff, kept)
    ensures Spent(old(store.budget), store.budget, alive)
  {
    ghost var was := store.entries;
    ghost var clear := faultless && TombstonesFree(was, nonces);
    alive, hidden := true, {};
    for i := count to |list|
      invariant alive && Trimming(was, store.entries, hidden, count, cutoff, kept)
      invariant forall j :: i <= j < |list| ==> list[j].name !in hidden
      invariant clear ==> store.entries.Keys <= was.Keys && EligibleHidden(list, count, i, hidden, cutoff, kept)
      invariant Spent(old(store.budget), store.budget, true)
    {
      OthersListed(list, i, was, kept);
      ghost var more;
      alive, more := HideListed(store, list, i, count, cutoff, kept, nonces(i), faultless, was, hidden);
      hidden := more;
      if !alive { return; }
    }
  }

  predicate EligibleHidden(list: seq<Candidate>, from: nat, to: nat, hidden: set<string>, cutoff: int,
                           kept: Option<string>)
    requires to <= |list|
  {
    forall j :: from <= j < to && Eligible(list[j], cutoff, kept) ==> list[j].name in hidden
  }

  lemma StillListed(was: Entries, now: Entries, hidden: set<string>, list: seq<Candidate>, i: nat, count: nat,
                    cutoff: int, kept: Option<string>)
    requires Listing(list, was, kept) && Trimming(was, now, hidden, count, cutoff, kept)
    requires i < |list| && list[i].name !in hidden
    ensures list[i].name in now && IsGenerationName(list[i].name)
  {
    assert list[i] in list;
  }

  lemma TrimMore(was: Entries, now: Entries, hidden: set<string>, list: seq<Candidate>, i: nat, count: nat,
                 cutoff: int, kept: Option<string>, next: Entries)
    requires Listing(list, was, kept) && Trimming(was, now, hidden, count, cutoff, kept)
    requires count <= i < |list| && Eligible(list[i], cutoff, kept)
    requires SameOtherGenerations(now, next, list[i].name) && list[i].name !in next
    ensures Trimming(was, next, hidden + {list[i].name}, count, cutoff, kept)
  {
    ListedAreNewer(list, i, was, kept);
    assert Surplus(list[i].name, was, count, cutoff, kept);
  }

  predicate Eligible(c: Candidate, cutoff: int, kept: Option<string>) {
    kept != Some(c.name) && c.createdAt < cutoff
  }

  lemma OthersListed(list: seq<Candidate>, i: nat, entries: Entries, kept: Option<string>)
    requires Listing(list, entries, kept) && i < |list|
    ensures forall j :: i < j < |list| ==> list[j].name != list[i].name
  {
    forall j | i < j < |list| {
      ListedApart(list, i, j, entries, kept);
    }
  }

  lemma AllSurplusHidden(list: seq<Candidate>, was: Entries, hidden: set<string>, count: nat, cutoff: int,
                         kept: Option<string>)
    requires Listing(list, was, kept) && Names(list) == ValidNames(was) && count <= |list|
    requires EligibleHidden(list, count, |list|, hidden, cutoff, kept)
    ensures forall n :: Surplus(n, was, count, cutoff, kept) ==> n in hidden
  {
    forall n | Surplus(n, was, count, cutoff, kept) ensures n in hidden {
      var i := PlaceOf(list, n, was, kept);
      assert list[i] in list;
    }
  }

  // ---------------------------------------------------------------- retention keeps the count

  /** Some candidate of a set that none of it sorts before. */
  lemma {:induction false} NewestOf(s: set<Candidate>, kept: Option<string>) returns (c: Candidate)
    requires s != {}
    ensures c in s && forall d :: d in s ==> !Before(d, c, kept)
    decreases |s|
  {
    var x :| x in s;
    var rest := s - {x};
    BeforeIrreflexive(x, kept);
    if rest == {} {
      assert s == {x};
      return x;
    }
    var y := NewestOf(rest, kept);
    if !Before(x, y, kept) { return y; }
    forall d | d in rest ensures !Before(d, x, kept) {
      if Before(d, x, kept) { BeforeTransitive(d, x, y, kept); }
    }
    return x;
  }

  /** Some generation of a set that no other one of it is newer than. */
  lemma NewestName(names: set<string>, entries: Entries, kept: Option<string>) returns (n: string)
    requires names != {} && names <= ValidNames(entries)
    ensures n in names && Newer(n, entries, kept) !! names
  {
    var candidates := set n | n in names :: CandidateOf(n, entries);
    var any :| any in names;
    assert CandidateOf(any, entries) in candidates;
    var c := NewestOf(candidates, kept);
    n := c.name;
    forall m | m in names ensures m !in Newer(n, entries, kept) {
      assert CandidateOf(m, entries) in candidates;
    }
  }

  /** Whatever part of the surplus goes, the smaller of the count and the generations there were stays. */
  lemma CountKept(was: Entries, now: Entries, count: nat, cutoff: int, kept: Option<string>)
    requires Retained(was, now, count, cutoff, kept)
    ensures |ValidNames(now)| >= Min(count, |ValidNames(was)|)
  {
    RetainedValid(was, now, count, cutoff, kept);
    CountByNewer(was, ValidNames(now), count, kept);
  }

  lemma CountByNewer(was: Entries, after: set<string>, count: nat, kept: Option<string>)
    requires after <= ValidNames(was)
    requires forall n :: n in ValidNames(was) && n !in after ==> |Newer(n, was, kept)| >= count
    ensures |after| >= Min(count, |ValidNames(was)|)
  {
    var before := ValidNames(was);
    var hidden := before - after;
    if hidden == {} {
      EmptyDifference(before, after);
    } else {
      var n := NewestName(hidden, was, kept);
      EnoughStays(before, after, Newer(n, was, kept), count);
    }
  }

  lemma EmptyDifference(before: set<string>, after: set<string>)
    requires after <= before && before - after == {}
    ensures after == before
  {
    forall n | n in before ensures n in after {
      assert n !in before - after;
    }
  }

  lemma EnoughStays(before: set<string>, after: set<string>, newer: set<string>, count: nat)
    requires newer <= before && newer !! before - after && |newer| >= count
    ensures |after| >= count
  {
    assert newer <= after;
    SubsetSize(newer, after);
  }

  lemma RetainedValid(was: Entries, now: Entries, count: nat, cutoff: int, kept: Option<string>)
    requires Retained(was, now, count, cutoff, kept)
    ensures ValidNames(now) <= ValidNames(was)
    ensures forall n :: n in ValidNames(was) && n !in ValidNames(now) ==> |Newer(n, was, kept)| >= count
  {
    forall n | n in ValidNames(was) && n !in ValidNames(now) ensures |Newer(n, was, kept)| >= count {
      GoneMeansSurplus(was, now, n, count, cutoff, kept);
    }
  }

  lemma GoneMeansSurplus(was: Entries, now: Entries, n: string, count: nat, cutoff: int, kept: Option<string>)
    requires Retained(was, now, count, cutoff, kept) && n in ValidNames(was) && n !in ValidNames(now)
    ensures Surplus(n, was, count, cutoff, kept)
  {
    assert IsGenerationName(n);
    if n in now { StillValid(was, now, n); }
  }

  lemma StillValid(was: Entries, now: Entries, n: string)
    requires n in ValidNames(was) && n in now && now[n] == was[n]
    ensures n in ValidNames(now)
  {
  }

  /** At least `count` complete generations that are not older than a given time are there. */
  ghost predicate Outlived(entries: Entries, time: int, count: nat) {
    |NotOlder(entries, time)| >= count
  }

  ghost function NotOlder(entries: Entries, time: int): set<string> {
    set m | m in ValidNames(entries) && CreatedAt(m, entries) >= time
  }

  /** Whatever part of the surplus goes, at least `count` generations that are not older stay behind each
      one that went. */
  lemma GoneAreOutlived(was: Entries, now: Entries, n: string, count: nat, cutoff: int, kept: Option<string>)
    requires Retained(was, now, count, cutoff, kept) && n in ValidNames(was) && n !in ValidNames(now)
    ensures Outlived(now, CreatedAt(n, was), count)
  {
    RetainedValid(was, now, count, cutoff, kept);
    var gone := ValidNames(was) - ValidNames(now);
    assert n in gone;
    var first := NewestName(gone, was, kept);
    NewerStay(was, now, n, first, Newer(first, was, kept), count, cutoff, kept);
    SubsetSize(Newer(first, was, kept), NotOlder(now, CreatedAt(n, was)));
  }

  /** All that goes before the first that went stays, and is not older than any that went. */
  lemma NewerStay(was: Entries, now: Entries, n: string, first: string, newer: set<string>, count: nat, cutoff: int,
                  kept: Option<string>)
    requires Retained(was, now, count, cutoff, kept) && n in ValidNames(was) && n !in ValidNames(now)
    requires first in ValidNames(was) && newer == Newer(first, was, kept)
    requires newer !! ValidNames(was) - ValidNames(now)
    ensures newer <= NotOlder(now, CreatedAt(n, was))
  {
    assert n in ValidNames(was) - ValidNames(now) && n !in newer;
    BeforeTotal(CandidateOf(first, was), CandidateOf(n, was), kept);
    forall m | m in newer ensures m in ValidNames(now) && CreatedAt(m, now) >= CreatedAt(n, was) {
      assert m !in ValidNames(was) - ValidNames(now);
      StaysAsItWas(was, now, m, count, cutoff, kept);
    }
  }

  lemma StaysAsItWas(was: Entries, now: Entries, m: string, count: nat, cutoff: int, kept: Option<string>)
    requires Retained(was, now, count, cutoff, kept) && m in ValidNames(now)
    ensures m in ValidNames(was) && CreatedAt(m, now) == CreatedAt(m, was)
  {
    assert IsGenerationName(m);
  }

  /** When all of the surplus went, and nothing else, what could have gone and stays was ahead of what
      went: it is newer, or as new with the larger name. */
  lemma StayingAreAhead(was: Entries, now: Entries, m: string, n: string, count: nat, cutoff: int, kept: Option<string>)
    requires Retained(was, now, count, cutoff, kept)
    requires forall n :: Surplus(n, was, count, cutoff, kept) ==> n !in now
    requires n in ValidNames(was) && n !in now && m in ValidNames(now)
    requires kept != Some(m) && CreatedAt(m, now) < cutoff
    ensures CreatedAt(m, now) > CreatedAt(n, was) || (CreatedAt(m, now) == CreatedAt(n, was) && NameLarger(m, n))
  {
    StaysAsItWas(was, now, m, count, cutoff, kept);
    assert Surplus(n, was, count, cutoff, kept) && !Surplus(m, was, count, cutoff, kept);
    BeforeTotal(CandidateOf(m, was), CandidateOf(n, was), kept);
    if Before(CandidateOf(n, was), CandidateOf(m, was), kept) {
      forall x | x in Newer(n, was, kept) ensures x in Newer(m, was, kept) {
        BeforeTransitive(CandidateOf(x, was), CandidateOf(n, was), CandidateOf(m, was), kept);
      }
      SubsetSize(Newer(n, was, kept), Newer(m, was, kept));
      assert false;
    }
    BeforeIsAhead(m, n, was, kept);
  }

  // ---------------------------------------------------------------- runs

  /** What one backup run meets: its generation, how each copy comes out, whether anything fails, and
      after how many actions on each side the process dies, if it does. */
  datatype Run = Run(name: string, source: Node, nonces: nat -> string, halfCopied: Entries, localCopy: Entries,
                     remoteCopy: Entries, cutoff: int, faultless: bool,
                     localBudget: Option<nat>, remoteBudget: Option<nat>)

  /** Nothing is in the way of one side of a run. */
  ghost predicate SideReady(entries: Entries, run: Run, copy: Entries) {
    Ready(entries, run.source, run.name, run.nonces(0), copy) && TombstonesFree(entries, run.nonces)
  }

  /** Nothing is in the way of a run, nothing fails, and the process lives. */
  ghost predicate Undisturbed(local: Entries, remote: Entries, run: Run) {
    && run.faultless && run.localBudget.None? && run.remoteBudget.None?
    && SideReady(local, run, run.localCopy) && SideReady(remote, run, run.remoteCopy)
  }

  /** What a run may do to one side, wherever it stops: publish its generation or not, and only then
      hide surplus ones. */
  ghost predicate SideStep(before: Entries, after: Entries, run: Run, count: nat) {
    SameGenerations(before, after) ||
    exists middle :: Published(before, middle, run.name, run.source)
                     && Retained(middle, after, count, run.cutoff, Some(run.name))
  }

  /** The run's generation is new on this side. */
  predicate Arrived(before: Entries, after: Entries, run: Run) {
    run.name !in before && Complete(run.name, after)
  }

  lemma TombstonesStayFree(was: Entries, now: Entries, run: Run)
    requires TombstonesFree(was, run.nonces)
    requires forall n :: n in now && n !in was ==> n == run.name || n == PartialName(run.nonces(0))
    requires IsGenerationName(run.name)
    ensures TombstonesFree(now, run.nonces)
  {
    forall i ensures Tombstone(run.nonces(i)) !in now {
      DotNamesAreHidden(".expired_", run.nonces(i));
      assert Tombstone(run.nonces(i))[1] == 'e' && PartialName(run.nonces(0))[1] == 'p';
    }
  }

  /** One side after its retention pass. */
  lemma SideDone(before: Entries, middle: Entries, after: Entries, run: Run, count: nat)
    requires Published(before, middle, run.name, run.source)
    requires Retained(middle, after, count, run.cutoff, Some(run.name))
    ensures SideStep(before, after, run, count)
    ensures run.name !in before && run.name in after && after[run.name] == middle[run.name]
    ensures Verify(run.name, after[run.name]) == Verify(run.name, run.source)
  {
  }

  /** The backup branch: local publication, off-site replication, retention on both. It finishes when
      nothing disturbs it, and then leaves no surplus generation on either side. */
  method Backup(local: Store, remote: Store, run: Run, count: nat, days: int) returns (o: Outcome)
    requires local != remote
    modifies local, remote
    ensures SideStep(old(local.entries), local.entries, run, count)
            && SideStep(old(remote.entries), remote.entries, run, count)
    ensures count < 2 || days < 0 ==>
      o.Raised? && local.entries == old(local.entries) && remote.entries == old(remote.entries)
    ensures o.Finished? ==>
      && Arrived(old(local.entries), local.entries, run) && Arrived(old(remote.entries), remote.entries, run)
      && Verify(run.name, local.entries[run.name]) == Verify(run.name, run.source)
      && Verify(run.name, remote.entries[run.name]) == Verify(run.name, run.source)
    ensures count >= 2 && days >= 0 && old(local.budget).None? && old(remote.budget).None? && run.faultless
            && SideReady(old(local.entries), run, run.localCopy)
            && SideReady(old(remote.entries), run, run.remoteCopy) ==>
      && o.Finished?
      && NothingSurplus(local.entries, count, run.cutoff, Some(run.name))
      && NothingSurplus(remote.entries, count, run.cutoff, Some(run.name))
  {
    if count < 2 || days < 0 { return Raised; }
    o := Publish(local, run.source, run.name, run.nonces(0), run.halfCopied, run.localCopy, run.faultless);
    ghost var localMiddle := local.entries;
    RetainedNothing(localMiddle, count, run.cutoff, Some(run.name));
    if !o.Finished? { return; }
    o := Publish(remote, run.source, run.name, run.nonces(0), run.halfCopied, run.remoteCopy, run.faultless);
    ghost var remoteMiddle := remote.entries;
    RetainedNothing(remoteMiddle, count, run.cutoff, Some(run.name));
    if !o.Finished? { return; }
    if !Complete(run.name, remote.entries) { return Raised; }
    if TombstonesFree(old(local.entries), run.nonces) { TombstonesStayFree(old(local.entries), localMiddle, run); }
    if TombstonesFree(old(remote.entries), run.nonces) { TombstonesStayFree(old(remote.entries), remoteMiddle, run); }
    o := RetainUnlessScanFails(local, run, count);
    SideDone(old(local.entries), localMiddle, local.entries, run, count);
    if o.Crashed? { return; }
    o := RetainUnlessScanFails(remote, run, count);
    SideDone(old(remote.entries), remoteMiddle, remote.entries, run, count);
    if o.Crashed? { return; }
    return Finished;
  }

  lemma RetainedNothing(entries: Entries, count: nat, cutoff: int, kept: Option<string>)
    ensures Retained(entries, entries, count, cutoff, kept)
  {
  }

  /** A retention pass whose own failure is only a warning. */
  method RetainUnlessScanFails(store: Store, run: Run, count: nat) returns (o: Outcome)
    modifies store
    ensures Retained(old(store.entries), store.entries, count, run.cutoff, Some(run.name))
    ensures run.faultless && TombstonesFree(old(store.entries), run.nonces) && o.Finished? ==>
      NothingSurplus(store.entries, count, run.cutoff, Some(run.name))
    ensures run.faultless ==> !o.Raised?
    ensures Spent(old(store.budget), store.budget, !o.Crashed?)
  {
    if !run.faultless {
      if * { return Raised; }  // the scan fails
    }
    o := Retain(store, count, run.cutoff, Some(run.name), run.nonces, run.faultless);
  }
}

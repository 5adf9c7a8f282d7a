/** The runtime fixture of the D5.1.13 experiment: exclusive creation, one writer per slot, and a
    cleanup that trusts only what it observes. */
module Fixtures {
  import opened Bytes
  import opened Hosts
  import opened Text

  /** What the fixture recorded before it asked Docker for a container. */
  datatype Recorded = Recorded(slot: string, image: string, binds: map<string, Source>)

  datatype Slot = Slot(name: string, createdFresh: bool)

  datatype Status = NotStarted | InProgress | ResourcesAbsent | Pass | Fail

  datatype Fault = NoFault | MissingMarker | MissingDataMount | WrongDataMount

  // ---------------------------------------------------------------- requests

  predicate Lower(c: char) { 'a' <= c <= 'z' }

  predicate Digit(c: char) { '0' <= c <= '9' }

  /** A lower-case letter, and at most 39 more of them, digits and hyphens. */
  predicate SafeName(name: string) {
    0 < |name| <= 40 && Lower(name[0])
    && forall i :: 1 <= i < |name| ==> Lower(name[i]) || Digit(name[i]) || name[i] == '-'
  }

  /** An image named by its digest: `sha256:` and 64 hexadecimal digits. */
  predicate ImageDigest(image: string) {
    |image| == 71 && image[..7] == "sha256:"
    && forall i :: 7 <= i < 71 ==> Digit(image[i]) || 'a' <= image[i] <= 'f'
  }

  /** A letter and at most 39 more characters; a digest of 64. */
  lemma SafeNamesAre(name: string)
    ensures SafeName(name) <==>
            exists first, rest ::
              && name == [first] + rest && 'a' <= first <= 'z' && |rest| <= 39
              && forall c :: c in rest ==> 'a' <= c <= 'z' || '0' <= c <= '9' || c == '-'
  {
    if SafeName(name) {
      var first, rest := name[0], name[1..];
      assert name == [first] + rest && forall i :: 0 <= i < |rest| ==> rest[i] == name[i + 1];
    }
    forall first, rest | name == [first] + rest && 'a' <= first <= 'z' && |rest| <= 39
                         && forall c :: c in rest ==> 'a' <= c <= 'z' || '0' <= c <= '9' || c == '-'
      ensures SafeName(name)
    {
      assert forall i :: 1 <= i < |name| ==> name[i] == rest[i - 1] && name[i] in rest;
    }
  }

  lemma ImageDigestsAre(image: string)
    ensures ImageDigest(image) <==>
            exists hex :: image == "sha256:" + hex && |hex| == 64
                          && forall c :: c in hex ==> '0' <= c <= '9' || 'a' <= c <= 'f'
  {
    if ImageDigest(image) {
      var hex := image[7..];
      assert image == "sha256:" + hex && forall i :: 0 <= i < |hex| ==> hex[i] == image[i + 7];
    }
    forall hex | image == "sha256:" + hex && |hex| == 64
                 && forall c :: c in hex ==> '0' <= c <= '9' || 'a' <= c <= 'f'
      ensures ImageDigest(image)
    {
      assert image[..7] == "sha256:" && forall i :: 7 <= i < 71 ==> image[i] == hex[i - 7] && image[i] in hex;
    }
  }

  const PGDATA := "/var/lib/postgresql/data"
  const MARKER := "/run/homecloud/volume-marker"

  /** What a container of the slot is given, with a reviewed fault or without. */
  function BindsOf(slot: string, fault: Fault, name: string): map<string, Source> {
    var binds := map[
      PGDATA := SlotData(slot), MARKER := SlotMarker(slot), "/run/homecloud/startup.gate" := SlotGate(slot),
      "/run/homecloud/startup-gate.sh" := GateScript, "/run/homecloud/host-mountinfo" := HostMountinfo,
      "/run/homecloud/dev" := DeviceNodes];
    match fault
    case NoFault => binds
    case MissingMarker => binds - {MARKER}
    case MissingDataMount => binds - {PGDATA}
    case WrongDataMount => binds[PGDATA := WrongData(name)]
  }

  /** Where the data directory may lead: to the container's own slot, or to a directory of its own. */
  predicate WellBound(namespace: string, full: string, r: Recorded) {
    PGDATA in r.binds ==>
      match r.binds[PGDATA]
      case SlotData(slot) => slot == r.slot
      case WrongData(name) => full == FullName(namespace, name)
      case _ => false
  }

  /** A fault changes one bind and no other: without one the slot's own data and marker are bound. */
  lemma OneFault(slot: string, fault: Fault, name: string, target: string)
    ensures var faultless, faulty := BindsOf(slot, NoFault, name), BindsOf(slot, fault, name);
            && PGDATA in faultless && faultless[PGDATA] == SlotData(slot)
            && MARKER in faultless && faultless[MARKER] == SlotMarker(slot)
            && (target != (if fault.MissingMarker? then MARKER else PGDATA) ==>
                  (target in faulty <==> target in faultless)
                  && (target in faulty ==> faulty[target] == faultless[target]))
            && (fault.MissingMarker? ==> MARKER !in faulty)
            && (fault.MissingDataMount? ==> PGDATA !in faulty)
            && (fault.WrongDataMount? ==> PGDATA in faulty && faulty[PGDATA] == WrongData(name))
  {
    assert MARKER[15] != PGDATA[15];
  }

  /** A request to start a container is in order: its slot is recorded, its name safe and unused, and its
      image one of the admitted ones. */
  predicate Admitted(short: string, full: string, image: string, slot: string, slots: map<string, Slot>,
                     images: set<string>, recorded: map<string, Recorded>)
  {
    slot in slots && SafeName(short) && ImageDigest(image) && image in images && full !in recorded
  }

  // ---------------------------------------------------------------- worlds

  predicate OwnedAs(c: Container, namespace: string, r: Recorded) {
    c.namespace == namespace && c.slot == r.slot && c.image == r.image && c.binds == r.binds && !c.hasVolume
  }

  /** A container is proved own exactly when it is what was asked for, running or not. */
  lemma OwnedMeans(c: Container, namespace: string, r: Recorded)
    ensures OwnedAs(c, namespace, r) <==> exists running :: c == Launched(namespace, r, running)
  {
    if OwnedAs(c, namespace, r) { assert c == Launched(namespace, r, c.running); }
  }

  predicate AbsentOrOwned(w: World, name: string, namespace: string, r: Recorded) {
    name in w.containers ==> OwnedAs(w.containers[name], namespace, r)
  }

  /** The single volume mount of the fixture, from a device proved to be on its backing file. */
  predicate OwnMountOnly(w: World) {
    |w.rootMounts| == 1 && w.rootMounts[0] == OwnMount(w.rootMounts[0].source)
    && w.rootMounts[0].source in Associated(w)
  }

  /** Nothing of the fixture is left. */
  predicate AllGone(w: World, recorded: set<string>) {
    w.root.None? && w.rootMounts == [] && Associated(w) == {} && w.containers.Keys !! recorded
  }

  /** When cleanup may issue a command: deletion only of the own directory with no mount below it, and
      everything else only on a resource proved to be its own at that moment. */
  predicate Justified(e: Issued, namespace: string, recorded: map<string, Recorded>, root: Option<Inode>) {
    match e.command
    case RemoveTree => e.world.rootMounts == [] && root.Some? && e.world.root == root
    case Umount => OwnMountOnly(e.world)
    case Detach(device) => device in Associated(e.world)
    case DockerRemove(name) =>
      name in recorded && name in e.world.containers && OwnedAs(e.world.containers[name], namespace, recorded[name])
    case _ => false
  }

  /** A command that cleanup alone may issue. */
  predicate Destructive(c: Command) {
    c.RemoveTree? || c.Umount? || c.Detach? || c.DockerRemove?
  }

  /** What cleanup added to the log is justified, in worlds whose containers were all there before. */
  ghost predicate CleanLog(was: seq<Issued>, now: seq<Issued>, before: World, namespace: string,
                           recorded: map<string, Recorded>,
                           root: Option<Inode>) {
    was <= now && forall i :: |was| <= i < |now| ==>
      Justified(now[i], namespace, recorded, root) && Shrunk(before, now[i].world)
  }

  /** What creation and use added to the log destroys nothing. */
  ghost predicate BuildLog(was: seq<Issued>, now: seq<Issued>, before: World) {
    was <= now && forall i :: |was| <= i < |now| ==> !Destructive(now[i].command) && Shrunk(before, now[i].world)
  }

  /** Neither does it start anything. */
  ghost predicate QuietLog(was: seq<Issued>, now: seq<Issued>, before: World) {
    BuildLog(was, now, before) && forall i :: |was| <= i < |now| ==> !now[i].command.DockerRun?
  }

  /** At most one start was added to the log, and it is on this slot. */
  ghost predicate OneStart(was: seq<Issued>, now: seq<Issued>, slot: string) {
    && (forall i, j :: |was| <= i < j < |now| && now[i].command.DockerRun? ==> !now[j].command.DockerRun?)
    && forall i :: |was| <= i < |now| && now[i].command.DockerRun? ==> now[i].command.container.slot == slot
  }

  /** A start on empty data. */
  predicate Initialises(e: Issued) {
    e.command.DockerRun? && e.command.container.slot in e.world.data && e.world.data[e.command.container.slot].Empty?
  }

  /** No container is running on the slot. */
  predicate NoWriter(w: World, namespace: string, slot: string) {
    forall n :: n in w.containers && w.containers[n].namespace == namespace && w.containers[n].slot == slot
                ==> !w.containers[n].running
  }

  predicate OneWriterPerSlot(w: World, namespace: string) {
    forall n, m :: n in w.containers && m in w.containers && w.containers[n].running && w.containers[m].running
                   && w.containers[n].namespace == namespace == w.containers[m].namespace
                   && w.containers[n].slot == w.containers[m].slot
                   ==> n == m
  }

  /** No two running containers have one data directory. */
  predicate OneWriterPerData(w: World, namespace: string) {
    forall n, m :: n in w.containers && m in w.containers && w.containers[n].running && w.containers[m].running
                   && w.containers[n].namespace == namespace == w.containers[m].namespace
                   && PGDATA in w.containers[n].binds && PGDATA in w.containers[m].binds
                   && w.containers[n].binds[PGDATA] == w.containers[m].binds[PGDATA]
                   ==> n == m
  }

  /** One writer a slot, and one a data directory. */
  predicate Calm(w: World, namespace: string) {
    OneWriterPerSlot(w, namespace) && OneWriterPerData(w, namespace)
  }

  /** Only containers went away. */
  predicate Shrunk(before: World, after: World) {
    forall n :: n in after.containers ==> n in before.containers && after.containers[n] == before.containers[n]
  }

  /** Every device on the backing file is the same one. */
  predicate AtMostOne(devices: set<Loop>) {
    forall a, b :: a in devices && b in devices ==> a == b
  }

  lemma AtMostOneIsSize(devices: set<Loop>)
    ensures AtMostOne(devices) <==> |devices| <= 1
  {
    if devices != {} {
      var a :| a in devices;
      if AtMostOne(devices) {
        assert devices == {a};
      }
      if |devices| <= 1 {
        assert |devices - {a}| == 0;
        assert devices <= {a};
      }
    }
  }

  /** The slot's data allows a start: it is initialised for this version, or the slot was made fresh,
      its data is empty, and nothing was ever recorded on it. */
  ghost predicate Startable(w: World, recorded: map<string, Recorded>, slot: Slot) {
    slot.name in w.data &&
    (w.data[slot.name] == Initialised(true)
     || (w.data[slot.name].Empty? && slot.createdFresh && !UsedOn(recorded, slot.name)))
  }

  /** What the fixture remembers of its devices does not contradict the host. */
  predicate LoopsKnown(w: World, loop: Option<Loop>, loopIntent: bool) {
    && (loopIntent ==> w.backing && AtMostOne(Associated(w)) && (loop.Some? ==> Associated(w) <= {loop.value}))
    && (!loopIntent ==> loop.None?)
  }

  /** The fixture knows exactly which device is on its backing file. */
  predicate LoopsExact(w: World, loop: Option<Loop>, loopIntent: bool) {
    if loopIntent then w.backing && Associated(w) == (if loop.Some? then {loop.value} else {}) else loop.None?
  }

  /** The one mount below the root is the volume on the remembered, attached device. */
  predicate OwnMounted(w: World, loop: Option<Loop>) {
    w.backing && loop.Some? && loop.value in Associated(w) && w.rootMounts == [OwnMount(loop.value)]
  }

  /** Root, backing file, loop device and mount agree with what the fixture remembers. */
  predicate Storage(w: World, root: Option<Inode>, loop: Option<Loop>, loopIntent: bool) {
    && w.root.Some? && w.root == root
    && AtMostOne(Associated(w))
    && (loopIntent ==> w.backing)
    && (!loopIntent ==> loop.None? && Associated(w) == {})
    && (loop.Some? ==> Associated(w) <= {loop.value})
    && (w.rootMounts != [] ==> OwnMountOnly(w))
  }

  /** Of its storage only the own directory is left, without its backing file. */
  predicate Stripped(w: World, root: Option<Inode>, loop: Option<Loop>, loopIntent: bool) {
    && w.root.Some? && w.root == root && loopIntent && !w.backing
    && loop.None? && Associated(w) == {} && w.rootMounts == []
  }

  /** The name Docker knows a fixture container by. */
  function FullName(namespace: string, name: string): string {
    namespace + "-" + name
  }

  /** Every container of the namespace, by label or by name, is recorded and is what was recorded,
      and one writer a slot. */
  predicate Owners(w: World, namespace: string, recorded: map<string, Recorded>) {
    && (forall n :: n in w.containers && StartsWith(n, namespace + "-") ==> n in recorded)
    && (forall n :: n in w.containers && w.containers[n].namespace == namespace ==> n in recorded)
    && (forall n :: n in w.containers && n in recorded ==> OwnedAs(w.containers[n], namespace, recorded[n]))
    && OneWriterPerSlot(w, namespace)
  }

  lemma OwnersCalm(w: World, namespace: string, recorded: map<string, Recorded>)
    requires Owners(w, namespace, recorded) && forall n :: n in recorded ==> WellBound(namespace, n, recorded[n])
    ensures Calm(w, namespace)
  {
  }

  lemma OwnersRecord(w: World, namespace: string, recorded: map<string, Recorded>, name: string, r: Recorded)
    requires Owners(w, namespace, recorded) && name !in recorded && StartsWith(name, namespace + "-")
    ensures Owners(w, namespace, recorded[name := r])
  {
  }

  lemma OwnersRun(w: World, namespace: string, recorded: map<string, Recorded>, name: string, c: Container)
    requires Owners(w, namespace, recorded) && name in recorded && OwnedAs(c, namespace, recorded[name])
    requires NoWriter(w, namespace, c.slot)
    ensures Owners(Effect(DockerRun(name, c), w), namespace, recorded)
  {
  }

  /** Each slot was allowed to start on empty data at most once, only when made fresh, and the
      container that used the permission is recorded. */
  ghost predicate PermissionsUsedOnce(used: seq<string>, slots: map<string, Slot>, recorded: map<string, Recorded>) {
    && (forall i :: 0 <= i < |used| ==> used[i] in slots && slots[used[i]].createdFresh && UsedOn(recorded, used[i]))
    && (forall i, j :: 0 <= i < j < |used| ==> used[i] != used[j])
  }

  ghost predicate UsedOn(recorded: map<string, Recorded>, slot: string) {
    exists n :: n in recorded && recorded[n].slot == slot
  }

  lemma PermissionUsed(used: seq<string>, slots: map<string, Slot>, recorded: map<string, Recorded>, name: string,
                       r: Recorded, initialise: bool)
    requires PermissionsUsedOnce(used, slots, recorded) && name !in recorded
    requires initialise ==> r.slot in slots && slots[r.slot].createdFresh && !UsedOn(recorded, r.slot)
    ensures PermissionsUsedOnce(if initialise then used + [r.slot] else used, slots, recorded[name := r])
    ensures initialise ==> r.slot !in used
  {
    var recorded' := recorded[name := r];
    forall slot | UsedOn(recorded, slot) ensures UsedOn(recorded', slot) {
      var n :| n in recorded && recorded[n].slot == slot;
      assert n in recorded' && recorded'[n] == recorded[n];
    }
    assert name in recorded' && recorded'[name].slot == r.slot;
  }

  lemma DetachLeaves(w: World, device: Loop)
    ensures Associated(Effect(Detach(device), w)) == Associated(w) - {device}
  {
  }

  lemma VolumeIsOwn(w: World, root: Option<Inode>, loop: Option<Loop>)
    requires Storage(w, root, loop, true) && w.rootMounts != []
    requires Associated(w) == if loop.Some? then {loop.value} else {}
    ensures OwnMounted(w, loop)
  {
    assert w.rootMounts == [w.rootMounts[0]];
    assert w.rootMounts[0].source == loop.value;
  }

  lemma StorageAttaches(w: World, root: Option<Inode>, device: Loop)
    requires Storage(w, root, None, true) && Associated(w) == {} && w.rootMounts == []
    ensures var w' := Effect(Attach(device), w);
            Storage(w', root, None, true) && Associated(w') <= {device}
  {
    var w' := Effect(Attach(device), w);
    assert forall l :: l in Associated(w') ==> l in Associated(w) || l == device;
  }

  lemma StorageMounts(w: World, root: Option<Inode>, device: Loop)
    requires Storage(w, root, Some(device), true) && device in Associated(w) && w.rootMounts == []
    ensures Storage(Effect(MountVolume(device), w), root, Some(device), true)
    ensures Effect(MountVolume(device), w).rootMounts == [OwnMount(device)]
    ensures device in Associated(Effect(MountVolume(device), w))
  {
    var w' := Effect(MountVolume(device), w);
    assert w'.loops == w.loops;
    assert Associated(w') == Associated(w);
  }

  /** A fixture and its host between two steps of a script. */
  datatype Moment = Moment(world: World, slots: map<string, Slot>, recorded: map<string, Recorded>, loop: Option<Loop>,
                           mounted: bool)

  class Fixture {
    const host: Host
    const namespace: string
    const images: set<string>
    var created: bool
    var rootIdentity: Option<Inode>
    var loop: Option<Loop>
    var mounted: bool
    var loopIntent: bool
    var slots: map<string, Slot>
    var containers: map<string, Recorded>
    var order: seq<string>
    var status: Status
    /** The slots on which a start on uninitialised data was allowed, in order. */
    ghost var initialisations: seq<string>

    constructor (host: Host, namespace: string, images: set<string>)
      ensures this.host == host && this.namespace == namespace && this.images == images && !created && Bookkeeping()
      ensures containers == map[] && slots == map[] && loop.None? && !loopIntent
    {
      this.host, this.namespace, this.images := host, namespace, images;
      created, rootIdentity, loop, mounted, loopIntent := false, None, None, false, false;
      slots, containers, order, status := map[], map[], [], NotStarted;
      initialisations := [];
    }

    /** The fixture's own records agree with each other. */
    ghost predicate Bookkeeping()
      reads this
    {
      && (forall name :: name in order <==> name in containers)
      && (forall s :: s in slots ==> slots[s].name == s)
      && (forall name :: name in containers ==> WellBound(namespace, name, containers[name]))
      && PermissionsUsedOnce(initialisations, slots, containers)
    }

    /** Everything on the host that could be the fixture's is recorded, wherever it was stopped. */
    ghost predicate Exclusive()
      reads this, host
    {
      && Bookkeeping()
      && Storage(host.world, rootIdentity, loop, loopIntent)
      && Owners(host.world, namespace, containers)
    }

    /** Nothing of the fixture is left but its directory, which has lost the backing file: the one state
        in which a retry cannot succeed. */
    ghost predicate Stuck()
      reads this, host
    {
      && Bookkeeping()
      && Stripped(host.world, rootIdentity, loop, loopIntent)
      && Owners(host.world, namespace, containers)
      && host.world.containers.Keys !! containers.Keys
    }

    /** What cleanup never changes. */
    ghost function Records(): (seq<string>, map<string, Slot>, map<string, Recorded>, Option<Inode>, bool)
      reads this
    {
      (initialisations, slots, containers, rootIdentity, loopIntent)
    }

    /** What a script can see of the fixture and its host. */
    ghost function Now(): Moment
      reads this, host
    {
      Moment(host.world, slots, containers, loop, mounted)
    }

    // -------------------------------------------------------------- observations

    /** Whether a recorded container exists; an error when it is not provably the fixture's. */
    method InspectOwned(name: string, mode: Mode) returns (ok: bool, present: bool)
      requires name in containers
      ensures ok ==> present == (name in host.world.containers)
      ensures ok && present ==> OwnedAs(host.world.containers[name], namespace, containers[name])
      ensures !mode.Ambiguous? && AbsentOrOwned(host.world, name, namespace, containers[name]) ==> ok
    {
      ok, present := true, false;
      var failed := host.Glimpse(mode);
      if failed { return false, false; }
      if name in host.world.containers {
        present := true;
        ok := OwnedAs(host.world.containers[name], namespace, containers[name]);
      }
    }

    method RootMounts(mode: Mode) returns (ok: bool, mounts: seq<Mount>)
      ensures ok ==> mounts == host.world.rootMounts
      ensures !mode.Ambiguous? ==> ok
    {
      ok, mounts := true, host.world.rootMounts;
      var failed := host.Glimpse(mode);
      if failed { ok := false; }
    }

    /** The devices on the backing file, at most one and the expected one. */
    method AssociatedLoops(mode: Mode) returns (ok: bool, rows: set<Loop>)
      ensures ok ==> rows == (if loopIntent then Associated(host.world) else {})
      ensures ok ==> (loopIntent ==> host.world.backing) && (!loopIntent ==> loop.None?)
      ensures ok ==> AtMostOne(rows) && (loop.Some? ==> rows <= {loop.value})
      ensures !mode.Ambiguous? && LoopsKnown(host.world, loop, loopIntent) ==> ok
    {
      if !loopIntent { return loop.None?, {}; }
      if !host.world.backing { return false, {}; }
      var failed := host.Glimpse(mode);
      if failed { return false, {}; }
      rows := Associated(host.world);
      AtMostOneIsSize(rows);
      ok := |rows| <= 1 && (loop.Some? ==> rows <= {loop.value});
    }

    method VerifyLoop(mode: Mode) returns (ok: bool)
      ensures ok ==> loop.Some? && loop.value in Associated(host.world) && host.world.backing
      ensures !mode.Ambiguous? && loop.Some? && loop.value in Associated(host.world) && host.world.backing ==> ok
    {
      if loop.None? { return false; }
      var failed := host.Glimpse(mode);
      if failed { return false; }
      ok := loop.value in host.world.loops && host.world.loops[loop.value].OwnBacking? && host.world.backing;
    }

    method VerifyMount(mode: Mode) returns (ok: bool)
      ensures ok ==> loop.Some? && loop.value in Associated(host.world) && OwnMount(loop.value) in host.world.rootMounts
      ensures !mode.Ambiguous? && loop.Some? && loop.value in Associated(host.world) && host.world.backing &&
              host.world.rootMounts == [OwnMount(loop.value)]
              ==> ok
    {
      ok := VerifyLoop(mode);
      if !ok { return; }
      var failed := host.Glimpse(mode);
      if failed { return false; }
      ok := OwnMount(loop.value) in host.world.rootMounts;
    }

    // -------------------------------------------------------------- creation

    /** The exclusive directory: nothing is touched when the path is already taken. */
    method MakeRootDirectory(inode: Inode, mode: Mode) returns (ok: bool)
      requires !created && Associated(host.world) == {} && host.world.rootMounts == [] && loop.None? && !loopIntent
      modifies this`created, this`rootIdentity, host
      ensures ok ==> created
      ensures created ==> Storage(host.world, rootIdentity, None, false)
      ensures host.world.rootMounts == [] && Associated(host.world) == {}
      ensures host.world == old(host.world) || host.world == Effect(MakeRoot(inode), old(host.world))
      ensures old(host.world.root).Some? ==> !ok && host.world == old(host.world)
      ensures mode.Smooth? && old(host.world.root).None? ==> ok
      ensures QuietLog(old(host.issued), host.issued, old(host.world))
    {
      if host.world.root.Some? { return false; }
      ok := host.Run(MakeRoot(inode), mode);
      if !ok { return; }
      rootIdentity := host.world.root;
      created := true;
      if !mode.Smooth? { ok := *; }  // the directories inside the root
    }

    /** The backing file and its file system. */
    method BuildBacking(mode: Mode) returns (ok: bool)
      requires Storage(host.world, rootIdentity, None, false)
      modifies host
      ensures Storage(host.world, rootIdentity, None, false)
      ensures host.world == old(host.world) || host.world == Effect(Truncate, old(host.world))
      ensures ok ==> host.world.backing
      ensures mode.Smooth? ==> ok
      ensures QuietLog(old(host.issued), host.issued, old(host.world))
    {
      ok := host.Run(Truncate, mode);
      if !ok { return; }
      ok := host.Run(Inside, mode);
    }

    method AttachBacking(device: Loop, mode: Mode) returns (ok: bool)
      requires Storage(host.world, rootIdentity, None, false) && loop.None? && !loopIntent
               && host.world.rootMounts == []
      modifies this`loop, this`loopIntent, host
      ensures Storage(host.world, rootIdentity, loop, loopIntent)
      ensures host.world.rootMounts == []
      ensures host.world.containers == old(host.world.containers)
      ensures ok ==> loop == Some(device) && loopIntent && device in Associated(host.world)
      ensures mode.Smooth? && device !in old(host.world.loops) ==> ok
      ensures QuietLog(old(host.issued), host.issued, old(host.world))
    {
      ok := BuildBacking(mode);
      if !ok { return; }
      loopIntent := true;
      StorageAttaches(host.world, rootIdentity, device);
      ok := host.Run(Attach(device), mode);
      if !ok { return; }
      loop := Some(device);
      ok := VerifyLoop(mode);
      if !ok { return; }
      if !mode.Smooth? { ok := *; }  // the file system's UUID
    }

    method MountBacking(device: Loop, mode: Mode) returns (ok: bool)
      requires Storage(host.world, rootIdentity, loop, loopIntent) && loop == Some(device) && loopIntent
      requires device in Associated(host.world) && host.world.rootMounts == []
      modifies this`mounted, host
      ensures Storage(host.world, rootIdentity, loop, loopIntent)
      ensures host.world.containers == old(host.world.containers)
      ensures ok ==> mounted && host.world.rootMounts == [OwnMount(device)]
      ensures mode.Smooth? ==> ok
      ensures QuietLog(old(host.issued), host.issued, old(host.world))
    {
      StorageMounts(host.world, rootIdentity, device);
      ok := host.Run(MountVolume(device), mode);
      if !ok { return; }
      mounted := true;
      ok := VerifyMount(mode);
      if !ok { return; }
      ok := host.Run(Inside, mode);
    }

    /** Directory, backing file and device. */
    method AttachStorage(inode: Inode, device: Loop, mode: Mode) returns (ok: bool)
      requires !created && Associated(host.world) == {} && host.world.rootMounts == [] && loop.None? && !loopIntent
      modifies this`created, this`rootIdentity, this`loop, this`loopIntent, host
      ensures created ==> Storage(host.world, rootIdentity, loop, loopIntent)
      ensures host.world.rootMounts == [] && host.world.containers == old(host.world.containers)
      ensures !created ==> !ok && Associated(host.world) == {}
      ensures ok ==> loop == Some(device) && loopIntent && device in Associated(host.world)
      ensures mode.Smooth? && old(host.world.root).None? && device !in old(host.world.loops) ==> ok
      ensures QuietLog(old(host.issued), host.issued, old(host.world))
    {
      ok := MakeRootDirectory(inode, mode);
      if !ok { return; }
      ok := AttachBacking(device, mode);
    }

    /** Creation may stop after any command, before or after the command's effect. Wherever it
        stops once the root is its own, everything it made is still accounted for. */
    method Create(inode: Inode, device: Loop, mode: Mode) returns (ok: bool)
      requires Bookkeeping() && containers == map[] && loop.None? && !loopIntent
      requires Associated(host.world) == {} && host.world.rootMounts == []
      requires Owners(host.world, namespace, map[])
      modifies this, host
      ensures containers == map[] && slots == old(slots) && order == old(order)
              && initialisations == old(initialisations)
      ensures old(created) ==> !ok && host.world == old(host.world)
      ensures !old(created) && created ==> Exclusive()
      ensures !created ==> !ok && Associated(host.world) == {} && host.world.rootMounts == []
      ensures ok ==> created && mounted && loopIntent && OwnMounted(host.world, loop)
      ensures mode.Smooth? && !old(created) && old(host.world.root).None? && device !in old(host.world.loops) ==> ok
      ensures QuietLog(old(host.issued), host.issued, old(host.world))
    {
      if created { return false; }
      ok := AttachStorage(inode, device, mode);
      if !ok { return; }
      ok := MountBacking(device, mode);
    }

    // -------------------------------------------------------------- slots and containers

    /** The commands that make a slot's directories on the proved volume. */
    method BuildSlot(name: string, mode: Mode) returns (ok: bool)
      requires Exclusive()
      modifies host
      ensures Exclusive()
      ensures host.world == old(host.world) || host.world == Effect(MakeData(name), old(host.world))
      ensures mode.Smooth? && OwnMounted(old(host.world), loop) ==> ok
      ensures QuietLog(old(host.issued), host.issued, old(host.world))
    {
      ok := VerifyMount(mode);
      if !ok { return; }
      ok := host.Run(MakeData(name), mode);
      if !ok { return; }
      ok := host.Run(Inside, mode);
    }

    /** A slot is made once; asking again never makes it fresh a second time. */
    method MakeSlot(name: string, createdFresh: bool, mode: Mode) returns (ok: bool, slot: Option<Slot>)
      requires Exclusive()
      modifies this`slots, host
      ensures Exclusive()
      ensures host.world == old(host.world) || host.world == Effect(MakeData(name), old(host.world))
      ensures !mounted || !SafeName(name) || (name in old(slots) && createdFresh) ==>
        !ok && host.issued == old(host.issued) && slots == old(slots)
      ensures name in old(slots) ==> host.issued == old(host.issued)
      ensures ok ==> slot.Some? && name in slots && slots[name] == slot.value
      ensures slots == old(slots) || (name !in old(slots) && slots == old(slots)[name := Slot(name, createdFresh)])
      ensures ok && createdFresh ==> name !in old(slots) && slot == Some(Slot(name, true))
      ensures mode.Smooth? && mounted && SafeName(name)
              && (if name in old(slots) then !createdFresh else OwnMounted(old(host.world), loop))
              ==> ok
      ensures QuietLog(old(host.issued), host.issued, old(host.world))
    {
      slot := None;
      if !mounted || !SafeName(name) { return false, None; }
      if name in slots {
        if createdFresh { return false, None; }
        return true, Some(slots[name]);
      }
      ok := BuildSlot(name, mode);
      if !ok { return; }
      slots := slots[name := Slot(name, createdFresh)];
      slot := Some(slots[name]);
    }

    /** No recorded container of the slot is provably still running. */
    method PreviousWritersStopped(slot: string, mode: Mode) returns (ok: bool)
      requires Exclusive()
      ensures ok ==> NoWriter(host.world, namespace, slot)
      ensures !mode.Ambiguous? && NoWriter(host.world, namespace, slot) ==> ok
    {
      for i := 0 to |order|
        invariant forall j :: 0 <= j < i && containers[order[j]].slot == slot && order[j] in host.world.containers
                              ==> !host.world.containers[order[j]].running
      {
        var previous := order[i];
        if containers[previous].slot == slot {
          var inspected, present := InspectOwned(previous, mode);
          if !inspected { return false; }
          if present && host.world.containers[previous].running { return false; }
        }
      }
      return true;
    }

    /** May the container start? On initialised data of the right version; or, once and only on a
        slot made fresh with nothing recorded on it, on empty data. */
    method MayStart(slot: Slot, mode: Mode) returns (ok: bool, initialise: bool)
      requires slot.name in slots && slots[slot.name] == slot
      ensures ok && !initialise ==> slot.name in host.world.data && host.world.data[slot.name] == Initialised(true)
      ensures ok && initialise ==>
        slot.createdFresh && slot.name in host.world.data && host.world.data[slot.name].Empty?
      ensures ok && initialise ==> !UsedOn(containers, slot.name)
      ensures !mode.Ambiguous? ==> (ok <==> Startable(host.world, containers, slot))
    {
      var unreadable := host.Glimpse(mode);
      if !unreadable && slot.name in host.world.data && host.world.data[slot.name].Initialised? {
        ok, initialise := host.world.data[slot.name].current, false;
      } else {
        initialise := true;
        ok := slot.createdFresh && (forall n :: n in containers ==> containers[n].slot != slot.name);
        if !ok { return; }
        var failed := host.Glimpse(mode);
        ok := !failed && slot.name in host.world.data && host.world.data[slot.name].Empty?;
      }
    }

    /** The checks before a start: the own volume, no writer, and data that may be started on. */
    method AdmitStart(slotName: string, fault: Fault, mode: Mode) returns (ok: bool, initialise: bool)
      requires Exclusive() && slotName in slots
      modifies host
      ensures Exclusive() && host.world == old(host.world)
      ensures ok ==> NoWriter(host.world, namespace, slotName) && slotName in host.world.data
      ensures ok && !initialise ==> host.world.data[slotName] == Initialised(true)
      ensures ok ==> OwnMountOnly(host.world)
      ensures ok && initialise ==>
        host.world.data[slotName].Empty? && slots[slotName].createdFresh && !UsedOn(containers, slotName)
      ensures mode.Smooth? && OwnMounted(host.world, loop) && NoWriter(host.world, namespace, slotName)
              && Startable(host.world, containers, slots[slotName])
              ==> ok
      ensures QuietLog(old(host.issued), host.issued, old(host.world))
    {
      initialise := false;
      ok := VerifyMount(mode);
      if !ok { return; }
      ok := PreviousWritersStopped(slotName, mode);
      if !ok { return; }
      ok, initialise := MayStart(slots[slotName], mode);
      if !ok { return; }
      if fault.WrongDataMount? { ok := host.Run(Inside, mode); }
    }

    /** Starts a container. The intent is recorded before Docker is asked, whatever Docker does. */
    method StartContainer(shortName: string, image: string, slotName: string, fault: Fault, mode: Mode)
      returns (ok: bool)
      requires Exclusive()
      modifies this`containers, this`order, this`initialisations, host
      ensures Exclusive()
      ensures !Admitted(shortName, FullName(namespace, shortName), image, slotName, slots, images, old(containers)) ==>
        !ok && containers == old(containers) && order == old(order) && initialisations == old(initialisations)
        && host.world == old(host.world) && host.issued == old(host.issued)
      ensures containers == old(containers) || containers == old(containers)[FullName(namespace, shortName) :=
                                                 Recorded(slotName, image, BindsOf(slotName, fault, shortName))]
      ensures ok ==>
        FullName(namespace, shortName) in containers && FullName(namespace, shortName) in host.world.containers
      ensures mode.Smooth? && OwnMounted(old(host.world), loop) && NoWriter(old(host.world), namespace, slotName)
              && Admitted(shortName, FullName(namespace, shortName), image, slotName, slots, images, old(containers))
              && Startable(old(host.world), old(containers), slots[slotName])
              ==> ok
      ensures OneCommand(old(host.world), host.world, FullName(namespace, shortName), containers, namespace)
      ensures containers == old(containers) ==> host.world == old(host.world)
      ensures StartsLogged(old(host.issued), host.issued, slotName, containers)
      ensures OneUse(old(host.issued), host.issued, old(initialisations), initialisations)
      ensures BuildLog(old(host.issued), host.issued, old(host.world))
    {
      var name := FullName(namespace, shortName);
      if !Admitted(shortName, name, image, slotName, slots, images, containers) { return false; }
      ok := StartAdmitted(name, Recorded(slotName, image, BindsOf(slotName, fault, shortName)), fault, mode);
    }

    /** The checks on the host, and then the one command. */
    method StartAdmitted(name: string, recorded: Recorded, fault: Fault, mode: Mode) returns (ok: bool)
      requires Exclusive() && name !in containers && StartsWith(name, namespace + "-") && recorded.slot in slots
      requires WellBound(namespace, name, recorded) && ImageDigest(recorded.image) && recorded.image in images
      modifies this`containers, this`order, this`initialisations, host
      ensures Exclusive()
      ensures containers == old(containers) || containers == old(containers)[name := recorded]
      ensures ok ==> name in containers && name in host.world.containers
      ensures mode.Smooth? && OwnMounted(old(host.world), loop) && NoWriter(old(host.world), namespace, recorded.slot)
              && Startable(old(host.world), old(containers), slots[recorded.slot])
              ==> ok
      ensures OneCommand(old(host.world), host.world, name, containers, namespace)
      ensures containers == old(containers) ==> host.world == old(host.world)
      ensures StartsLogged(old(host.issued), host.issued, recorded.slot, containers)
      ensures OneUse(old(host.issued), host.issued, old(initialisations), initialisations)
      ensures BuildLog(old(host.issued), host.issued, old(host.world))
    {
      var initialise;
      ok, initialise := AdmitStart(recorded.slot, fault, mode);
      if !ok { return; }
      ghost var was, used, known := host.issued, initialisations, containers;
      ok := RecordAndRun(name, recorded, initialise, mode);
      LoggedAfter(old(host.issued), was, host.issued, name, recorded, containers, used, initialisations);
    }

    /** Quiet commands and then one start: what the log says of it. */
    lemma LoggedAfter(was: seq<Issued>, middle: seq<Issued>, now: seq<Issued>, name: string, r: Recorded,
                      recorded: map<string, Recorded>, before: seq<string>, after: seq<string>)
      requires was <= middle && (forall i :: |was| <= i < |middle| ==> !middle[i].command.DockerRun?)
      requires |now| == |middle| + 1 && middle <= now && now[|middle|].command.DockerRun?
      requires name in recorded && recorded[name] == r
      requires now[|middle|].command.name == name && now[|middle|].command.container.slot == r.slot
      requires Sanctioned(now[|middle|], namespace, images, recorded)
      requires after == (if Initialises(now[|middle|]) then before + [r.slot] else before)
      requires Initialises(now[|middle|]) ==> r.slot !in before
      ensures StartsLogged(was, now, r.slot, recorded) && OneUse(was, now, before, after)
    {
      forall i | |was| <= i < |now| ensures i == |middle| || !now[i].command.DockerRun? {
        if i < |middle| { assert now[i] == middle[i]; }
      }
    }

    /** At most one start was added to the log, on this slot and sanctioned. */
    ghost predicate StartsLogged(was: seq<Issued>, now: seq<Issued>, slot: string, recorded: map<string, Recorded>)
      reads this
    {
      OneStart(was, now, slot) && forall i :: |was| <= i < |now| ==> Sanctioned(now[i], namespace, images, recorded)
    }

    /** Writes the intent down before Docker hears of it. */
    method RecordIntent(name: string, recorded: Recorded, initialise: bool)
      requires Exclusive() && name !in containers && StartsWith(name, namespace + "-")
      requires WellBound(namespace, name, recorded)
      requires initialise ==>
        recorded.slot in slots && slots[recorded.slot].createdFresh && !UsedOn(containers, recorded.slot)
      modifies this`containers, this`order, this`initialisations
      ensures Exclusive()
      ensures containers == old(containers)[name := recorded]
      ensures initialise ==> recorded.slot !in old(initialisations)
      ensures initialisations == if initialise then old(initialisations) + [recorded.slot] else old(initialisations)
    {
      PermissionUsed(initialisations, slots, containers, name, recorded, initialise);
      OwnersRecord(host.world, namespace, containers, name, recorded);
      containers := containers[name := recorded];
      order := order + [name];
      if initialise { initialisations := initialisations + [recorded.slot]; }
    }

    method RecordAndRun(name: string, recorded: Recorded, initialise: bool, mode: Mode) returns (ok: bool)
      requires Exclusive() && name !in containers && StartsWith(name, namespace + "-")
      requires WellBound(namespace, name, recorded) && NoWriter(host.world, namespace, recorded.slot)
      requires recorded.slot in slots
      requires initialise ==> slots[recorded.slot].createdFresh && !UsedOn(containers, recorded.slot)
      modifies this`containers, this`order, this`initialisations, host
      ensures Exclusive()
      ensures containers == old(containers)[name := recorded]
      ensures initialise ==> recorded.slot !in old(initialisations)
      ensures initialisations == if initialise then old(initialisations) + [recorded.slot] else old(initialisations)
      ensures exists running ::
        host.issued == old(host.issued)
                       + [Issued(DockerRun(name, Launched(namespace, recorded, running)), old(host.world))]
      ensures OneCommand(old(host.world), host.world, name, containers, namespace)
      ensures mode.Smooth? ==> ok
      ensures ok ==> name in host.world.containers && OwnedAs(host.world.containers[name], namespace, recorded)
      ensures BuildLog(old(host.issued), host.issued, old(host.world))
    {
      RecordIntent(name, recorded, initialise);
      var running: bool := *;
      var c := Launched(namespace, recorded, running);
      OwnersRun(host.world, namespace, containers, name, c);
      ok := host.Run(DockerRun(name, c), mode);
    }

    method Stop(name: string, mode: Mode) returns (ok: bool)
      requires Exclusive() && name in containers
      modifies host
      ensures Exclusive()
      ensures host.world == old(host.world) || host.world == Effect(DockerStop(name), old(host.world))
      ensures host.issued == old(host.issued)
              || (host.issued == old(host.issued) + [Issued(DockerStop(name), old(host.world))]
                  && name in old(host.world).containers
                  && OwnedAs(old(host.world).containers[name], namespace, containers[name]))
      ensures mode.Smooth? ==> ok
      ensures ok ==> (name in host.world.containers ==> !host.world.containers[name].running)
      ensures QuietLog(old(host.issued), host.issued, old(host.world))
    {
      var inspected, present := InspectOwned(name, mode);
      if !inspected { return false; }
      ok := true;
      if present { ok := host.Run(DockerStop(name), mode); }
    }

    // -------------------------------------------------------------- cleanup

    /** Removes the recorded containers, newest first, and proves each one absent. */
    method RemoveContainers(mode: Mode) returns (ok: bool)
      requires Bookkeeping()
      modifies host
      ensures CleanLog(old(host.issued), host.issued, old(host.world), namespace, containers, rootIdentity)
      ensures host.world == old(host.world).(containers := host.world.containers)
      ensures Shrunk(old(host.world), host.world)
      ensures ok ==> host.world.containers.Keys !! containers.Keys
      ensures !mode.Ambiguous? && Owners(old(host.world), namespace, containers) ==> ok
    {
      for i := |order| downto 0
        invariant CleanLog(old(host.issued), host.issued, old(host.world), namespace, containers, rootIdentity)
        invariant host.world == old(host.world).(containers := host.world.containers)
        invariant Shrunk(old(host.world), host.world)
        invariant forall j :: i <= j < |order| ==> order[j] !in host.world.containers
      {
        var name := order[i];
        assert name in order;
        ok := RemoveContainer(name, mode);
        if !ok { return; }
      }
      assert forall name :: name in containers ==> name in order;
      return true;
    }

    method RemoveContainer(name: string, mode: Mode) returns (ok: bool)
      requires name in containers
      modifies host
      ensures CleanLog(old(host.issued), host.issued, old(host.world), namespace, containers, rootIdentity)
      ensures host.world == old(host.world) || host.world == Effect(DockerRemove(name), old(host.world))
      ensures ok ==> name !in host.world.containers
      ensures !mode.Ambiguous? && AbsentOrOwned(old(host.world), name, namespace, containers[name]) ==> ok
    {
      var inspected, present := InspectOwned(name, mode);
      if !inspected { return false; }
      if present { var _ := host.Run(DockerRemove(name), mode); }
      inspected, present := InspectOwned(name, mode);
      ok := inspected && !present;
    }

    /** Learns the loop device from the backing file, not from what creation remembers. */
    method AdoptLoop(mode: Mode) returns (ok: bool)
      modifies this`loop
      ensures ok ==> LoopsExact(host.world, loop, loopIntent)
      ensures !ok ==> loop == old(loop)
      ensures !mode.Ambiguous? && LoopsKnown(host.world, old(loop), loopIntent) ==> ok
    {
      var rows;
      ok, rows := AssociatedLoops(mode);
      if !ok { return; }
      if rows != {} {
        var device :| device in rows;
        loop := Some(device);
        assert rows == {device};
      } else {
        loop := None;
      }
    }

    /** Unmounts the one mount that is the fixture's, or stops at any other. */
    method UnmountVolume(mode: Mode) returns (ok: bool)
      requires loop.Some? ==> loopIntent
      modifies this`mounted, host
      ensures CleanLog(old(host.issued), host.issued, old(host.world), namespace, containers, rootIdentity)
      ensures host.world == old(host.world)
              || (old(OwnMountOnly(host.world)) && host.world == old(host.world).(rootMounts := []))
      ensures ok ==> host.world.rootMounts == []
      ensures !mode.Ambiguous? && (old(host.world.rootMounts) == [] || OwnMounted(old(host.world), loop)) ==> ok
    {
      var mounts;
      ok, mounts := RootMounts(mode);
      if !ok { return; }
      if mounts != [] {
        ok := |mounts| == 1 && loop.Some? && mounts[0] == OwnMount(loop.value);
        if !ok { return; }
        ok := VerifyMount(mode);
        if !ok { return; }
        assert Unmounted(host.world.rootMounts) == [];
        var _ := host.Run(Umount, mode);
      }
      ok, mounts := RootMounts(mode);
      if !ok { return; }
      ok := mounts == [];
      if ok { mounted := false; }
    }

    /** Detaches the device while it is proved to be on the backing file. */
    method DetachLoop(mode: Mode) returns (ok: bool)
      requires loop.Some? ==> loopIntent
      modifies this`loop, host
      ensures CleanLog(old(host.issued), host.issued, old(host.world), namespace, containers, rootIdentity)
      ensures host.world == old(host.world)
              || (old(loop).Some? && host.world == Effect(Detach(old(loop).value), old(host.world)))
      ensures loop == old(loop) || loop.None?
      ensures ok ==> loop.None? && (loopIntent ==> Associated(host.world) == {})
      ensures !mode.Ambiguous? && LoopsExact(old(host.world), old(loop), loopIntent) ==> ok
    {
      if loop.Some? {
        ok := VerifyLoop(mode);
        if !ok { return; }
        DetachLeaves(host.world, loop.value);
        var _ := host.Run(Detach(loop.value), mode);
      }
      var rows;
      ok, rows := AssociatedLoops(mode);
      if !ok { return; }
      ok := rows == {};
      if ok { loop := None; }
    }

    /** Looks for mounts once more, and only then deletes the directory; the removal may stop half way. */
    method DeleteTree(mode: Mode) returns (ok: bool)
      requires host.world.root.Some? && host.world.root == rootIdentity
      modifies this`status, host
      ensures CleanLog(old(host.issued), host.issued, old(host.world), namespace, containers, rootIdentity)
      ensures ok <==> status.Pass? && host.world.root.None?
      ensures if ok then host.world == Effect(RemoveTree, old(host.world)) && host.world.rootMounts == []
              else host.world == old(host.world) || host.world == Torn(RemoveTree, old(host.world))
      ensures Effective(mode) && old(host.world.rootMounts) == [] ==> ok
      ensures mode.Tearing? && old(host.world.rootMounts) == [] ==> !ok && !host.world.backing
    {
      status := InProgress;
      var mounts;
      ok, mounts := RootMounts(mode);
      if !ok { return; }
      ok := mounts == [];
      if !ok { return; }
      status := ResourcesAbsent;
      var _ := host.Run(RemoveTree, mode);
      ok := host.world.root.None?;
      if ok { status := Pass; }
    }

    /** Volume and device, in that order. */
    method ReleaseDevice(mode: Mode) returns (ok: bool)
      requires LoopsExact(host.world, loop, loopIntent)
      modifies this`loop, this`mounted, host
      ensures CleanLog(old(host.issued), host.issued, old(host.world), namespace, containers, rootIdentity)
      ensures host.world == old(host.world).(rootMounts := host.world.rootMounts, loops := host.world.loops)
      ensures ok ==> host.world.rootMounts == [] && loop.None? && (loopIntent ==> Associated(host.world) == {})
      ensures ok && !loopIntent ==> Associated(host.world) == Associated(old(host.world))
      ensures old(Storage(host.world, rootIdentity, loop, loopIntent)) ==>
        Storage(host.world, rootIdentity, loop, loopIntent)
      ensures old(Storage(host.world, rootIdentity, loop, loopIntent)) && !mode.Ambiguous? ==> ok
    {
      if Storage(host.world, rootIdentity, loop, loopIntent) && host.world.rootMounts != [] {
        VolumeIsOwn(host.world, rootIdentity, loop);
      }
      ok := UnmountVolume(mode);
      if !ok { return; }
      if loop.Some? { DetachLeaves(host.world, loop.value); }
      ok := DetachLoop(mode);
    }

    /** Volume, device and directory, in that order. */
    method RemoveStorage(mode: Mode) returns (ok: bool)
      requires host.world.root.Some? && host.world.root == rootIdentity
      requires LoopsExact(host.world, loop, loopIntent)
      modifies this`loop, this`mounted, this`status, host
      ensures CleanLog(old(host.issued), host.issued, old(host.world), namespace, containers, rootIdentity)
      ensures host.world.containers == old(host.world).containers
      ensures ok ==> status.Pass? && host.world.root.None? && host.world.rootMounts == []
      ensures ok && loopIntent ==> Associated(host.world) == {}
      ensures ok && !loopIntent ==> Associated(host.world) == Associated(old(host.world))
      ensures old(Storage(host.world, rootIdentity, loop, loopIntent)) && !ok ==>
        Storage(host.world, rootIdentity, loop, loopIntent) || Stripped(host.world, rootIdentity, loop, loopIntent)
      ensures old(Storage(host.world, rootIdentity, loop, loopIntent)) && Effective(mode) ==> ok
      ensures old(Storage(host.world, rootIdentity, loop, loopIntent)) && mode.Tearing? ==>
        !ok && (loopIntent ==> Stripped(host.world, rootIdentity, loop, loopIntent))
    {
      ok := ReleaseDevice(mode);
      if !ok { return; }
      ok := DeleteTree(mode);
    }

    /** Containers gone, and the device learned. */
    method ReleaseContainers(mode: Mode) returns (ok: bool)
      requires Bookkeeping()
      modifies this`loop, host
      ensures CleanLog(old(host.issued), host.issued, old(host.world), namespace, containers, rootIdentity)
      ensures host.world == old(host.world).(containers := host.world.containers)
      ensures Shrunk(old(host.world), host.world)
      ensures ok ==> LoopsExact(host.world, loop, loopIntent) && host.world.containers.Keys !! containers.Keys
      ensures old(Exclusive()) ==> Exclusive()
      ensures old(Exclusive()) && !mode.Ambiguous? ==> ok
      ensures old(Stuck()) ==> !ok && Stuck()
    {
      ok := RemoveContainers(mode);
      if !ok { return; }
      ok := AdoptLoop(mode);
    }

    /** What is left to do once the containers are gone and the device is known. */
    method ReleaseStorage(mode: Mode) returns (ok: bool)
      requires Bookkeeping() && host.world.root.Some? && host.world.root == rootIdentity
      requires LoopsExact(host.world, loop, loopIntent) && host.world.containers.Keys !! containers.Keys
      modifies this`loop, this`mounted, this`status, host
      ensures CleanLog(old(host.issued), host.issued, old(host.world), namespace, containers, rootIdentity)
      ensures host.world.containers == old(host.world).containers
      ensures ok ==> status.Pass?
      ensures ok && (loopIntent || old(Exclusive())) ==> AllGone(host.world, containers.Keys)
      ensures old(Exclusive()) && !ok ==> Exclusive() || Stuck()
      ensures old(Exclusive()) && Effective(mode) ==> ok
      ensures old(Exclusive()) && mode.Tearing? && loopIntent ==> !ok && Stuck()
    {
      ok := RemoveStorage(mode);
    }

    method CleanupSteps(mode: Mode) returns (ok: bool)
      requires Bookkeeping()
      modifies this`loop, this`mounted, this`status, host
      ensures CleanLog(old(host.issued), host.issued, old(host.world), namespace, containers, rootIdentity)
      ensures ok ==> status.Pass?
      ensures ok && (loopIntent || old(Exclusive())) ==> AllGone(host.world, containers.Keys)
      ensures ok ==>
        old(host.world.root.Some? && host.world.root == rootIdentity && (loopIntent ==> host.world.backing))
      ensures old(Exclusive()) && !ok ==> Exclusive() || Stuck()
      ensures old(Exclusive()) && Effective(mode) ==> ok
      ensures old(Exclusive()) && mode.Tearing? && loopIntent ==> !ok && Stuck()
      ensures old(Stuck()) ==> Stuck()
      ensures Shrunk(old(host.world), host.world)
    {
      ok := host.world.root.Some? && host.world.root == rootIdentity;
      if !ok { return; }
      ok := ReleaseContainers(mode);
      if !ok { return; }
      ok := ReleaseStorage(mode);
    }

    /** Cleanup after creation or use stopped anywhere. In any world whatsoever it issues only
        justified commands and reports success only when its resources are gone. In a world it has
        to itself, a failure leaves its records true, or leaves nothing but the directory without its
        backing file; and with effective commands it succeeds exactly when that has not happened. */
    method Cleanup(mode: Mode) returns (ok: bool)
      requires Bookkeeping()
      modifies this, host
      ensures Bookkeeping() && containers == old(containers) && slots == old(slots)
              && initialisations == old(initialisations)
      ensures rootIdentity == old(rootIdentity) && loopIntent == old(loopIntent)
      ensures !old(created) ==> ok && !created && status == old(status)
                                && host.world == old(host.world) && host.issued == old(host.issued)
      ensures CleanLog(old(host.issued), host.issued, old(host.world), namespace, containers, rootIdentity)
      ensures old(created) ==> (ok <==> status.Pass?) && (ok <==> !created)
      ensures old(created) && ok && (loopIntent || old(Exclusive())) ==> AllGone(host.world, containers.Keys)
      ensures old(created) && ok ==>
        old(host.world.root.Some? && host.world.root == rootIdentity && (loopIntent ==> host.world.backing))
      ensures old(created && Exclusive()) && !ok ==> Exclusive() || Stuck()
      ensures old(created && (Exclusive() || Stuck())) && Effective(mode) ==>
        (ok <==> (loopIntent ==> old(host.world.backing)))
      ensures old(created && Exclusive()) && mode.Tearing? && loopIntent ==> !ok && Stuck()
      ensures old(created && Stuck()) ==> !ok && Stuck()
      ensures Shrunk(old(host.world), host.world)
    {
      if !created { return true; }
      ok := CleanupSteps(mode);
      if ok {
        created := false;
      } else {
        status := Fail;
      }
    }
  }

  // ---------------------------------------------------------------- whole experiments

  /** What a run may ask for between creation and cleanup; `Drifts` is the host's own move. */
  datatype Step =
    | MakesSlot(name: string, createdFresh: bool)
    | Starts(name: string, image: string, slot: string, fault: Fault)
    | Stops(name: string)
    | Drifts(name: string, slot: string, left: Data)

  /** What a step may change, and what it must have done when its commands ran smoothly. */
  ghost predicate StepTaken(a: Moment, step: Step, mode: Mode, b: Moment, namespace: string, images: set<string>) {
    && b.loop == a.loop && b.mounted == a.mounted
    && match step
       case MakesSlot(name, createdFresh) =>
         && b.recorded == a.recorded
         && (b.world == a.world || b.world == Effect(MakeData(name), a.world))
         && (b.slots == a.slots
             || (a.mounted && SafeName(name) && name !in a.slots
                 && b.slots == a.slots[name := Slot(name, createdFresh)]))
         && (mode.Smooth? && a.mounted && SafeName(name) && name !in a.slots && OwnMounted(a.world, a.loop) ==>
           name in b.slots)
       case Starts(name, image, slot, fault) =>
         var full := FullName(namespace, name);
         && b.slots == a.slots
         && OneCommand(a.world, b.world, full, b.recorded, namespace)
         && (if b.recorded == a.recorded then b.world == a.world
             else slot in a.slots && SafeName(name) && ImageDigest(image) && image in images && full !in a.recorded
                  && b.recorded == a.recorded[full := Recorded(slot, image, BindsOf(slot, fault, name))])
         && (mode.Smooth? && slot in a.slots && SafeName(name) && ImageDigest(image) && image in images
             && full !in a.recorded && OwnMounted(a.world, a.loop)
             && NoWriter(a.world, namespace, slot) && Startable(a.world, a.recorded, a.slots[slot])
             ==> full in b.recorded && full in b.world.containers)
       case Stops(name) =>
         && b.slots == a.slots && b.recorded == a.recorded
         && (b.world == a.world || (name in a.recorded && b.world == Effect(DockerStop(name), a.world)))
         && (name in a.recorded && mode.Smooth? && name in b.world.containers ==> !b.world.containers[name].running)
       case Drifts(_, _, _) => b.slots == a.slots && b.recorded == a.recorded
  }

  /** The container Docker is asked for. */
  function Launched(namespace: string, r: Recorded, running: bool): Container {
    Container(namespace, r.slot, r.image, r.binds, false, running)
  }

  /** Nothing happened, or the recorded container was run. */
  ghost predicate OneCommand(before: World, after: World, name: string, recorded: map<string, Recorded>,
                             namespace: string)
  {
    after == before ||
    (name in recorded
     && exists running :: after == Effect(DockerRun(name, Launched(namespace, recorded[name], running)), before))
  }

  /** A start asks for exactly the recorded container of an admitted image, with no writer on its slot,
      on the own volume, and on data of the right version or none. */
  ghost predicate Sanctioned(e: Issued, namespace: string, images: set<string>, recorded: map<string, Recorded>) {
    e.command.DockerRun? ==>
      var name, c, w := e.command.name, e.command.container, e.world;
      && name in recorded && c == Launched(namespace, recorded[name], c.running)
      && c.image in images && ImageDigest(c.image) && OwnMountOnly(w) && NoWriter(w, namespace, c.slot)
      && c.slot in w.data && (w.data[c.slot] == Initialised(true) || w.data[c.slot].Empty?)
  }

  /** Every start in the log since its first `from` entries is sanctioned. */
  ghost predicate StartsSanctioned(log: seq<Issued>, from: nat, namespace: string, images: set<string>,
                                   recorded: map<string, Recorded>)
  {
    forall i :: from <= i < |log| ==> Sanctioned(log[i], namespace, images, recorded)
  }

  lemma StaySanctioned(was: seq<Issued>, now: seq<Issued>, from: nat, namespace: string, images: set<string>,
                       recorded: map<string, Recorded>, after: map<string, Recorded>)
    requires was <= now && StartsSanctioned(was, from, namespace, images, recorded)
    requires forall i :: |was| <= i < |now| ==> Sanctioned(now[i], namespace, images, after)
    requires forall n :: n in recorded ==> n in after && after[n] == recorded[n]
    ensures StartsSanctioned(now, from, namespace, images, after)
  {
    forall i | from <= i < |now| ensures Sanctioned(now[i], namespace, images, after) {
      if i < |was| { assert now[i] == was[i] && Sanctioned(was[i], namespace, images, recorded); }
    }
  }

  /** No two starts in the log, after its first `from` entries, were on empty data of one slot, and the
      fixture remembers each of them. */
  ghost predicate StartsKnown(log: seq<Issued>, from: nat, used: seq<string>) {
    && (forall i :: from <= i < |log| && Initialises(log[i]) ==> log[i].command.container.slot in used)
    && forall i, j :: from <= i < j < |log| && Initialises(log[i]) && Initialises(log[j]) ==>
         log[i].command.container.slot != log[j].command.container.slot
  }

  /** The log grew by at most one start on empty data, of a slot that was not used before. */
  ghost predicate OneUse(was: seq<Issued>, now: seq<Issued>, before: seq<string>, after: seq<string>) {
    && was <= now && before <= after
    && (forall i :: |was| <= i < |now| && Initialises(now[i]) ==>
          now[i].command.container.slot !in before && now[i].command.container.slot in after)
    && forall i, j :: |was| <= i < |now| && |was| <= j < |now| && Initialises(now[i]) && Initialises(now[j]) ==> i == j
  }

  lemma StartsStayKnown(was: seq<Issued>, now: seq<Issued>, from: nat, before: seq<string>, after: seq<string>)
    requires from <= |was| && StartsKnown(was, from, before) && OneUse(was, now, before, after)
    ensures StartsKnown(now, from, after)
  {
    forall i | from <= i < |now| && Initialises(now[i]) ensures now[i].command.container.slot in after {
      if i < |was| { assert now[i] == was[i]; }
    }
    forall i, j | from <= i < j < |now| && Initialises(now[i]) && Initialises(now[j])
      ensures now[i].command.container.slot != now[j].command.container.slot
    {
      if i < |was| { assert now[i] == was[i]; }
      if j < |was| { assert now[j] == was[j]; }
    }
  }

  /** One writer a slot in every world in which a command was issued, and cleanup's commands justified. */
  ghost predicate LogOrderly(log: seq<Issued>, from: nat, namespace: string, recorded: map<string, Recorded>,
                             root: Option<Inode>) {
    forall i :: from <= i < |log| ==>
      Calm(log[i].world, namespace)
      && (Destructive(log[i].command) ==> Justified(log[i], namespace, recorded, root))
  }

  /** Since its first `from` entries, the log destroys nothing and saw one writer a slot. */
  ghost predicate Built(log: seq<Issued>, from: nat, namespace: string) {
    from <= |log| && forall i :: from <= i < |log| ==>
      Calm(log[i].world, namespace) && !Destructive(log[i].command)
  }

  lemma StaysBuilt(was: seq<Issued>, now: seq<Issued>, from: nat, before: World, namespace: string)
    requires Built(was, from, namespace) && BuildLog(was, now, before) && Calm(before, namespace)
    ensures Built(now, from, namespace)
  {
    forall i | from <= i < |now| ensures Calm(now[i].world, namespace) && !Destructive(now[i].command) {
      if i < |was| { assert now[i] == was[i]; }
    }
  }

  lemma StaysOrderly(was: seq<Issued>, now: seq<Issued>, from: nat, before: World, namespace: string,
                     recorded: map<string, Recorded>, root: Option<Inode>, used: seq<string>)
    requires from <= |was| && LogOrderly(was, from, namespace, recorded, root) && StartsKnown(was, from, used)
    requires CleanLog(was, now, before, namespace, recorded, root) && Calm(before, namespace)
    ensures LogOrderly(now, from, namespace, recorded, root) && StartsKnown(now, from, used)
  {
    assert OneUse(was, now, used, used);
    StartsStayKnown(was, now, from, used, used);
    forall i | from <= i < |now|
      ensures Calm(now[i].world, namespace)
      ensures Destructive(now[i].command) ==> Justified(now[i], namespace, recorded, root)
    {
      if i < |was| { assert now[i] == was[i]; }
    }
  }

  method TakeStart(f: Fixture, step: Step, mode: Mode)
    requires f.Exclusive() && step.Starts?
    modifies f, f.host
    ensures f.Exclusive() && f.created == old(f.created) && f.rootIdentity == old(f.rootIdentity)
    ensures f.loopIntent == old(f.loopIntent)
    ensures StepTaken(old(f.Now()), step, mode, f.Now(), f.namespace, f.images)
    ensures forall i :: |old(f.host.issued)| <= i < |f.host.issued| ==>
      Sanctioned(f.host.issued[i], f.namespace, f.images, f.containers)
    ensures forall n :: n in old(f.containers) ==> n in f.containers && f.containers[n] == old(f.containers)[n]
    ensures BuildLog(old(f.host.issued), f.host.issued, old(f.host.world))
    ensures OneUse(old(f.host.issued), f.host.issued, old(f.initialisations), f.initialisations)
  {
    var _ := f.StartContainer(step.name, step.image, step.slot, step.fault, mode);
  }

  method TakeQuiet(f: Fixture, step: Step, mode: Mode)
    requires f.Exclusive() && !step.Starts?
    modifies f`slots, f.host
    ensures f.Exclusive()
    ensures StepTaken(old(f.Now()), step, mode, f.Now(), f.namespace, f.images)
    ensures QuietLog(old(f.host.issued), f.host.issued, old(f.host.world))
  {
    match step {
      case MakesSlot(name, createdFresh) =>
        var _, _ := f.MakeSlot(name, createdFresh, mode);
      case Stops(name) =>
        if name in f.containers { var _ := f.Stop(name, mode); }
      case Drifts(name, slot, left) =>
        f.host.Drift(name, slot, left);
    }
  }

  method TakeStep(f: Fixture, step: Step, mode: Mode)
    requires f.Exclusive()
    modifies f, f.host
    ensures f.Exclusive() && f.created == old(f.created) && f.rootIdentity == old(f.rootIdentity)
    ensures f.loopIntent == old(f.loopIntent)
    ensures StepTaken(old(f.Now()), step, mode, f.Now(), f.namespace, f.images)
    ensures forall i :: |old(f.host.issued)| <= i < |f.host.issued| ==>
      Sanctioned(f.host.issued[i], f.namespace, f.images, f.containers)
    ensures forall n :: n in old(f.containers) ==> n in f.containers && f.containers[n] == old(f.containers)[n]
    ensures BuildLog(old(f.host.issued), f.host.issued, old(f.host.world))
    ensures OneUse(old(f.host.issued), f.host.issued, old(f.initialisations), f.initialisations)
  {
    if step.Starts? { TakeStart(f, step, mode); } else { TakeQuiet(f, step, mode); }
  }

  /** The steps of a script were taken one after the other, with one writer a slot in between. */
  ghost predicate ScriptTaken(moments: seq<Moment>, script: seq<(Step, Mode)>, namespace: string, images: set<string>) {
    && |moments| == |script| + 1
    && (forall i :: 0 <= i < |moments| ==> Calm(moments[i].world, namespace))
    && forall i :: 0 <= i < |script| ==>
         StepTaken(moments[i], script[i].0, script[i].1, moments[i + 1], namespace, images)
  }

  lemma ScriptGrows(moments: seq<Moment>, script: seq<(Step, Mode)>, i: nat, next: Moment, namespace: string,
                    images: set<string>)
    requires i < |script| && ScriptTaken(moments, script[..i], namespace, images) && Calm(next.world, namespace)
    requires StepTaken(moments[i], script[i].0, script[i].1, next, namespace, images)
    ensures ScriptTaken(moments + [next], script[..i + 1], namespace, images)
  {
    var longer := moments + [next];
    forall k | 0 <= k < i + 1
      ensures StepTaken(longer[k], script[..i + 1][k].0, script[..i + 1][k].1, longer[k + 1], namespace, images)
    {
      if k < i { assert script[..i + 1][k] == script[..i][k]; }
    }
  }

  /** What the log of creation and use says since its first `from` entries. */
  ghost predicate Used(f: Fixture, from: nat)
    reads f, f.host
  {
    && Built(f.host.issued, from, f.namespace) && StartsKnown(f.host.issued, from, f.initialisations)
    && StartsSanctioned(f.host.issued, from, f.namespace, f.images, f.containers)
  }

  method PlayStep(f: Fixture, step: Step, mode: Mode, ghost from: nat)
    requires f.Exclusive() && f.created && Used(f, from)
    modifies f, f.host
    ensures f.Exclusive() && f.created && Used(f, from) && f.loopIntent == old(f.loopIntent)
    ensures StepTaken(old(f.Now()), step, mode, f.Now(), f.namespace, f.images) && Calm(f.host.world, f.namespace)
    ensures old(f.host.issued) <= f.host.issued
  {
    ghost var was, used, before, recorded := f.host.issued, f.initialisations, f.host.world, f.containers;
    OwnersCalm(before, f.namespace, recorded);
    TakeStep(f, step, mode);
    StaysBuilt(was, f.host.issued, from, before, f.namespace);
    StartsStayKnown(was, f.host.issued, from, used, f.initialisations);
    StaySanctioned(was, f.host.issued, from, f.namespace, f.images, recorded, f.containers);
    OwnersCalm(f.host.world, f.namespace, f.containers);
  }

  /** The part between creation and cleanup. */
  method PlayScript(f: Fixture, script: seq<(Step, Mode)>, ghost from: nat) returns (ghost moments: seq<Moment>)
    requires f.Exclusive() && f.created && Used(f, from)
    modifies f, f.host
    ensures f.Exclusive() && f.created && Used(f, from) && f.loopIntent == old(f.loopIntent)
    ensures ScriptTaken(moments, script, f.namespace, f.images)
    ensures moments[0] == old(f.Now()) && moments[|script|] == f.Now()
    ensures old(f.host.issued) <= f.host.issued
  {
    moments := [f.Now()];
    OwnersCalm(f.host.world, f.namespace, f.containers);
    for i := 0 to |script|
      invariant f.Exclusive() && f.created && Used(f, from) && f.loopIntent == old(f.loopIntent)
      invariant ScriptTaken(moments, script[..i], f.namespace, f.images)
      invariant moments[0] == old(f.Now()) && moments[i] == f.Now()
      invariant old(f.host.issued) <= f.host.issued
    {
      PlayStep(f, script[i].0, script[i].1, from);
      ScriptGrows(moments, script, i, f.Now(), f.namespace, f.images);
      moments := moments + [f.Now()];
    }
    assert script[..|script|] == script;
  }

  /** How a series of cleanups stands: still to do with its records true, stuck, or done. */
  ghost predicate CleanupStands(f: Fixture)
    reads f, f.host
  {
    if f.created then f.Exclusive() || f.Stuck() else f.status.Pass? && AllGone(f.host.world, f.containers.Keys)
  }

  /** One more cleanup. */
  method RetryCleanup(f: Fixture, mode: Mode, ghost from: nat)
    requires f.Bookkeeping() && CleanupStands(f) && from <= |f.host.issued|
    requires Calm(f.host.world, f.namespace)
    requires LogOrderly(f.host.issued, from, f.namespace, f.containers, f.rootIdentity)
    requires StartsKnown(f.host.issued, from, f.initialisations)
    requires StartsSanctioned(f.host.issued, from, f.namespace, f.images, f.containers)
    modifies f, f.host
    ensures f.Bookkeeping() && CleanupStands(f) && from <= |f.host.issued| && f.Records() == old(f.Records())
    ensures Calm(f.host.world, f.namespace)
    ensures LogOrderly(f.host.issued, from, f.namespace, f.containers, f.rootIdentity)
    ensures StartsKnown(f.host.issued, from, f.initialisations)
    ensures StartsSanctioned(f.host.issued, from, f.namespace, f.images, f.containers)
    ensures old(f.host.issued) <= f.host.issued
    ensures f.created ==> old(f.created) && !f.status.Pass?
    ensures old(f.created && f.Exclusive()) && Effective(mode) ==> !f.created
    ensures old(f.created && f.Exclusive()) && mode.Tearing? && f.loopIntent ==> f.created && f.Stuck()
    ensures old(f.created && f.Stuck()) ==> f.created && f.Stuck()
  {
    ghost var was, before, began := f.host.issued, f.host.world, f.created;
    var _ := f.Cleanup(mode);
    if began {
      StaysOrderly(was, f.host.issued, from, before, f.namespace, f.containers, f.rootIdentity, f.initialisations);
      StaySanctioned(was, f.host.issued, from, f.namespace, f.images, f.containers, f.containers);
    }
  }

  /** Any number of cleanups in any modes, and one whose commands take effect: nothing is left, or
      nothing but the directory of a fixture that an earlier, torn removal got stuck. */
  method CleanUp(f: Fixture, modes: seq<Mode>, ghost from: nat)
    requires f.Exclusive() && f.created
    requires Used(f, from)
    modifies f, f.host
    ensures f.Bookkeeping() && CleanupStands(f) && f.Records() == old(f.Records())
    ensures f.created ==> f.Stuck() && !f.status.Pass?
    ensures modes == [] || Effective(modes[0]) ==> !f.created
    ensures modes != [] && modes[0].Tearing? && f.loopIntent ==> f.created
    ensures LogOrderly(f.host.issued, from, f.namespace, f.containers, f.rootIdentity)
    ensures StartsKnown(f.host.issued, from, f.initialisations)
    ensures StartsSanctioned(f.host.issued, from, f.namespace, f.images, f.containers)
    ensures old(f.host.issued) <= f.host.issued
  {
    for i := 0 to |modes|
      invariant f.Bookkeeping() && CleanupStands(f) && f.Records() == old(f.Records()) && from <= |f.host.issued|
      invariant Calm(f.host.world, f.namespace)
      invariant i == 0 ==> f.created && f.Exclusive()
      invariant i > 0 && Effective(modes[0]) ==> !f.created
      invariant i > 0 && modes[0].Tearing? && f.loopIntent ==> f.created && f.Stuck()
      invariant old(f.host.issued) <= f.host.issued
      invariant LogOrderly(f.host.issued, from, f.namespace, f.containers, f.rootIdentity)
      invariant StartsKnown(f.host.issued, from, f.initialisations)
      invariant StartsSanctioned(f.host.issued, from, f.namespace, f.images, f.containers)
    {
      RetryCleanup(f, modes[i], from);
    }
    RetryCleanup(f, Obeyed, from);
  }

  /** Any experiment: creation stopping anywhere, every step of a script taken, any number of cleanups
      in any modes, and one whose commands take effect. Nothing of it is left, unless a removal was
      torn, and then only its directory; no command was ever issued with two writers on a slot; no
      two starts were on empty data of one slot; and nothing was destroyed without proof of ownership
      at that moment. */
  method Experiment(host: Host, namespace: string, images: set<string>, inode: Inode, device: Loop, creation: Mode,
                    script: seq<(Step, Mode)>, cleanups: seq<Mode>)
    returns (f: Fixture, began: bool, ghost moments: seq<Moment>)
    requires Associated(host.world) == {} && host.world.rootMounts == [] && Owners(host.world, namespace, map[])
    modifies host
    ensures f.host == host && f.namespace == namespace && f.images == images && old(host.issued) <= host.issued
    ensures creation.Smooth? && old(host.world.root).None? && device !in old(host.world.loops) ==>
      && began && f.loopIntent
      && |moments| > 0 && moments[0].mounted && OwnMounted(moments[0].world, moments[0].loop)
    ensures began ==> CleanupStands(f) && (f.created ==> f.Stuck() && !f.status.Pass?)
    ensures began && (cleanups == [] || Effective(cleanups[0])) ==> !f.created
    ensures began && cleanups != [] && cleanups[0].Tearing? && f.loopIntent ==> f.created
    ensures began ==>
      ScriptTaken(moments, script, namespace, images) && moments[0].slots == map[] && moments[0].recorded == map[]
    ensures began ==> moments[|script|].slots == f.slots && moments[|script|].recorded == f.containers
    ensures LogOrderly(host.issued, |old(host.issued)|, namespace, f.containers, f.rootIdentity)
    ensures StartsKnown(host.issued, |old(host.issued)|, f.initialisations)
    ensures StartsSanctioned(host.issued, |old(host.issued)|, namespace, images, f.containers)
    ensures PermissionsUsedOnce(f.initialisations, f.slots, f.containers)
  {
    ghost var from := |host.issued|;
    f := new Fixture(host, namespace, images);
    moments := [];
    OwnersCalm(host.world, namespace, map[]);
    var ok := f.Create(inode, device, creation);
    assert ok ==> OwnMounted(f.host.world, f.loop);
    StaysBuilt(old(host.issued), host.issued, from, old(host.world), namespace);
    began := f.created;
    if !began { return; }
    moments := PlayScript(f, script, from);
    CleanUp(f, cleanups, from);
  }

  /** One run that no retry can clean up: a smooth creation, a removal torn after the backing file, and
      a cleanup whose commands all take effect. The fixture stays created and its directory stays. */
  method TornRun(namespace: string) returns (f: Fixture)
    ensures f.created && f.host.world.root.Some? && f.host.world.root == f.rootIdentity && !f.status.Pass?
  {
    var host := new Host(World(None, false, map[], [], map[], map[]));
    var began;
    ghost var moments;
    f, began, moments := Experiment(host, namespace, {}, 0, "/dev/loop0", Smooth, [], [Tearing]);
  }
}

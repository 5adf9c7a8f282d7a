/** The host a runtime fixture works on, as far as the fixture can affect it, and the ambiguous
    outcome of every command: it may do nothing, take effect, or take effect and report failure. */
module Hosts {
  import opened Bytes

  type Loop = string
  type Inode = nat

  datatype File = OwnBacking | OtherFile

  /** A mountinfo row below the fixture's root. */
  datatype Mount = Mount(atVolume: bool, source: Loop, fstype: string, wholeRoot: bool, writable: bool)

  /** What a container sees bound from the host; only a slot's data may be written. */
  datatype Source =
    | SlotData(slot: string) | SlotMarker(slot: string) | SlotGate(slot: string)
    | GateScript | HostMountinfo | DeviceNodes
    | WrongData(name: string)

  datatype Container = Container(namespace: string, slot: string, image: string, binds: map<string, Source>,
                                 hasVolume: bool, running: bool)

  /** What a slot's PGDATA directory holds; initialised data is of the expected version or of another. */
  datatype Data = Empty | Initialised(current: bool) | Dirty

  /** What the environment does with a command: anything, only the torn part of its effect, its effect,
      or its effect and a success report. Only in the first case may an observation fail. */
  datatype Mode = Ambiguous | Tearing | Obeyed | Smooth

  /** Commands take effect. */
  predicate Effective(mode: Mode) {
    mode.Obeyed? || mode.Smooth?
  }

  datatype World = World(
    root: Option<Inode>,                 // the directory at the exclusive runtime path
    backing: bool,                       // the backing file exists and is regular
    loops: map<Loop, File>,              // attached loop devices
    rootMounts: seq<Mount>,              // every mount at or below the runtime path
    containers: map<string, Container>,
    data: map<string, Data>)

  datatype Command =
    | MakeRoot(inode: Inode)
    | Truncate
    | Inside                             // changes only what is inside the root or the volume
    | MakeData(slot: string)
    | Attach(device: Loop)
    | MountVolume(device: Loop)
    | DockerRun(name: string, container: Container)
    | DockerStop(name: string)
    | DockerRemove(name: string)
    | Umount
    | Detach(device: Loop)
    | RemoveTree

  function Effect(c: Command, w: World): World {
    match c
    case MakeRoot(inode) => if w.root.Some? then w else w.(root := Some(inode))
    case Truncate => w.(backing := true)
    case Inside => w
    case MakeData(slot) => if slot in w.data then w else w.(data := w.data[slot := Empty])
    case Attach(device) => if device in w.loops then w else w.(loops := w.loops[device := OwnBacking])
    case MountVolume(device) => w.(rootMounts := w.rootMounts + [OwnMount(device)])
    case DockerRun(name, container) =>
      if name in w.containers then w else w.(containers := w.containers[name := container])
    case DockerStop(name) =>
      if name in w.containers then w.(containers := w.containers[name := w.containers[name].(running := false)]) else w
    case DockerRemove(name) => w.(containers := w.containers - {name})
    case Umount => w.(rootMounts := Unmounted(w.rootMounts))
    case Detach(device) => w.(loops := w.loops - {device})
    case RemoveTree => w.(root := None, backing := false)
  }

  /** What is left when a command stops half way: a recursive removal may have taken the backing file
      and left the directory; every other command is indivisible. */
  function Torn(c: Command, w: World): World {
    if c.RemoveTree? then w.(backing := false) else Effect(c, w)
  }

  /** Unmounting takes off the mount that was put on the volume directory last. */
  function Unmounted(mounts: seq<Mount>): seq<Mount> {
    if mounts == [] then []
    else
      var n := |mounts| - 1;
      if mounts[n].atVolume then mounts[..n] else Unmounted(mounts[..n]) + [mounts[n]]
  }

  function OwnMount(device: Loop): Mount {
    Mount(true, device, "ext4", true, true)
  }

  /** The loop devices attached to the fixture's own backing file. */
  function Associated(w: World): set<Loop> {
    set l | l in w.loops && w.loops[l].OwnBacking?
  }

  /** A command together with the world it was issued in. */
  datatype Issued = Issued(command: Command, world: World)

  class Host {
    var world: World
    ghost var issued: seq<Issued>

    constructor (w: World)
      ensures world == w && issued == []
    {
      world, issued := w, [];
    }

    /** Runs a command. The report is true only after the effect, and may be false after it. */
    method Run(c: Command, mode: Mode) returns (ok: bool)
      modifies this
      ensures issued == old(issued) + [Issued(c, old(world))]
      ensures world == old(world) || world == Effect(c, old(world)) || world == Torn(c, old(world))
      ensures ok || Effective(mode) ==> world == Effect(c, old(world))
      ensures mode.Tearing? ==> world == Torn(c, old(world))
      ensures mode.Smooth? ==> ok
    {
      issued := issued + [Issued(c, world)];
      ok := false;
      match mode {
        case Smooth =>
          world := Effect(c, world);
          ok := true;
        case Obeyed =>
          world := Effect(c, world);
          ok := *;
        case Tearing =>
          world := Torn(c, world);
        case Ambiguous =>
          if * {
            world := Effect(c, world);
            ok := *;
          } else if * {
            world := Torn(c, world);
          }
      }
    }

    /** An observation may fail, but when it succeeds it is truthful. */
    method Glimpse(mode: Mode) returns (failed: bool)
      ensures !mode.Ambiguous? ==> !failed
    {
      failed := false;
      if mode.Ambiguous? { failed := *; }
    }

    /** Between commands a container may exit, and leave anything in its data directory. */
    method Drift(name: string, slot: string, left: Data)
      modifies `world
      ensures world == old(world)
              || world == Effect(DockerStop(name), old(world))
              || world == old(world).(data := old(world).data[slot := left])
    {
      if * {
        world := Effect(DockerStop(name), world);
      } else if * {
        world := world.(data := world.data[slot := left]);
      }
    }
  }
}

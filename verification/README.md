# HomeCloud verification model

HomeCloud is a self-hosted file store. Around the service itself, its repository carries the code that must not be wrong:
it publishes backups, removes files below a storage root, streams archives, decides what may be released, and runs drills
on real hosts. This project models that code in Dafny and proves what it is for.

`dafny verify dfyconfig.toml` checks everything.

## Components

| file | models | main result |
|---|---|---|
| `image_layers.dfy` | the gosu check over OCI layers | bytes the one-pass check returns are what applying every layer (OCI image specification, layer.md, "Applying Changesets" and "Whiteouts") leaves at the path |
| `relations.dfy` | the Debian relation parser and printer | the parser decides the pattern's language; every parsed group survives printing and parsing |
| `graphs.dfy`, `closure.dfy` | the installed dependency closure | least set closed under all satisfiers, or an error exactly when something reachable is unsound |
| `host.dfy`, `fixture.dfy` | the runtime fixture of the D5.1.13 drill | exclusive creation, one writer a slot, one initialisation a slot, and a cleanup that is safe in any world and, unless an earlier removal was torn, complete when its commands take effect |
| `archive_stream.dfy` | the ZIP event machine | at most one descriptor, each closed exactly once, the promise settled at most once, in any order of events |
| `backup_store.dfy`, `backup_history.dfy` | backup publication and retention | what arrived verifies and stays until it is surplus, and enough of it stays, through any crashes of any runs |
| `transfer.dfy` | the resumable artifact download | two representations are never mixed; success is the pinned bytes |
| `scheduler.dfy` | alert deduplication | suppression only after a committed delivery; each key's confirmed deliveries read as a failure-repeat-recovery protocol, and a post that was only heard could be its next one |
| `json_values.dfy`, `oci_layout.dfy` | OCI image identity and the scan layout | content decides the image; a materialized layout is accepted and holds exactly the archive's bytes |
| `storage_keys.dfy`, `secure_remove.dfy` | native key checks and recursive removal | two validators agree; removal takes exactly the subtree, whatever fails on the way, and leaks no descriptor |
| `inventory.dfy`, `measurements.dfy` | the recovery drill's records | the inventory loses nothing; recovery point and loss are exact |
| `scan_policy.dfy`, `scan_terms.dfy`, `roles.dfy`, `qualification.dfy`, `qualification_terms.dfy` | the qualification record and the release's check of it | producer and consumer agree exactly; acceptance means no severe finding |
| `byte_range.dfy` | the benchmark's expected range | it is that slice of the uploaded file, exactly off the signature |
| `text.dfy`, `paths.dfy`, `bytes.dfy`, `sizes.dfy` | strings, paths, ideal digests, sums | shared by the others |

## Assumptions

- SHA-256 is collision-free: a digest is its preimage under a constructor.
- `dpkg --compare-versions` is an arbitrary function that may also break; an OCI JSON reader is an arbitrary function of bytes.
- A JSON document that nests up to a given depth can be written, read back and compared where a layout is made, and a deeper one
  cannot. A layout's documents are read as text, so no half of a surrogate pair stands in them unescaped.
- Observations of the host (`docker inspect`, mountinfo, `losetup`, `findmnt`) may fail, but are truthful when they succeed.
  A command may do nothing, take effect, or take effect and then report a failure, and a recursive removal may stop after it
  took the backing file; success claims name the mode they need.
- Paths resolve lexically. Closing a descriptor does not fail.
- A strong entity tag names one representation (section 8.8.3 of RFC 9110); nothing is assumed about weak ones.
- A name generated at random (a partial or expired directory) may or may not collide; a collision is an error path.

## Where the code falls short of its own claim

- `archive_binary` compares spellings, so it misreads names that are not canonical, for instance a doubled slash inside the target's
  path. `ImageLayers.AcceptedExactlyRight` says exactly when an accepted archive is right, from the resolved paths of its
  members; `ImageLayers.PreservesIsExact` gives the exact condition on a single member, `ImageLayers.MisreadMemberRefutes` an
  accepted archive with a wrong result for every member outside it, and `ImageLayers.DoubledSlashIsMisread` one such member.
- `transfer` holds a response's tag before it opens the file. If that open fails in the second session, the held tag can name
  other bytes than the file's (`Transfers.StaleTag`); `Transfers.Transfer` states this case exactly, and nothing is
  requested afterwards, so no bytes are ever mixed.
- `expectedRange` is wrong for ranges that begin inside a signature the first chunk carries; `ByteRanges.RangeIsSlice`
  states the exact condition.
- `cleanup` deletes the fixture's directory with `rm -r`. When that takes the backing file and then stops, every later
  cleanup fails at the check of the backing file (experiments/d5-1-13/runtime_fixture.py:376), even when all its commands take effect, and the
  directory stays. `Fixtures.TornRun` is such a run; `Fixtures.Fixture.Cleanup` states the exact condition: a cleanup whose
  commands take effect passes if and only if the backing file is still there or no device was ever asked for.
- `identity` accepts archives that `materialize` then fails on, both through the manifest's media type. Bytes that encode the
  two halves of a surrogate pair are read as two code points, but their escapes are read back as one code point
  (`OciLayouts.SplitArchiveRefused`; no layout of such an archive is ever accepted). And a value nested almost as deep as
  the interpreter allows is read, but no longer written in the index around it (`OciLayouts.DeepArchive`).
  `OciLayouts.Materialize` states the exact condition. A `NaN` does no harm: the reader returns one object for it, and
  lists and objects find it equal to itself.
- `measurements` ends with a check of the clock order that can never fail (`Measurements.Measure`).

## Model

| member | source | states |
|---|---|---|
| Text.SplitConcat | scripts/reconcile.py:38 | splitting distributes over a separator, the law every path argument here uses |
| Text.SplitJoin | scripts/ci/skopeo-closure.py:153-155 | joining separator-free parts and splitting again gives the parts back |
| Text.PrefixIsPartPrefix | scripts/ci/gosu-disposition.py:120 | a string prefix ending in the separator is exactly a strict prefix of components |
| Text.StartsWithMeans | scripts/reconcile.py:32-41 | a prefix is what a rest can follow |
| Paths.WalkPlain | scripts/reconcile.py:38-40 | plain components resolve below their start, one level each |
| Paths.Steps | scripts/reconcile.py:38-40 | one step goes down by a name, up by two dots, and nowhere by one or none |
| ImageLayers.CleanName | scripts/ci/gosu-disposition.py:106-111 | the two stripping loops yield the compared spelling and the safety verdict |
| ImageLayers.CheckMember | scripts/ci/gosu-disposition.py:106-124 | accepts exactly the allowed members, the target only once, and keeps its bytes |
| ImageLayers.ReadLayer | scripts/ci/gosu-disposition.py:105-124 | a layer read to its end extends what was established; otherwise some member of it is at fault |
| ImageLayers.ArchiveBinary | scripts/ci/gosu-disposition.py:97-127 | returns bytes exactly when, by the components of the names alone, every member is safe and passes and exactly one is the target, an ELF file of the fixed size, and then its bytes |
| ImageLayers.ReadArchive | scripts/ci/gosu-disposition.py:100-127 | the loop over the layers accepts exactly what the string checks accept |
| ImageLayers.SafeByParts | scripts/ci/gosu-disposition.py:109 | a spelling is safe exactly when no component leads upwards and, after the leading dots, no empty one stands before others |
| ImageLayers.CleanParts | scripts/ci/gosu-disposition.py:107-111 | the two stripping loops take leading dots and trailing empty components, and nothing else |
| ImageLayers.SpelledCore | scripts/ci/gosu-disposition.py:107-111 | of a path with any dots before and slashes behind they leave the path |
| ImageLayers.AllowedByParts | scripts/ci/gosu-disposition.py:106-124 | the whole check of a member, however spelled, is a condition on its components |
| ImageLayers.AcceptsByParts | scripts/ci/gosu-disposition.py:97-127 | so is the check of a whole archive, with the bytes it returns |
| ImageLayers.CanonicalArchiveIsDelivered | scripts/ci/gosu-disposition.py:97-127 | an archive of ordinary names is delivered if and only if, by resolved paths, it leaves the target alone but for one regular member of the size and magic, and then with its bytes: no ordinary image is refused |
| ImageLayers.UnsafeNameRefuses | scripts/ci/gosu-disposition.py:109 | a name that leads upwards, or is absolute after its leading dots, refuses the archive |
| ImageLayers.TwoTargets | scripts/ci/gosu-disposition.py:121-122 | a second member spelled as the target rules out every result |
| ImageLayers.CleanResolves | scripts/ci/gosu-disposition.py:106-111 | stripping never changes the entry a name resolves to |
| ImageLayers.CheckReadsPaths | scripts/ci/gosu-disposition.py:112-121 | on canonical names, the string tests say exactly what the resolved paths say about whiteouts, ancestors and the target |
| ImageLayers.CanonicalIsOrdinary | scripts/ci/gosu-disposition.py:109-120 | an allowed canonical member is the target or really leaves it alone |
| ImageLayers.AcceptedBytesAreEffective | scripts/ci/gosu-disposition.py:97-127 | whatever tree the accepted layers are applied to, the target ends as a regular file of the returned bytes below real directories |
| ImageLayers.CanonicalArchiveIsEffective | scripts/ci/gosu-disposition.py:97-127 | the same from canonical member names alone |
| ImageLayers.PreservesIsExact | scripts/ci/gosu-disposition.py:113-120 | a member, however spelled, leaves every placed target in place if and only if its resolved path and kind satisfy the condition |
| ImageLayers.MisreadMemberRefutes | scripts/ci/gosu-disposition.py:97-127 | every allowed member outside that condition refutes the check, with a two-layer archive it accepts |
| ImageLayers.DoubledSlashIsMisread | scripts/ci/gosu-disposition.py:109-121 | a doubled slash in the target's path is such a member |
| ImageLayers.WhiteoutFate | scripts/ci/gosu-disposition.py:113-117 | one whiteout clears the target's file or leaves it, decided by its resolved path |
| ImageLayers.AdditionFate | scripts/ci/gosu-disposition.py:118-124 | one addition sets, clears or leaves it, decided by its resolved path and kind |
| ImageLayers.FateIsEffective | scripts/ci/gosu-disposition.py:97-127 | one cell carried over all members equals what applying all layers leaves at the target |
| ImageLayers.FateForgets | scripts/ci/gosu-disposition.py:97-127 | once some layer adds a member spelled as the target, what the base tree held there no longer matters |
| ImageLayers.AcceptedExactlyRight | scripts/ci/gosu-disposition.py:97-127 | for every accepted archive, canonical or not, and every base tree whose target stands under directories, the returned bytes are the effective ones if and only if that cell, started empty and so computed from the archive alone, ends with them |
| ImageLayers.LaterTargetIsRight | scripts/ci/gosu-disposition.py:97-127 | a misread member before the target does no harm: the check accepts and is right |
| Relations.NamesAreOf | scripts/ci/skopeo-closure.py:139 | the characters of names and qualifiers |
| Relations.SpacesAre | scripts/ci/skopeo-closure.py:139 | white space by code points, and the characters of versions |
| Relations.ParserDecidesPattern | scripts/ci/skopeo-closure.py:139 | the parser fails exactly outside the pattern's language and otherwise returns the reading whose operator alternative is tried first |
| Relations.ParseRelationSound | scripts/ci/skopeo-closure.py:139 | what is parsed matches the pattern |
| Relations.ParseRelationComplete | scripts/ci/skopeo-closure.py:139 | whatever matches the pattern is parsed, to a reading at least as preferred |
| Relations.ParseGroup | scripts/ci/skopeo-closure.py:154-162 | the loop over alternatives computes the specified group or fails with its first bad alternative |
| Relations.ParseRelationGroups | scripts/ci/skopeo-closure.py:151-163 | the loop over comma-separated groups computes the specified list, skipping blank items |
| Relations.PrintedRelationParses | scripts/ci/skopeo-closure.py:210-212 | a printed relation parses to itself: its operator is never misread as another |
| Relations.PrintedGroupParses | scripts/ci/skopeo-closure.py:210-212 | a printed group of well-formed relations parses to itself alone |
| Relations.ItemsArePrintable | scripts/ci/skopeo-closure.py:153-162 | every group the parser returns is well formed and free of both separators |
| Relations.GroupRoundTrip | scripts/ci/skopeo-closure.py:151-163 | every group of any accepted field parses back to itself from the printer's text |
| Relations.FieldsConcat | scripts/ci/skopeo-closure.py:153 | a comma separates the groups of two fields, and either failing fails both |
| Relations.FieldRoundTrip | scripts/ci/skopeo-closure.py:151-163 | all groups of a field, printed and parsed again, come back in order |
| Relations.FieldAccepted | scripts/ci/skopeo-closure.py:151-163 | a field is accepted exactly when every alternative of every item that is not blank matches the pattern |
| Graphs.NeedReachable | scripts/ci/skopeo-closure.py:216 | reachability extends along one need |
| Graphs.ReachableInside | scripts/ci/skopeo-closure.py:176-217 | what is reachable lies in every set closed over the roots |
| Graphs.ExploringExpands | scripts/ci/skopeo-closure.py:184-216 | expanding one node keeps the worklist invariant |
| Graphs.ExploredIsLeast | scripts/ci/skopeo-closure.py:176-217 | an empty worklist means the included set is closed, least, and exactly what is reachable |
| Closure.NativeArchitectures | scripts/ci/skopeo-closure.py:167 | a native architecture is a lower-case letter or digit and then any of these and hyphens |
| Closure.FindRoots | scripts/ci/skopeo-closure.py:169-175 | succeeds exactly when each name is installed once, with those packages |
| Closure.SatisfiesMeets | scripts/ci/skopeo-closure.py:189-208 | one candidate for one alternative: its own version when it has the name, else what it provides under it, an unversioned one meeting no constraint, and one of the three architecture rules; broken when a comparison breaks before one is met |
| Closure.MatchAlternative | scripts/ci/skopeo-closure.py:188-208 | collects exactly the installed packages that satisfy one alternative, in declared terms of names, versions and architectures; fails exactly when a comparison breaks before one is met |
| Closure.MatchGroup | scripts/ci/skopeo-closure.py:187-215 | collects exactly the installed satisfiers of a group; fails exactly when a comparison breaks or there is none |
| Closure.ExpandGroups | scripts/ci/skopeo-closure.py:186-216 | collects what all groups want, one after the other; fails exactly when one of them is unsound |
| Closure.ExpandField | scripts/ci/skopeo-closure.py:185-216 | collects what one field wants; fails exactly on an unparsable field or an unsound group |
| Closure.ExpandPackage | scripts/ci/skopeo-closure.py:185-216 | collects a package's needs over Pre-Depends and Depends; fails exactly when it is unsound |
| Closure.Explore | scripts/ci/skopeo-closure.py:176-217 | the worklist terminates with the least closed set, or fails exactly when something reachable is unsound |
| Closure.DependencyClosure | scripts/ci/skopeo-closure.py:166-217 | the result is the least closed set and exactly what is reachable; each of its packages has every group satisfied, by names, versions and architectures, and every satisfier in the set; it errs exactly on a bad architecture, a root that is not unique, or a reachable unsound package |
| Closure.ClosedIsResolved | scripts/ci/skopeo-closure.py:184-216 | a closed set of sound packages resolves all their groups in those terms |
| Hosts.Host.Run | experiments/d5-1-13/runtime_fixture.py:100-104 | a command does nothing, takes its effect or, for a recursive removal, part of it, as its mode promises; it reports success only after the whole effect, and is logged with the world it met |
| Fixtures.Fixture.constructor | experiments/d5-1-13/runtime_fixture.py:44-63 | a new fixture owns nothing |
| Fixtures.Fixture.InspectOwned | experiments/d5-1-13/runtime_fixture.py:307-327 | presence is reported only with proof of ownership, absence only with proof of absence |
| Fixtures.Fixture.RootMounts | experiments/d5-1-13/runtime_fixture.py:349-369 | the mounts at or below the root, all of them, or an error |
| Fixtures.Fixture.AssociatedLoops | experiments/d5-1-13/runtime_fixture.py:371-387 | the devices on the own backing file, at most one and the remembered one |
| Fixtures.Fixture.VerifyLoop | experiments/d5-1-13/runtime_fixture.py:167-174 | the remembered device is on the own backing file |
| Fixtures.Fixture.VerifyMount | experiments/d5-1-13/runtime_fixture.py:176-183 | the volume is mounted from that device |
| Fixtures.Fixture.MakeRootDirectory | experiments/d5-1-13/runtime_fixture.py:117-126 | an existing path is refused untouched; ownership is claimed only of a directory just made |
| Fixtures.Fixture.BuildBacking | experiments/d5-1-13/runtime_fixture.py:127-128 | the backing file is there once its commands succeed |
| Fixtures.Fixture.AttachBacking | experiments/d5-1-13/runtime_fixture.py:127-138 | wherever it stops, an attached device is covered by the recorded intent |
| Fixtures.Fixture.AttachStorage | experiments/d5-1-13/runtime_fixture.py:117-138 | directory, backing file and device: wherever it stops, what was made is accounted for |
| Fixtures.Fixture.MountBacking | experiments/d5-1-13/runtime_fixture.py:139-164 | wherever it stops, the only mount is the own volume |
| Fixtures.Fixture.Create | experiments/d5-1-13/runtime_fixture.py:115-165 | creation stopping after any command leaves everything accounted for; with smooth commands on a free path and device it succeeds, mounted |
| Fixtures.Fixture.BuildSlot | experiments/d5-1-13/runtime_fixture.py:191-205 | a slot's directories are made only on the proved volume |
| Fixtures.Fixture.MakeSlot | experiments/d5-1-13/runtime_fixture.py:185-210 | made only under a safe name on a mounted volume, recorded once and never fresh again; smooth commands on the own volume succeed |
| Fixtures.Fixture.PreviousWritersStopped | experiments/d5-1-13/runtime_fixture.py:233-238 | passing means no container runs on the slot, and when none does it passes |
| Fixtures.Fixture.MayStart | experiments/d5-1-13/runtime_fixture.py:239-248 | allowed exactly on data initialised for this version, or on empty data of a fresh slot nothing was recorded on |
| Fixtures.Fixture.AdmitStart | experiments/d5-1-13/runtime_fixture.py:233-262 | the checks before a start change nothing and pass only with no writer and data that may be started on |
| Fixtures.Fixture.StartContainer | experiments/d5-1-13/runtime_fixture.py:222-290 | without a recorded slot, a safe unused name and an admitted image by digest nothing happens; a start is issued only of exactly the recorded container, with no writer on the slot, on the own volume, and on data of the right version or, with an unused permission that it uses up, on none; when all that holds and commands are smooth, it starts |
| Fixtures.Fixture.StartAdmitted | experiments/d5-1-13/runtime_fixture.py:233-290 | the checks on the host, and then the one command: at most one start, sanctioned in the world it met |
| Fixtures.SafeNamesAre | experiments/d5-1-13/runtime_fixture.py:21 | a safe name is a lower-case letter and at most 39 of them, digits and hyphens |
| Fixtures.ImageDigestsAre | experiments/d5-1-13/runtime_fixture.py:229 | an image is named by its prefix and 64 hexadecimal digits |
| Fixtures.OwnedMeans | experiments/d5-1-13/runtime_fixture.py:315-326 | a container is proved own exactly when it is what was asked for, running or not |
| Fixtures.OneFault | experiments/d5-1-13/runtime_fixture.py:249-262 | without a fault a container is given its own slot's data and marker; a fault changes one bind and no other |
| Fixtures.OwnersCalm | experiments/d5-1-13/runtime_fixture.py:233-262 | one writer a slot means one writer a data directory |
| Fixtures.Fixture.RecordIntent | experiments/d5-1-13/runtime_fixture.py:284-288 | the intent, and a permission it uses, are recorded before any command |
| Fixtures.Fixture.RecordAndRun | experiments/d5-1-13/runtime_fixture.py:284-290 | the intent is recorded before the one command, whatever becomes of it |
| Fixtures.Fixture.Stop | experiments/d5-1-13/runtime_fixture.py:329-332 | the one command is a stop of a container proved own, or there is none; success means it does not run |
| Fixtures.Fixture.RemoveContainer | experiments/d5-1-13/runtime_fixture.py:410-412 | removes only a container proved own, and reports success only on its absence |
| Fixtures.Fixture.RemoveContainers | experiments/d5-1-13/runtime_fixture.py:409-412 | the loop removes all recorded containers and touches nothing else |
| Fixtures.Fixture.AdoptLoop | experiments/d5-1-13/runtime_fixture.py:413-418 | the device is learned from the backing file, even if creation never remembered it |
| Fixtures.Fixture.ReleaseContainers | experiments/d5-1-13/runtime_fixture.py:409-418 | containers first, then the device is learned; a fixture whose backing file is gone never gets past it, a true one always does when it can observe |
| Fixtures.Fixture.UnmountVolume | experiments/d5-1-13/runtime_fixture.py:419-428 | unmounts only when the single mount is the own volume; success means no mount is left |
| Fixtures.Fixture.DetachLoop | experiments/d5-1-13/runtime_fixture.py:429-433 | detaches only a device proved on the own file; success means none is left |
| Fixtures.Fixture.DeleteTree | experiments/d5-1-13/runtime_fixture.py:434-441 | deletion is issued only of the recorded directory right after seeing no mount; success is its absence, and a failure leaves it whole or without its backing file |
| Fixtures.Fixture.ReleaseDevice | experiments/d5-1-13/runtime_fixture.py:419-433 | volume, then device; when it fails, what remains is still accounted for |
| Fixtures.Fixture.RemoveStorage | experiments/d5-1-13/runtime_fixture.py:419-441 | volume, device, directory: complete when its commands take effect; when it fails, what remains is accounted for, or is the directory without its backing file |
| Fixtures.Fixture.Cleanup | experiments/d5-1-13/runtime_fixture.py:398-450 | in any world every command issued is justified by what was true then, and PASS means containers, mount, device and directory are gone and the directory was its own; from every state a run can reach, effective commands reach PASS if and only if the backing file is still there whenever a device was asked for |
| Fixtures.PermissionUsed | experiments/d5-1-13/runtime_fixture.py:243-245 | using an initialisation permission keeps each slot's use at one |
| Fixtures.StartsStayKnown | experiments/d5-1-13/runtime_fixture.py:243-248 | one more step starts on empty data at most once, and never on a slot used before |
| Fixtures.TakeStep | experiments/d5-1-13/runtime_fixture.py:185-332 | a step changes only what is its own, in the world too, adds no destruction and only sanctioned starts to the log, and does its work when its commands are smooth |
| Fixtures.PlayScript | experiments/d5-1-13/runtime_fixture.py:185-332 | every step of a script is taken in order, with one writer a slot and a data directory in between and in every issued world |
| Fixtures.StaySanctioned | experiments/d5-1-13/runtime_fixture.py:222-290 | more records and more sanctioned starts keep the whole log sanctioned |
| Fixtures.RetryCleanup | experiments/d5-1-13/runtime_fixture.py:398-450 | one more cleanup keeps the records true or stuck; it ends a true fixture when its commands take effect and never ends a stuck one |
| Fixtures.CleanUp | experiments/d5-1-13/runtime_fixture.py:398-450 | any cleanups in any modes and one effective one leave nothing, or nothing but the directory of a torn removal; with every command justified |
| Fixtures.Experiment | experiments/d5-1-13/runtime_fixture.py:115-450 | any run, with creation stopping anywhere, every step of a script taken and any cleanups in any modes, ends after an effective one with nothing left, or with the directory of a torn removal; after a smooth creation the volume is mounted when the script begins; every start in the log is of a recorded container of an admitted image, on the own volume and fit data; no command was issued with two writers on a slot or a data directory, no two starts were on empty data of one slot, and all destruction was justified |
| Fixtures.TornRun | experiments/d5-1-13/runtime_fixture.py:371-376 | a smooth creation and one removal torn after the backing file: a cleanup whose commands all take effect does not pass, and the directory stays |
| ArchiveStreams.ArchiveStream.constructor | backend/src/common/archive-stream.ts:33-37 | the machine starts with nothing open and nothing settled |
| ArchiveStreams.ArchiveStream.OneDescriptor | backend/src/common/archive-stream.ts:32-134 | in every valid state at most one descriptor is open, and after settling only a destroyed stream may still hold it |
| ArchiveStreams.ArchiveStream.DestroyActive | backend/src/common/archive-stream.ts:42 | only the active reading stream is destroyed |
| ArchiveStreams.ArchiveStream.ClosePending | backend/src/common/archive-stream.ts:43-46 | the loop's own descriptor is closed once and forgotten |
| ArchiveStreams.ArchiveStream.Finish | backend/src/common/archive-stream.ts:38-52 | settles the first time only, and lets go of what is open on errors and cancellation |
| ArchiveStreams.ArchiveStream.OnArchiveError | backend/src/common/archive-stream.ts:53 | rejects unless settled, in any valid state |
| ArchiveStreams.ArchiveStream.OnArchiveEnd | backend/src/common/archive-stream.ts:54 | resolves with every descriptor closed exactly once |
| ArchiveStreams.ArchiveStream.OnDestinationClose | backend/src/common/archive-stream.ts:56 | cancellation resolves and releases |
| ArchiveStreams.ArchiveStream.OnDestinationError | backend/src/common/archive-stream.ts:57 | a failing destination rejects and releases |
| ArchiveStreams.ArchiveStream.OnStreamError | backend/src/common/archive-stream.ts:117 | a stream's error settles through the archive |
| ArchiveStreams.ArchiveStream.OnStreamClose | backend/src/common/archive-stream.ts:114-118 | a stream closes its own descriptor, the only time it is closed |
| ArchiveStreams.ArchiveStream.Start | backend/src/common/archive-stream.ts:58 | a destination already gone settles at once and opens nothing |
| ArchiveStreams.ArchiveStream.NextMember | backend/src/common/archive-stream.ts:79-132 | where the loop stops next, exactly: over after settling, finalizing at the end, else at this very member |
| ArchiveStreams.ArchiveStream.EnterMember | backend/src/common/archive-stream.ts:82-94 | where a member leads, exactly; folders open nothing, a refused file rejects with nothing open |
| ArchiveStreams.ArchiveStream.OpenFile | backend/src/common/archive-stream.ts:94-105 | accepted exactly when kind, metadata and both limits fit; otherwise closed once and rejected |
| ArchiveStreams.ArchiveStream.CheckFile | backend/src/common/archive-stream.ts:97-105 | the checks of an open file; it is counted unless an earlier one fails |
| ArchiveStreams.EntersExactly | backend/src/common/archive-stream.ts:79-105 | what is opened and kept is exactly a regular file, for a file member with a storage path, of the promised size when that is enforced, within both limits |
| ArchiveStreams.PromisedMeans | backend/src/common/archive-stream.ts:94-119 | what was handed over, member by member: one regular file for each, with the promised sizes when they are enforced |
| ArchiveStreams.SettlesAs | backend/src/common/archive-stream.ts:38-57 | what settles the promise and how: errors of archive, destination or open stream, a destination gone, the archive's end once nothing is left to append, and a loop that stops early |
| ArchiveStreams.WaitsInOrder | backend/src/common/archive-stream.ts:79-132 | member after member, every hook and every stream's close is awaited in its place, a failure or a wrong byte count lets nothing pass, and nothing is entered once settled |
| ArchiveStreams.ArchiveStream.OpenMember | backend/src/common/archive-stream.ts:94-106 | a file that fits the limits is counted and handed on or kept for the hook, any other is closed and rejected |
| ArchiveStreams.ArchiveStream.HandEmpty | backend/src/common/archive-stream.ts:108-113 | an empty file's descriptor is closed before the entry is appended |
| ArchiveStreams.ArchiveStream.HandStream | backend/src/common/archive-stream.ts:114-119 | the descriptor changes owner from the loop to the stream, never both |
| ArchiveStreams.ArchiveStream.HandOver | backend/src/common/archive-stream.ts:107-119 | an empty file is closed at once, any other passes its descriptor to one stream |
| ArchiveStreams.ArchiveStream.ThrowWithFile | backend/src/common/archive-stream.ts:123-133 | an error with a file open closes it exactly once before settling |
| ArchiveStreams.ArchiveStream.Throw | backend/src/common/archive-stream.ts:133 | any other error settles and ends the loop |
| ArchiveStreams.ArchiveStream.ResumeBeforeEntry | backend/src/common/archive-stream.ts:81-82 | after the hook the same member is entered, unless it failed or the promise settled meanwhile |
| ArchiveStreams.ArchiveStream.ResumeAfterOpen | backend/src/common/archive-stream.ts:106-107 | after the hook the open file is handed on, or closed when the hook failed |
| ArchiveStreams.ArchiveStream.ResumeAppend | backend/src/common/archive-stream.ts:85-112 | after a folder or an empty file the next member follows |
| ArchiveStreams.ArchiveStream.GoOn | backend/src/common/archive-stream.ts:79-122 | after a member the loop lands exactly where its head for the next one leads |
| ArchiveStreams.ArchiveStream.ResumeFinalize | backend/src/common/archive-stream.ts:132 | finalizing ends the loop and settles only on failure |
| ArchiveStreams.ArchiveStream.Resume | backend/src/common/archive-stream.ts:79-132 | the loop goes on from any wait exactly as specified, and waits for a stream's close until it fires |
| ArchiveStreams.ArchiveStream.ResumeStream | backend/src/common/archive-stream.ts:119-120 | after appending, the loop waits for the stream's own close |
| ArchiveStreams.ArchiveStream.ResumeClose | backend/src/common/archive-stream.ts:120-122 | a byte count that differs from the opened size rejects, an equal one goes on with the very next member |
| ArchiveStreams.ArchiveStream.Deliver | backend/src/common/archive-stream.ts:53-134 | any event in any state keeps the invariant and moves the machine exactly as the pure one; past outcomes stay |
| ArchiveStreams.ArchiveStream.DeliverAll | backend/src/common/archive-stream.ts:53-134 | a run of events plays exactly as the pure machine |
| ArchiveStreams.PlaySettles | backend/src/common/archive-stream.ts:53-57 | after an archive error, a destination close or a destination error, in whatever state, the promise is settled |
| ArchiveStreams.RunArchive | backend/src/common/archive-stream.ts:32-134 | any event sequence plays exactly as the pure machine; the promise settles once, and with the first settling event; one descriptor at most, no double close, none left once settled streams have closed; every file handed over was opened as a regular file for a member with a storage path, and with enforced metadata the sizes handed over are exactly those of the file members so far; resolving uncancelled means every member was handed over in order, within the size limits |
| BackupStores.Insert | scripts/backup-production.py:120 | insertion keeps the elements and the newest-first order with its two tie-breakers |
| BackupStores.ListGenerations | scripts/backup-production.py:115-120 | the sorted list holds only verifying generations, and all of them when the scan can read them |
| BackupStores.BuildPartial | scripts/backup-production.py:97-103 | staging never touches a discoverable name, and stops only on a collision, a failure or a crash |
| BackupStores.Expose | scripts/backup-production.py:108-109 | either nothing changed or the one rename put this entry under a free name |
| BackupStores.Stage | scripts/backup-production.py:97-110 | either nothing discoverable changed or exactly this generation appeared, verifying like its source; finishing means it appeared |
| BackupStores.Publish | scripts/backup-production.py:95-112 | the same including the clean-up, through a crash at any action; with nothing in the way and no failure it does not raise |
| BackupStores.PublishedBytes | scripts/backup-production.py:87 | an equal manifest means the very same backup bytes |
| BackupStores.CompleteExactly | scripts/backup-production.py:80-88 | a complete generation is a directory of exactly its backup, not empty, and a manifest that names it and gives the backup's size and digest |
| BackupStores.NameIsParts | scripts/backup-production.py:18 | a generation name is a date, a time and an identifier between fixed letters |
| BackupStores.PartsAreName | scripts/backup-production.py:18 | and every such text is one |
| BackupStores.BeforeTransitive | scripts/backup-production.py:120 | the retention order is transitive, ties included |
| BackupStores.BeforeIsAhead | scripts/backup-production.py:120 | the sort is by time, then the protected one, then the larger name, by its first difference |
| BackupStores.SurplusByTimes | scripts/backup-production.py:122-123 | surplus by times and names alone: old enough, not protected, and behind `count` others that are newer, or as new and protected or of the larger name |
| BackupStores.NamesCount | scripts/backup-production.py:115-120 | a listing names each generation once |
| BackupStores.ListedPlace | scripts/backup-production.py:120-122 | a listed place is exactly the number of newer generations |
| BackupStores.AllSurplusHidden | scripts/backup-production.py:122-126 | hiding every eligible listed name hides every surplus generation |
| BackupStores.NoSurplus | scripts/backup-production.py:122 | a short list has nothing to hide |
| BackupStores.SurplusShrinks | scripts/backup-production.py:122-128 | hiding generations makes no other one surplus |
| BackupStores.NewestName | scripts/backup-production.py:120-122 | of any generations to go, one has all the newer ones staying |
| BackupStores.CountKept | scripts/backup-production.py:114-128 | whatever part of the surplus goes, the smaller of the retention count and the generations there were stays |
| BackupStores.GoneAreOutlived | scripts/backup-production.py:120-128 | behind every generation that went, at least `count` complete ones made no earlier stay |
| BackupStores.StayingAreAhead | scripts/backup-production.py:120-128 | when all surplus went, what could have gone and stays is newer than what went, or as new with the larger name |
| BackupStores.HideOne | scripts/backup-production.py:124-128 | hiding is one rename; its failure leaves the generation in place |
| BackupStores.HideListed | scripts/backup-production.py:122-128 | one turn of the pass hides its generation or nothing, and never a protected or recent one |
| BackupStores.TrimTail | scripts/backup-production.py:122-128 | the loop hides surplus names only, every eligible one when nothing fails, and stops only by a crash |
| BackupStores.Retain | scripts/backup-production.py:114-128 | only surplus generations go (beyond the count, past the cutoff, not protected), each outlived by `count` complete ones made no earlier; exactly the surplus goes when nothing fails, and then none is left |
| BackupStores.HideSurplus | scripts/backup-production.py:115-128 | the pass itself: surplus only, and all of it when nothing fails |
| BackupStores.RetainUnlessScanFails | scripts/backup-production.py:160-162 | a failing pass is no failure of the run, and it too hides surplus only |
| BackupStores.Backup | scripts/backup-production.py:137-163 | wherever the run stops, each side published its generation or not and then hid surplus only; finishing means it arrived and verifies on both; undisturbed it finishes and leaves no surplus |
| BackupHistories.StepKeepsCount | scripts/backup-production.py:157-162 | one run keeps the count on a side, and its arrival adds to it |
| BackupHistories.StepOutlived | scripts/backup-production.py:157-162 | whatever one run hid on a side, `count` complete generations made no earlier are there after it |
| BackupHistories.EnoughLeft | scripts/backup-production.py:157-162 | after any runs, the smaller of the count and all there was or arrived is there to be discovered |
| BackupHistories.StaysOrHidden | scripts/backup-production.py:157-162 | what arrived verifies like its source, and is there unchanged unless a later run hid it as surplus |
| BackupHistories.FinishesCount | scripts/backup-production.py:157-163 | at least as many generations arrived as runs finished |
| BackupHistories.SideIsKept | scripts/backup-production.py:157-162 | these together, and every hidden generation outlived by `count` made no earlier, for any sequence of directory states that runs can produce |
| BackupHistories.History | scripts/backup-production.py:137-163 | the runs produce such a sequence on both sides, from the first state to the last, through any crashes; every finished run arrived on both, and every undisturbed one finished and left no surplus |
| Transfers.CopyBody | experiments/d5-1-13/artifact.py:137-155 | the file is the prefix and a prefix of the body, never over the pinned size |
| Transfers.StrongTagsAre | experiments/d5-1-13/artifact.py:118 | a strong tag is two quotes around at least one character, none of them a quote or a line break |
| Transfers.Session | experiments/d5-1-13/artifact.py:95-173 | a range is requested only under a tag whose representation the file starts; bytes are written only of an unencoded response that is the whole pinned size or exactly what the file lacks of that representation; after the session the file is a prefix of what the held tag names, but for the one case of a file that cannot be opened |
| Transfers.PrefixGrows | experiments/d5-1-13/artifact.py:121-138 | an accepted response continues the very representation the file starts |
| Transfers.StaleTag | experiments/d5-1-13/artifact.py:136-137 | that one case occurs, with its input: a held tag that does not name the file's bytes |
| Transfers.Transfer | experiments/d5-1-13/artifact.py:76-176 | at most two sessions, never more than the pinned size, only safe requests; verified means the pinned content; a second session that resumes under the held strong tag, however the first one ended, and brings the rest of the pinned bytes does verify; the held tag names a prefix of its representation except in exactly one case, which is given |
| Schedulers.Deliver | scripts/scheduled-operations.py:73-88 | succeeds at the first confirmed attempt, fails after the last, and counts the posts a receiver heard without confirming |
| Schedulers.HeardAre | scripts/scheduled-operations.py:73-88 | the heard posts are the unconfirmed ones before the first confirmed answer |
| Schedulers.Scheduler.constructor | scripts/scheduled-operations.py:102-103 | no file means no memory |
| Schedulers.Scheduler.Transition | scripts/scheduled-operations.py:117-129 | the outcome, the log and the file of a transition are those specified for its answers and its fate, and the log stays explained |
| Schedulers.Scheduler.ReadState | scripts/scheduled-operations.py:102-115 | refuses exactly times before zero or over a minute ahead |
| Schedulers.Scheduler.Turn | scripts/scheduled-operations.py:187 | one request of a run advances the specified progress by one |
| Schedulers.Scheduler.RunScript | scripts/scheduled-operations.py:187-227 | requests in order, and none after the first that fails |
| Schedulers.Scheduler.RunJob | scripts/scheduled-operations.py:174-229 | a run adds to the log and leaves in the file exactly what is specified, wherever it stops; an unreadable state ends it untouched |
| Schedulers.LogGrows | scripts/scheduled-operations.py:119-129 | one more explained event keeps the whole log explained |
| Schedulers.RespondSound | scripts/scheduled-operations.py:117-129 | whatever becomes of a request, every event stays explained and the file is the memory of the committed ones |
| Schedulers.RunStops | scripts/scheduled-operations.py:126 | nothing follows the first request that fails |
| Schedulers.RunSettles | scripts/scheduled-operations.py:174-229 | a run that goes to its end has settled every request in order |
| Schedulers.RunGoes | scripts/scheduled-operations.py:174-229 | with confirmed answers and good saves a run goes to its end |
| Schedulers.JobRequests | scripts/scheduled-operations.py:174-227 | a job asks once about each of its keys, all of them keys the state may hold: stale markers, the job's own reason, and retention after a good backup |
| Schedulers.GoingMeansDealtWith | scripts/scheduled-operations.py:117-129 | a run goes on exactly as long as each request is dealt with: nothing to say, suppressed and logged, or delivered, confirmed, saved and logged |
| Schedulers.RunReflects | scripts/scheduled-operations.py:117-129 | settled requests leave in the file exactly what the job found for each of its keys, and other keys as they were |
| Schedulers.ReadableMeans | scripts/scheduled-operations.py:112 | a state is refused exactly for a time before zero or over a minute ahead |
| Schedulers.PastCommits | scripts/scheduled-operations.py:126-129 | without a crash between delivery and save every delivery of a history is committed |
| Schedulers.MemoryIsLastDelivery | scripts/scheduled-operations.py:127-129 | a remembered alert is the last committed delivery of its key |
| Schedulers.SuppressedOnlyAfterDelivery | scripts/scheduled-operations.py:120-121 | every suppression follows a committed delivery of the same key and reason less than the cooldown old, the last one of that key |
| Schedulers.ReadsGrows | scripts/scheduled-operations.py:122 | the event named for a transition continues the receiver's protocol |
| Schedulers.CommittedDeliveriesRead | scripts/scheduled-operations.py:117-129 | without a crash between delivery and save the confirmed deliveries of each key read failure (failure or repeat)* recovery, repeats a cooldown apart, and the memory is the last of them |
| Schedulers.HeardContinues | scripts/scheduled-operations.py:73-88 | a post that was heard but never confirmed could have been the next confirmed delivery of its key, and is all a receiver may read besides those |
| Schedulers.History | scripts/scheduled-operations.py:90-129 | any history adds up to exactly what its runs specify; every suppression follows a recent committed delivery; and without a crash before a save every delivery is committed and every key's confirmed deliveries read as the protocol |
| OciLayouts.LookupIsLast | scripts/ci/provenance.py:55 | the member found is the last one of that name, and none is found exactly when there is none |
| OciLayouts.ReadExactly | scripts/ci/provenance.py:52-57 | metadata is read of the last regular member of a name, up to 16 MiB |
| OciLayouts.MediaKinds | scripts/ci/oci-scan-binding.py:32-35 | an index has image.index or manifest.list in its media type, a manifest otherwise manifest |
| OciLayouts.VisitDescriptor | scripts/ci/oci-scan-binding.py:32-39 | one descriptor adds its nested index, its image, or nothing |
| OciLayouts.Visit | scripts/ci/oci-scan-binding.py:29-39 | the recursive walk appends exactly the specified candidates, to a bounded depth |
| OciLayouts.Identity | scripts/ci/oci-scan-binding.py:22-56 | accepts exactly the archives with one linux/amd64 image whose layers are present and intact |
| OciLayouts.FetchedByContent | scripts/ci/provenance.py:43-61 | a fetched document is the reading of the content its digest names |
| OciLayouts.FetchExactly | scripts/ci/provenance.py:43-61 | a document is fetched exactly when its blob is there, a file of its size and digest, within the limit, and JSON |
| OciLayouts.CandidatesExactly | scripts/ci/oci-scan-binding.py:29-39 | the walk fails exactly at something unreadable or too deep, and finds exactly the linux/amd64 manifests reached |
| OciLayouts.IdentifiedExactly | scripts/ci/oci-scan-binding.py:22-56 | an identified image in declared terms: the one reached, with as many layers as layer digests, all present |
| OciLayouts.CandidatesByContent | scripts/ci/oci-scan-binding.py:29-39 | every candidate is determined by its descriptor's content, at any depth of index |
| OciLayouts.IdentityByContent | scripts/ci/oci-scan-binding.py:22-56 | so are an identified image's manifest, configuration and layers |
| OciLayouts.EqualPlatformEqualImage | scripts/ci/oci-scan-binding.py:22-56 | two archives with one platform digest have equal manifest, configuration and layer bytes |
| OciLayouts.OneImage | scripts/ci/oci-scan-binding.py:42 | an archive identifies one image |
| OciLayouts.SelectedPresent | scripts/ci/oci-scan-binding.py:98-103 | every selected blob of an identified archive is there with its content |
| OciLayouts.CheckLayout | scripts/ci/oci-scan-binding.py:77-86 | accepts exactly the layouts of these blobs, the marker and this index |
| OciLayouts.VerifyLayout | scripts/ci/oci-scan-binding.py:65-87 | accepts exactly the layouts of the archive's image |
| OciLayouts.AcceptedLayoutHoldsArchive | scripts/ci/oci-scan-binding.py:65-87 | an accepted layout holds the archive's own bytes for each selected blob, and no other blob |
| OciLayouts.LayoutExactly | scripts/ci/oci-scan-binding.py:65-87 | the accepted layouts in the archive's own terms: these paths and no other, no symbolic link, the marker, the index and every blob's bytes |
| OciLayouts.CopyBlobs | scripts/ci/oci-scan-binding.py:100-109 | the copy always succeeds on selected blobs, repeated digests included |
| OciLayouts.Materialize | scripts/ci/oci-scan-binding.py:90-113 | succeeds exactly on a free path and an identified archive whose manifest's media type has no surrogate pair split in two, in no text or key at any depth, and nests no deeper than the index leaves room for; always with an accepted layout |
| OciLayouts.SplitTextRefused | scripts/ci/oci-scan-binding.py:59-82 | with a split pair in the media type, no layout of the archive is ever accepted |
| OciLayouts.TextIsCopyable | scripts/ci/oci-scan-binding.py:59-62 | an image without a media type, or with one that is a text of characters, can always be copied |
| OciLayouts.CopyIsExact | scripts/ci/oci-scan-binding.py:90-113 | the copied blobs with the written marker and index, read back, are an exact layout if and only if the media type has no split pair |
| OciLayouts.ExampleIdentified | scripts/ci/oci-scan-binding.py:22-56 | any JSON value at all can be the media type of an identified image |
| OciLayouts.SplitArchiveRefused | scripts/ci/oci-scan-binding.py:22-82 | an archive of four members whose media type is one split pair is identified, and every layout of it refused |
| OciLayouts.DeepArchive | scripts/ci/oci-scan-binding.py:110-112 | the same archive with a media type of nested lists is identified, and copied exactly when there is room for it in the index |
| JsonValues.TruthCounts | scripts/ci/oci-scan-binding.py:81 | a truth value equals one or zero and no other number |
| JsonValues.NestingOfOne | scripts/ci/oci-scan-binding.py:110-112 | a list or an object around a value nests one deeper |
| JsonValues.EqualsItself | scripts/ci/oci-scan-binding.py:81 | every JSON value equals itself as compared here, a NaN included |
| JsonValues.RereadSame | scripts/ci/oci-scan-binding.py:111-112 | a text without a split pair comes back from its escapes as it was, beyond sixteen bits too |
| JsonValues.ReadHasNoPair | scripts/ci/oci-scan-binding.py:79-81 | whatever is read from escapes has no split pair |
| JsonValues.WholeEqual | scripts/ci/oci-scan-binding.py:81 | of two equal values both or neither have a split pair in a text or key that counts |
| JsonValues.ReadBackEqual | scripts/ci/oci-scan-binding.py:79-112 | a value written and read back equals the original if and only if no text and no key that counts, at any depth, has a split pair |
| StorageKeys.ScanStep | backend/native/secure-fs.c:32-34 | one turn of the scan decides one component and leaves the rest |
| StorageKeys.KeyOk | backend/native/secure-fs.c:29-36 | the pointer scan accepts exactly the keys whose components all name entries |
| StorageKeys.BufferedKeys | backend/native/secure-fs.c:23-36 | a key has one to 4095 characters and no terminator |
| StorageKeys.AcceptedKeys | backend/native/secure-fs.c:29-36 | and no component that is empty or made of dots that lead nowhere or upwards |
| StorageKeys.AcceptedStaysBelow | backend/native/secure-fs.c:29-36 | an accepted key resolves strictly below any root |
| StorageKeys.SplitParent | backend/native/secure-fs.c:59-62 | the in-place split leaves an accepted directory, or the root, and a plain leaf, and together they are the key |
| StorageKeys.ReservedNames | scripts/reconcile.py:39 | which first components the script keeps for itself |
| StorageKeys.ValidatorsAgree | scripts/reconcile.py:32-41 | the script accepts exactly the native keys without backslash, NUL or reserved first component |
| StorageKeys.ScriptKeysAreNative | scripts/reconcile.py:32-41 | what the script accepts and the buffer holds, the native code accepts |
| SecureRemoval.FileSystem.OpenDirectory | backend/native/secure-fs.c:37-40 | opens exactly directories, never through a link |
| SecureRemoval.FileSystem.Unlink | backend/native/secure-fs.c:91-100 | removes one entry of the asked kind, a directory only when empty |
| SecureRemoval.FileSystem.RemoveEntries | backend/native/secure-fs.c:96-99 | the loop empties a directory only when everything below is removable, and always then on a reliable system; a failing readdir or removal leaves the rest as it was |
| SecureRemoval.FileSystem.RemoveAt | backend/native/secure-fs.c:89-101 | recursion succeeds only when nothing is deeper than 64 or foreign, and always then when fdopendir, readdir and fsync do not fail; it then has removed exactly the subtree; on failure the named entry stays and nothing outside changes; descriptors balance on every path |
| SecureRemoval.FileSystem.RemoveKey | backend/native/secure-fs.c:102-107 | the same for a key, with its checks, its parent's descriptor, and a last fsync that may fail after the removal |
| SecureRemoval.LeafSubtree | backend/native/secure-fs.c:93 | a link or file has nothing below it, so removing it removes no target |
| SecureRemoval.Untouched | backend/native/secure-fs.c:97-98 | removing whole siblings leaves a child's subtree and its removability as they were |
| SecureRemoval.AllBelow | backend/native/secure-fs.c:97-100 | all children removable means the directory is, and they cover all that is below |
| Inventories.Visit | experiments/d5-1-13/recovery_model.py:29-46 | the walk succeeds exactly on acceptable trees and adds one record for each entry, at its own path |
| Inventories.TakeInventory | experiments/d5-1-13/recovery_model.py:25-48 | the whole inventory lists exactly the tree |
| Inventories.NamesApart | experiments/d5-1-13/recovery_model.py:34 | two entries never share an inventory key |
| Inventories.EntryAdded | experiments/d5-1-13/recovery_model.py:38-45 | one more entry with its descendants extends the listing by exactly that |
| Inventories.AcceptableMeans | experiments/d5-1-13/recovery_model.py:35-44 | a tree is acceptable exactly when everything in it is a directory, or a regular file with one link and at most 64 MiB |
| Inventories.SameRecordsSameTree | experiments/d5-1-13/recovery_model.py:25-48 | a tree is rebuilt from its records |
| Inventories.InventoryLosesNothing | experiments/d5-1-13/recovery_model.py:84-87 | two inventories are equal exactly when the trees agree in shape, kinds, modes, owners and bytes |
| Measurements.Lost | experiments/d5-1-13/recovery_model.py:101 | the lost rows are exactly the confirmed ones whose event was not restored |
| Measurements.Measure | experiments/d5-1-13/recovery_model.py:90-112 | a report appears exactly on consistent events, with these figures, and the clock-order check never fails |
| Measurements.ConsistentMeans | experiments/d5-1-13/recovery_model.py:91-103 | what consistent events are, event by event |
| Measurements.RestoredPlusLost | experiments/d5-1-13/recovery_model.py:98-101 | restored and lost together are the confirmed events, as multisets |
| Measurements.ReportIsExact | experiments/d5-1-13/recovery_model.py:101-112 | counts and bytes are conserved; the recovery point is zero exactly when nothing was lost and positive otherwise; restored events are a prefix in confirmation order |
| ScanPolicy.ValidateResult | scripts/ci/scan-policy.py:43-55 | the inner loop returns one result's findings, or fails at the first malformed one |
| ScanPolicy.ValidateResults | scripts/ci/scan-policy.py:22-56 | the nested loops return all findings of complete results, or fail on any malformed one |
| ScanPolicy.TallyCounts | scripts/ci/scan-policy.py:60-62 | the counter holds each severity's number of findings and no other entry |
| ScanPolicy.SevereByCount | scripts/ci/scan-policy.py:61 | the counters are severe exactly when some result lists a HIGH or CRITICAL finding |
| ScanPolicy.GatesAreExact | scripts/ci/scan-policy.py:59-106 | each gate passes exactly on complete scans without a severe finding; the diagnostic and platform gates never pass and never hide one |
| ScanTerms.CompleteExactly | scripts/ci/scan-policy.py:22-56 | a complete report in declared terms: results, well-formed findings of five severities, and the operating system's packages where asked for |
| ScanTerms.ImageJudged | scripts/ci/scan-policy.py:59-64 | an image scan is judged exactly when complete and of a named linux/amd64 image; the summary counts every finding and is blocked by a severe one |
| ScanTerms.TreeJudged | scripts/ci/scan-policy.py:67-80 | the same for a scan of files, a component needing language packages instead |
| ScanTerms.PlatformJudged | scripts/ci/scan-policy.py:83-101 | a hosted root file system is judged exactly when it is that very one of a passed, unpinned, hosted environment |
| ScanTerms.PlatformReported | scripts/ci/scan-policy.py:97-101 | and then reported in full, retained, under the provider's assurance |
| Qualifications.Attempt | scripts/ci/policy-coverage.py:114-118 | a group's entries are its successful checks and its errors the failed ones, in order |
| Qualifications.CollectImages | scripts/ci/policy-coverage.py:120-123 | runtime and build entries and their errors, in order |
| Qualifications.CollectOthers | scripts/ci/policy-coverage.py:124-181 | environment and baseline entries, appended to the same errors |
| Qualifications.Qualify | scripts/ci/policy-coverage.py:101-186 | the record of a roster: entries, errors, status and coverage |
| Qualifications.WriteRecord | scripts/ci/policy-coverage.py:189-203 | adds the run identity; without a numeric one the record neither passes nor covers |
| Qualifications.ImageVerdict | scripts/ci/policy-coverage.py:52-98 | an image passes exactly when its evidence is bound to the commit and its scan has no severe finding, and then the release accepts its entry |
| Qualifications.ScansVerdict | scripts/ci/policy-coverage.py:157-166 | an environment's gate passes exactly when no controlled scan is severe, and then each scan is what the release demands |
| Qualifications.EnvironmentVerdict | scripts/ci/policy-coverage.py:125-166 | a clean environment's entry is accepted by the release |
| Qualifications.SoundIsAccepted | scripts/ci/release.py:97-120 | sound scans under the right runner policy pass every environment check of the release |
| Qualifications.SameRoster | scripts/ci/release.py:35-40 | both sides' lists of images, environments, baselines and components agree |
| Qualifications.PassByChecks | scripts/ci/policy-coverage.py:182-186 | a record passes exactly when every check succeeds with a passing gate |
| Qualifications.PassIsClean | scripts/ci/policy-coverage.py:120-185 | and that is exactly when the evidence is clean, with no mention of records |
| Qualifications.AcceptedExactly | scripts/ci/release.py:73-123 | the release accepts a run's record exactly when it is a release record of that commit and run with a numeric identity and clean evidence |
| Qualifications.AcceptedMeansNothingSevere | scripts/ci/release.py:73-123 | acceptance means no severe finding in any runtime, build or controlled environment scan |
| QualificationTerms.DigestTerms | scripts/ci/policy-coverage.py:60-62 | a digest is its prefix and 64 hexadecimal digits |
| QualificationTerms.NumberTerms | scripts/ci/policy-coverage.py:102-103 | a commit is 40 hexadecimal digits, a run number one decimal digit or more |
| QualificationTerms.PackagesTerms | scripts/ci/policy-coverage.py:74-81 | which images must list which Node packages |
| QualificationTerms.ImageBoundExactly | scripts/ci/policy-coverage.py:52-96 | an image is bound exactly by these files: a binding with four digests, the report it names, a passed archive scan, and by role the lock, the smoke test, the packages and the runtime image's build |
| QualificationTerms.FindExactly | scripts/ci/policy-coverage.py:126-129 | an environment is found exactly when all files are readable and one alone has its name |
| QualificationTerms.ToolsExactly | scripts/ci/policy-coverage.py:147-150 | the tools are the required ones, each once, at its own path |
| QualificationTerms.ToolsByName | scripts/ci/policy-coverage.py:140-146 | which environment runs which tools |
| QualificationTerms.EnvironmentBoundExactly | scripts/ci/policy-coverage.py:130-156 | an environment is bound exactly by its commit, a passed record, the component its name calls for, the right retained reports and the tools |
| QualificationTerms.ScanJudged | scripts/ci/policy-coverage.py:157-162 | which policy judges which scan of an environment, and when it gives a verdict at all |
| QualificationTerms.BaselineExactly | scripts/ci/policy-coverage.py:167-180 | a baseline is delivered exactly on a judged report with a passed remote scan of the pinned input |
| QualificationTerms.RosterExactly | scripts/ci/policy-coverage.py:106-107 | a pull request leaves out the base environments and the baselines, and nothing else |
| QualificationTerms.AcceptedDemands | scripts/ci/release.py:73-123 | what a release demands of any record, whoever wrote it, entry by entry |
| ByteRanges.DeterministicChunk | backend/bench/full-file-http-client.ts:52-65 | fills a chunk with its byte and overwrites the signature in place |
| ByteRanges.UploadStep | backend/bench/full-file-http-client.ts:113 | each chunk size is positive, at most the chunk bytes, and advances the position by itself |
| ByteRanges.UploadChunks | backend/bench/full-file-http-client.ts:73-115 | the chunks concatenate to the file, are never empty, and their sizes sum to its size |
| ByteRanges.ExpectedRange | backend/bench/full-file-http-client.ts:34-51 | the loop makes progress and fills every byte from the chunk its position lies in |
| ByteRanges.FileBytesAre | backend/bench/full-file-http-client.ts:52-65 | each byte of the file from its position alone |
| ByteRanges.RangeIsSlice | backend/bench/full-file-http-client.ts:34-51 | the expected range is that slice of the file if and only if it starts at 8 or later, or the first chunk has no room for a signature |

## Left out

- The parsing of the installed-package listing that the dependency closure begins with: packages are given as records.
- Uploads, sharing, quota, sessions and the web interface: not among the modelled components.
- Symbolic links as parents inside image layers: paths resolve lexically.
- The qualification of gosu and of skopeo beyond these functions (signatures, advisories, inventories): lists of independent checks.
- Characters versus UTF-8 bytes, in keys: a key's length is counted in characters.
- The slots' data directories, database contents and tree copies of the fixture: commands inside the volume change nothing the fixture observes elsewhere; a change of the database version is an arbitrary refusal.
- What else a recursive `rm` that stops half way has taken from the fixture's directory: only the directory and its backing file are observed.
- The environment and receipt checks that every call of the fixture begins with, and the database user it starts with: a
  fixture stands for one whose checks hold, and its admitted images are a set.
- A file creation or JSON write of the fixture's own ledger that fails: its records are taken as written.
- Listeners removed after an archive entry, and the archive library's own buffering: an append ends by an event or an error, at any time.
- `fsync`, its reordering, and concurrent outside writers of a backup directory: every rename and removal is one atomic action.
- Staging of a backup before publication (dump, archive, encryption): the source generation is an arbitrary directory.
- The reading of `created_at` and of a manifest's JSON: an instant, and an optional parsed value. The source sorts the text of `created_at`, and `strptime` also reads unpadded fields, so for a manifest not written by the source itself text order and instant order can differ.
- Digits beyond ASCII: `\d` and `isdigit` accept them in the source, and only `0` to `9` are digits here.
- The origin of a download address, time budgets and read timeouts: any session may stop at any point.
- The classification of a job's exit code and of marker ages, and the fields of the alert payload beyond event, key, reason and time: parameters of a run.
- State files of a wrong JSON shape, and the partial temporary file of a failed save: a state is a map, and a replacement happens or not.
- An empty object or string where a scan report should list packages: a listing that is no list is an error.
- Halves of surrogate pairs in strings other than a media type: those strings are characters, and are only compared or searched for ASCII.
- The path of a scan layout being derived from the archive's: the layout is a value, and an occupied path is a flag.
- Errors of `unlinkat` and `openat` other than by kind and emptiness, mounts below the root, and other processes: removal is alone on its tree.
- The expiry of vulnerability databases, installed-package coverage and runner identity: outcomes that a qualification takes as given.
- JSON members of a wrong type in a qualification record read back from disk: records are typed, and a missing member is another value.
- The normalisation of workspace and tool paths: a required path is compared as a place, not as text.
- Signatures and registry traffic of the provenance code, certificates, recovery storage, preflight checks and the other benchmark instruments: they would only add easy members.
- Measured seconds: nanosecond integers are kept, and their division to seconds is not modelled.

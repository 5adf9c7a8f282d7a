/** The ZIP engine as an event machine: one asynchronous loop over the members, the handlers of the
    archive and of the destination, and the descriptors and promise they share. Every interleaving
    of events with the points where the loop waits is a sequence of the methods below. */
module ArchiveStreams {
  import opened Bytes
  import opened Sizes

  datatype Member = Member(isFolder: bool, hasStoragePath: bool, size: nat)

  datatype Options = Options(waitsBefore: bool, waitsAfterOpen: bool, enforceMetadataSize: bool,
                             maxFileBytes: Option<nat>, maxTotalBytes: Option<nat>)

  /** What the file system answers when a member is resolved and opened. */
  datatype OpenAnswer = Refused | Opened(isFile: bool, size: nat)

  /** Descriptors are numbered in the order they are opened; a stream is known by its descriptor. */
  type Fd = nat

  datatype StreamState = Reading | Destroyed | Closed

  /** Where the loop waits. */
  datatype Wait =
    | Looping  // running, between two waits
    | BeforeEntry(i: nat)
    | AppendingFolder(i: nat)
    | AfterOpen(i: nat, size: nat)
    | AppendingEmpty(i: nat)
    | AppendingStream(i: nat)
    | AwaitingClose(i: nat)
    | Finalizing
    | Done

  predicate InRange(wait: Wait, count: nat) {
    wait.Looping? || wait.Finalizing? || wait.Done? || wait.i < count
  }

  datatype Outcome = Resolved | Rejected

  /** The kind, metadata and limit checks a file must pass after it was opened. */
  predicate Fits(member: Member, options: Options, open: OpenAnswer, streamed: nat) {
    && open.Opened? && open.isFile && !(options.enforceMetadataSize && open.size != member.size)
    && Admits(options, open.size, streamed + open.size)
  }

  /** Where an opened file leads. */
  function OpenedWait(i: nat, options: Options, size: nat): Wait {
    if options.waitsAfterOpen then AfterOpen(i, size) else if size == 0 then AppendingEmpty(i) else AppendingStream(i)
  }

  /** Where the loop stops next once member `i` is entered. */
  function EnteredWait(i: nat, members: seq<Member>, options: Options, settled: bool, streamed: nat, open: OpenAnswer,
                       pathFails: bool): Wait
    requires i < |members|
  {
    if settled || pathFails then Done
    else if members[i].isFolder then AppendingFolder(i)
    else if members[i].hasStoragePath && Fits(members[i], options, open, streamed)
    then OpenedWait(i, options, open.size)
    else Done
  }

  /** Where the loop stops next from its head at `i`. */
  function HeadWait(i: nat, members: seq<Member>, options: Options, settled: bool, streamed: nat, open: OpenAnswer,
                    pathFails: bool): Wait
    requires i <= |members|
  {
    if settled then Done
    else if i == |members| then Finalizing
    else if options.waitsBefore then BeforeEntry(i)
    else EnteredWait(i, members, options, settled, streamed, open, pathFails)
  }

  /** Where the loop stops next when what it waits for has come; `closed` says whether the active
      stream's close has fired. */
  function ResumedWait(wait: Wait, members: seq<Member>, options: Options, settled: bool, streamed: nat, closed: bool,
                       fails: bool, bytesMatch: bool, open: OpenAnswer, pathFails: bool): Wait
    requires InRange(wait, |members|)
  {
    match wait
    case BeforeEntry(i) => if fails then Done else EnteredWait(i, members, options, settled, streamed, open, pathFails)
    case AfterOpen(i, size) =>
      if fails || settled then Done else if size == 0 then AppendingEmpty(i) else AppendingStream(i)
    case AppendingFolder(i) =>
      if fails then Done else HeadWait(i + 1, members, options, settled, streamed, open, pathFails)
    case AppendingEmpty(i) =>
      if fails then Done else HeadWait(i + 1, members, options, settled, streamed, open, pathFails)
    case AppendingStream(i) => if fails then Done else AwaitingClose(i)
    case AwaitingClose(i) =>
      if !closed then wait
      else if !bytesMatch then Done
      else HeadWait(i + 1, members, options, settled, streamed, open, pathFails)
    case Finalizing => Done
    case _ => wait
  }

  /** The machine as its events see it, with nothing but the loop's wait, the promise's outcome, the
      bytes counted, the descriptors opened and whether the active stream's close has fired. */
  datatype Progress = Progress(wait: Wait, outcome: Option<Outcome>, streamed: nat, descriptors: nat, closed: bool)

  /** A promise settles once. */
  function Settled(outcome: Option<Outcome>, next: Outcome): Option<Outcome> {
    if outcome.None? then Some(next) else outcome
  }

  /** A wait that an accepted, open file leads to. */
  predicate HoldsFile(wait: Wait) {
    wait.AfterOpen? || wait.AppendingEmpty? || wait.AppendingStream?
  }

  function SizeOf(open: OpenAnswer): nat {
    if open.Opened? then open.size else 0
  }

  /** The loop has gone from its head, or from the entry of a member, to `wait`. */
  function Landed(wait: Wait, outcome: Option<Outcome>, streamed: nat, descriptors: nat, open: OpenAnswer): Progress {
    if wait.Done? then Progress(Done, Settled(outcome, Rejected), 0, 0, false)
    else if HoldsFile(wait) then Progress(wait, outcome, streamed + SizeOf(open), descriptors + 1, false)
    else Progress(wait, outcome, streamed, descriptors, false)
  }

  /** The loop goes on from its wait. */
  function Resumed(p: Progress, members: seq<Member>, options: Options, fails: bool, bytesMatch: bool, open: OpenAnswer,
                   pathFails: bool): Progress
    requires InRange(p.wait, |members|)
  {
    var settled := p.outcome.Some?;
    var next :=
      ResumedWait(p.wait, members, options, settled, p.streamed, p.closed, fails, bytesMatch, open, pathFails);
    if next == p.wait then p
    else if p.wait.Finalizing? then
      Progress(Done, if fails then Settled(p.outcome, Rejected) else p.outcome, 0, 0, false)
    else if !next.Done? && p.wait.AfterOpen? then Progress(next, p.outcome, p.streamed, p.descriptors, false)
    else if next.AwaitingClose? then p.(wait := next)
    else Landed(next, p.outcome, p.streamed, p.descriptors, open)
  }

  /** From a member that is done with, the loop lands where its head for the next one leads. */
  lemma ResumedHead(p: Progress, i: nat, members: seq<Member>, options: Options, fails: bool, bytesMatch: bool,
                    open: OpenAnswer,
                    pathFails: bool)
    requires i < |members|
    requires (p.wait == AwaitingClose(i) && p.closed && bytesMatch)
             || ((p.wait == AppendingFolder(i) || p.wait == AppendingEmpty(i)) && !fails)
    ensures Resumed(p, members, options, fails, bytesMatch, open, pathFails)
            == Landed(HeadWait(i + 1, members, options, p.outcome.Some?, p.streamed, open, pathFails),
                      p.outcome, p.streamed, p.descriptors, open)
  {
  }

  /** Each wait looks only at what it waits for. */
  lemma ResumedIgnores(p: Progress, members: seq<Member>, options: Options, fails: bool, bytesMatch: bool,
                       open: OpenAnswer,
                       pathFails: bool)
    requires InRange(p.wait, |members|)
    ensures p.wait.AfterOpen? || p.wait.AppendingStream? || p.wait.Finalizing? ==>
      Resumed(p, members, options, fails, bytesMatch, open, pathFails)
      == Resumed(p, members, options, fails, false, Refused, false)
    ensures p.wait.BeforeEntry? || p.wait.AppendingFolder? || p.wait.AppendingEmpty? ==>
      Resumed(p, members, options, fails, bytesMatch, open, pathFails)
      == Resumed(p, members, options, fails, false, open, pathFails)
    ensures p.wait.AwaitingClose? ==>
      Resumed(p, members, options, fails, bytesMatch, open, pathFails)
      == Resumed(p, members, options, false, bytesMatch, open, pathFails)
  {
  }

  /** What one event does. The descriptor of the active stream is the last one opened. */
  function Step(p: Progress, event: Event, members: seq<Member>, options: Options): (next: Progress)
    requires InRange(p.wait, |members|)
    ensures InRange(next.wait, |members|)
    ensures p.outcome.Some? ==> next.outcome == p.outcome
  {
    var streaming := p.wait.AppendingStream? || p.wait.AwaitingClose?;
    match event
    case ArchiveError => p.(outcome := Settled(p.outcome, Rejected))
    case ArchiveEnd => if p.wait.Finalizing? || p.wait.Done? then p.(outcome := Settled(p.outcome, Resolved)) else p
    case DestinationClose => p.(outcome := Settled(p.outcome, Resolved))
    case DestinationError => p.(outcome := Settled(p.outcome, Rejected))
    case StreamError(fd) =>
      if streaming && fd + 1 == p.descriptors && !p.closed then p.(outcome := Settled(p.outcome, Rejected)) else p
    case StreamClose(fd) => if streaming && fd + 1 == p.descriptors then p.(closed := true) else p
    case Resumes(fails, bytesMatch, open, pathFails) => Resumed(p, members, options, fails, bytesMatch, open, pathFails)
  }

  /** The wait for a member being handed over, or opened for it. */
  predicate Entering(wait: Wait) {
    wait.AppendingFolder? || HoldsFile(wait)
  }

  /** Every wait is passed in its own way, member after member: only the loop's own resumption moves it; a
      hook that is there is awaited, before a member and after an open, and lets nothing pass when it
      fails; a stream's close is awaited, and a wrong byte count lets nothing pass; and once the promise is
      settled no further member is entered. */
  lemma WaitsInOrder(p: Progress, event: Event, members: seq<Member>, options: Options)
    requires InRange(p.wait, |members|) && !p.wait.Looping?
    ensures var q := Step(p, event, members, options);
      p.wait != q.wait ==>
        && event.Resumes? && !p.wait.Done?
        && (q.wait.Done? || q.wait.Finalizing? || (!p.wait.Finalizing? && p.wait.i <= q.wait.i <= p.wait.i + 1))
        && (q.wait.Finalizing? ==> p.wait.i + 1 == |members|)
        && (q.wait.BeforeEntry? ==> options.waitsBefore)
        && (q.wait.AfterOpen? ==> options.waitsAfterOpen)
        && (Entering(q.wait) && !p.wait.AfterOpen? && options.waitsBefore ==> p.wait == BeforeEntry(q.wait.i))
        && ((q.wait.AppendingEmpty? || q.wait.AppendingStream?) && options.waitsAfterOpen ==>
              p.wait.AfterOpen? && p.wait.i == q.wait.i)
        && (q.wait.AwaitingClose? <==> p.wait.AppendingStream? && !event.fails)
        && (p.wait.AwaitingClose? && !q.wait.Done? ==> p.closed && event.bytesMatch)
        && (!p.wait.AwaitingClose? && !q.wait.Done? ==> !event.fails)
        && (p.outcome.Some? ==> q.wait.Done? || q.wait.AwaitingClose?)
    ensures event.Resumes? && !p.wait.Done? && (p.wait.AwaitingClose? ==> p.closed) ==>
      Step(p, event, members, options).wait != p.wait
  {
  }

  /** What settles the promise, and how: an error of the archive, the destination or the open stream, a
      destination that went away, the archive's end once there is nothing more to append, and a loop that
      stops for anything but the end of its work. */
  lemma SettlesAs(p: Progress, event: Event, members: seq<Member>, options: Options)
    requires InRange(p.wait, |members|) && !p.wait.Looping? && p.outcome.None?
    ensures var q := Step(p, event, members, options);
            match event
            case ArchiveError | DestinationError => q == p.(outcome := Some(Rejected))
            case DestinationClose => q == p.(outcome := Some(Resolved))
            case ArchiveEnd =>
              q == if p.wait == Finalizing || p.wait == Done then p.(outcome := Some(Resolved)) else p
            case StreamError(fd) =>
              q == if (p.wait.AppendingStream? || p.wait.AwaitingClose?) && p.descriptors == fd + 1 && !p.closed
                   then p.(outcome := Some(Rejected)) else p
            case StreamClose(fd) =>
              q == if (p.wait.AppendingStream? || p.wait.AwaitingClose?) && p.descriptors == fd + 1
                   then p.(closed := true) else p
            case Resumes(fails, bytesMatch, _, _) =>
              && (q.outcome == Some(Rejected) <==>
                    p.wait != Done && q.wait == Done && !(p.wait == Finalizing && !fails))
              && (q.outcome == None || q.outcome == Some(Rejected))
              && (fails && p.wait != Done && !p.wait.AwaitingClose? ==> q.wait == Done)
              && (!bytesMatch && p.closed && p.wait.AwaitingClose? ==> q.wait == Done)
  {
  }

  /** The machine right after the call. */
  function Begin(members: seq<Member>, options: Options, destinationGone: bool, open: OpenAnswer,
                 pathFails: bool): (p: Progress)
    ensures InRange(p.wait, |members|)
  {
    if destinationGone then Progress(Done, Some(Resolved), 0, 0, false)
    else Landed(HeadWait(0, members, options, false, 0, open, pathFails), None, 0, 0, open)
  }

  /** The machine after a run of events. */
  function Play(start: Progress, events: seq<Event>, members: seq<Member>, options: Options): (p: Progress)
    requires InRange(start.wait, |members|)
    ensures InRange(p.wait, |members|)
    ensures start.outcome.Some? ==> p.outcome == start.outcome
  {
    if events == [] then start
    else var n := |events| - 1; Step(Play(start, events[..n], members, options), events[n], members, options)
  }

  /** An event that settles the promise wherever the loop is. */
  predicate Settles(event: Event) {
    event.ArchiveError? || event.DestinationClose? || event.DestinationError?
  }

  /** The first settling event, in whatever state it comes, leaves no promise open. */
  lemma {:induction false} PlaySettles(start: Progress, events: seq<Event>, members: seq<Member>, options: Options)
    requires InRange(start.wait, |members|)
    requires start.outcome.Some? || exists i :: 0 <= i < |events| && Settles(events[i])
    ensures Play(start, events, members, options).outcome.Some?
    decreases |events|
  {
    if events != [] {
      var n := |events| - 1;
      if !Settles(events[n]) && start.outcome.None? {
        var i :| 0 <= i < |events| && Settles(events[i]);
        assert events[..n][i] == events[i];
        PlaySettles(start, events[..n], members, options);
      }
    }
  }

  // ---------------------------------------------------------------- what is handed over

  /** The sizes the non-folder members promise, in order. */
  function FileSizes(members: seq<Member>): seq<nat> {
    if members == [] then []
    else
      var n := |members| - 1;
      FileSizes(members[..n]) + if members[n].isFolder then [] else [members[n].size]
  }

  /** A member that may be handed over with so many bytes. */
  predicate FileOf(member: Member, size: nat, options: Options) {
    !member.isFolder && member.hasStoragePath && (options.enforceMetadataSize ==> size == member.size)
  }

  /** Of the first `n` members, each file was opened as a regular file and handed over with that size. */
  ghost predicate Promised(members: seq<Member>, n: nat, appended: seq<nat>, answers: seq<OpenAnswer>, options: Options)
    requires n <= |members|
  {
    if n == 0 then appended == [] && answers == []
    else if members[n - 1].isFolder then Promised(members, n - 1, appended, answers, options)
    else
      && appended != [] && answers != []
      && var size := appended[|appended| - 1];
      && FileOf(members[n - 1], size, options) && answers[|answers| - 1] == Opened(true, size)
      && Promised(members, n - 1, appended[..|appended| - 1], answers[..|answers| - 1], options)
  }

  lemma PromisedNext(members: seq<Member>, i: nat, appended: seq<nat>, answers: seq<OpenAnswer>, options: Options,
                     size: nat)
    requires i < |members| && Promised(members, i, appended, answers, options) && FileOf(members[i], size, options)
    ensures Promised(members, i + 1, appended + [size], answers + [Opened(true, size)], options)
  {
    assert (appended + [size])[..|appended|] == appended;
    assert (answers + [Opened(true, size)])[..|answers|] == answers;
  }

  /** What was handed over, read member by member: as many files as there are, each opened as a regular
      file, with the promised sizes when they are enforced. */
  lemma {:induction false} PromisedMeans(members: seq<Member>, n: nat, appended: seq<nat>, answers: seq<OpenAnswer>,
                                         options: Options)
    requires n <= |members| && Promised(members, n, appended, answers, options)
    ensures |answers| == |appended| == |FileSizes(members[..n])|
    ensures forall k :: 0 <= k < |appended| ==> answers[k] == Opened(true, appended[k])
    ensures forall k :: 0 <= k < n && !members[k].isFolder ==> members[k].hasStoragePath
    ensures options.enforceMetadataSize ==> appended == FileSizes(members[..n])
  {
    if n > 0 {
      assert members[..n][..n - 1] == members[..n - 1];
      if members[n - 1].isFolder {
        PromisedMeans(members, n - 1, appended, answers, options);
      } else {
        var m := |appended| - 1;
        PromisedMeans(members, n - 1, appended[..m], answers[..|answers| - 1], options);
        assert appended == appended[..m] + [appended[m]];
      }
    }
  }

  /** What is opened is a regular file, for a file member with a storage path, of the promised size and
      within the limits; and every such file is taken. */
  lemma EntersExactly(i: nat, members: seq<Member>, options: Options, settled: bool, streamed: nat, open: OpenAnswer,
                      pathFails: bool)
    requires i < |members|
    ensures HoldsFile(EnteredWait(i, members, options, settled, streamed, open, pathFails)) <==>
            && !settled && !pathFails && open.Opened? && open.isFile && FileOf(members[i], open.size, options)
            && (options.maxFileBytes.Some? ==> open.size <= options.maxFileBytes.value)
            && (options.maxTotalBytes.Some? ==> streamed + open.size <= options.maxTotalBytes.value)
  {
  }

  /** How many members must have been handed to the archive where the loop waits. */
  predicate Handed(wait: Wait, handed: nat) {
    match wait
    case BeforeEntry(i) => handed == i
    case AfterOpen(i, _) => handed == i
    case AppendingFolder(i) => handed == i + 1
    case AppendingEmpty(i) => handed == i + 1
    case AppendingStream(i) => handed == i + 1
    case AwaitingClose(i) => handed == i + 1
    case _ => true
  }

  class ArchiveStream {
    const members: seq<Member>
    const options: Options
    var settled: bool
    var cancelled: bool
    var activeStream: Option<Fd>
    var pendingFd: Option<Fd>
    var streamedBytes: nat
    var wait: Wait
    var finalizeCalled: bool
    var streams: map<Fd, StreamState>
    /** How often each opened descriptor was closed. */
    var closes: seq<nat>
    ghost var outcomes: seq<Outcome>
    /** The sizes of the files handed to the archive. */
    ghost var appended: seq<nat>
    /** How many members, in their order, were handed to the archive. */
    ghost var handed: nat
    /** What the file system said of each file handed over, and of the one last opened. */
    ghost var answers: seq<OpenAnswer>
    ghost var lastAnswer: OpenAnswer

    ghost predicate IsOpen(fd: Fd)
      reads this
    {
      fd < |closes| && closes[fd] == 0
    }

    predicate ActiveClosed()
      reads this
    {
      activeStream.Some? && activeStream.value in streams && streams[activeStream.value].Closed?
    }

    /** Every descriptor is closed exactly once or still owned by its one owner. */
    ghost predicate Descriptors()
      reads this
    {
      && (forall fd :: 0 <= fd < |closes| ==> closes[fd] <= 1)
      && (forall fd :: fd in streams ==> fd < |closes| && (streams[fd].Closed? <==> closes[fd] == 1))
      && (forall fd :: 0 <= fd < |closes| && closes[fd] == 0 ==> pendingFd == Some(fd) || activeStream == Some(fd))
      && (pendingFd.Some? ==> IsOpen(pendingFd.value) && pendingFd.value !in streams && activeStream.None?)
      && (activeStream.Some? ==> activeStream.value in streams)
      && (settled ==> pendingFd.None?)
      && (settled && activeStream.Some? ==> !streams[activeStream.value].Reading?)
    }

    /** Where the loop can be, given what it holds. */
    ghost predicate Control()
      reads this
    {
      && (pendingFd.Some? <==> wait.AfterOpen? && !settled)
      && (wait.AppendingStream? || wait.AwaitingClose? ==> activeStream.Some?)
      && (activeStream.Some? ==> wait.AppendingStream? || wait.AwaitingClose? || (wait.Done? && settled))
      && (finalizeCalled ==> wait.Finalizing? || wait.Done?)
      && (wait.Finalizing? ==> finalizeCalled)
      && (wait.Done? && !settled ==> finalizeCalled)
      && (pendingFd.Some? ==> pendingFd.value == |closes| - 1)
      && (activeStream.Some? && !wait.Done? ==> activeStream.value == |closes| - 1)
      && (activeStream.Some? && activeStream.value in streams && !settled ==> !streams[activeStream.value].Destroyed?)
      && InRange(wait, |members|)
    }

    ghost predicate Limits()
      reads this
    {
      && Within(appended, options, streamedBytes - (if wait.AfterOpen? then wait.size else 0))
      && (wait.AfterOpen? ==> Admits(options, wait.size, streamedBytes))
    }

    /** Members are handed over in order, and all of them before the archive is finalized; only
        that, or a cancellation, lets the promise resolve. */
    ghost predicate InOrder()
      reads this
    {
      && (!settled ==> Handed(wait, handed))
      && (finalizeCalled ==> handed == |members|)
      && (settled && !cancelled && outcomes == [Resolved] ==> finalizeCalled)
    }

    ghost predicate Core()
      reads this
    {
      |outcomes| == (if settled then 1 else 0) && Descriptors() && Control() && Limits()
    }

    ghost predicate Valid()
      reads this
    {
      Core() && InOrder() && HandedRight() && PendingRight() && (cancelled ==> settled)
    }

    /** Every file handed over was opened as a regular file for a member with a storage path, and has the
        promised size when that is enforced. */
    ghost predicate HandedRight()
      reads this
    {
      handed <= |members| && Promised(members, handed, appended, answers, options)
    }

    /** So was the file the loop holds. */
    ghost predicate PendingRight()
      reads this
    {
      wait.AfterOpen? ==>
        wait.i < |members| && FileOf(members[wait.i], wait.size, options) && lastAnswer == Opened(true, wait.size)
    }

    /** What the events see of this state. */
    ghost function View(): Progress
      reads this
    {
      var outcome := if outcomes == [] then None else Some(outcomes[0]);
      if wait.Done? then Progress(Done, outcome, 0, 0, false)
      else Progress(wait, outcome, streamedBytes, |closes|, ActiveClosed())
    }

    /** At most one descriptor is open, and once the promise is settled or the loop is over only a
        destroyed stream can still hold it, until that stream's own close. */
    lemma OneDescriptor()
      requires Valid()
      ensures forall a, b :: IsOpen(a) && IsOpen(b) ==> a == b
      ensures settled || wait.Done? ==> forall fd :: IsOpen(fd) ==> fd in streams && streams[fd].Destroyed?
    {
    }

    constructor (members: seq<Member>, options: Options)
      ensures this.members == members && this.options == options
      ensures Valid() && wait.Looping? && !settled && closes == [] && handed == 0 && streamedBytes == 0
    {
      this.members, this.options := members, options;
      settled, cancelled, activeStream, pendingFd, streamedBytes := false, false, None, None, 0;
      wait, finalizeCalled, streams := Looping, false, map[];
      closes, outcomes, appended, handed, answers, lastAnswer := [], [], [], 0, [], Refused;
    }

    // -------------------------------------------------------------- descriptors

    /** `activeStream?.destroy()`: the stream will close its descriptor later, on its own. */
    method DestroyActive()
      requires activeStream.Some? ==> activeStream.value in streams
      modifies this`streams
      ensures streams == if activeStream.Some? && old(streams)[activeStream.value].Reading?
                         then old(streams)[activeStream.value := Destroyed] else old(streams)
    {
      if activeStream.Some? && streams[activeStream.value].Reading? {
        streams := streams[activeStream.value := Destroyed];
      }
    }

    /** Closes the descriptor the loop still holds itself, if any. */
    method ClosePending()
      requires pendingFd.Some? ==> pendingFd.value < |closes|
      modifies this`pendingFd, this`closes
      ensures pendingFd.None?
      ensures closes == if old(pendingFd).Some?
                        then old(closes)[old(pendingFd).value := old(closes)[old(pendingFd).value] + 1]
                        else old(closes)
    {
      if pendingFd.Some? {
        closes := closes[pendingFd.value := closes[pendingFd.value] + 1];
        pendingFd := None;
      }
    }

    // -------------------------------------------------------------- settling

    /** Settles the promise, the first time only; on an error or a cancellation it also lets go of
        whatever is open. */
    method Finish(error: bool)
      requires |outcomes| == (if settled then 1 else 0) && Descriptors()
      requires !error && !cancelled && !settled ==> pendingFd.None? && activeStream.None?
      modifies this`settled, this`pendingFd, this`streams, this`closes, this`outcomes
      ensures settled && |outcomes| == 1 && Descriptors()
      ensures |closes| == |old(closes)|
      ensures closes == if !old(settled) && (error || cancelled) && old(pendingFd).Some?
                        then old(closes)[old(pendingFd).value := 1] else old(closes)
      ensures old(settled) ==> outcomes == old(outcomes) && closes == old(closes) && streams == old(streams)
      ensures !old(settled) ==> outcomes == [if error then Rejected else Resolved]
    {
      if settled { return; }
      settled := true;
      if error || cancelled {
        DestroyActive();
        ClosePending();
      }
      outcomes := outcomes + [if error then Rejected else Resolved];
    }

    method OnArchiveError()
      requires Valid()
      modifies this`settled, this`pendingFd, this`streams, this`closes, this`outcomes
      ensures Valid() && settled
      ensures old(outcomes) <= outcomes
      ensures !old(settled) ==> outcomes == [Rejected]
      ensures View() == old(View()).(outcome := Settled(old(View()).outcome, Rejected))
    {
      Finish(true);
    }

    /** The archive ends only after `finalize` or after it was aborted. */
    method OnArchiveEnd()
      requires Valid() && (finalizeCalled || settled)
      modifies this`settled, this`pendingFd, this`streams, this`closes, this`outcomes
      ensures Valid() && settled
      ensures old(outcomes) <= outcomes
      ensures !old(settled) ==>
        outcomes == [Resolved] && closes == old(closes) && forall fd :: 0 <= fd < |closes| ==> closes[fd] == 1
      ensures View() == old(View()).(outcome := Settled(old(View()).outcome, Resolved))
    {
      Finish(false);
    }

    /** The reader went away: settled without an error. */
    method OnDestinationClose()
      requires Valid()
      modifies this`cancelled, this`settled, this`pendingFd, this`streams, this`closes, this`outcomes
      ensures Valid() && settled && cancelled
      ensures old(outcomes) <= outcomes && |closes| == |old(closes)|
      ensures !old(settled) ==> outcomes == [Resolved]
      ensures View() == old(View()).(outcome := Settled(old(View()).outcome, Resolved))
    {
      cancelled := true;
      Finish(false);
    }

    method OnDestinationError()
      requires Valid()
      modifies this`cancelled, this`settled, this`pendingFd, this`streams, this`closes, this`outcomes
      ensures Valid() && settled && cancelled
      ensures old(outcomes) <= outcomes
      ensures !old(settled) ==> outcomes == [Rejected]
      ensures View() == old(View()).(outcome := Settled(old(View()).outcome, Rejected))
    {
      cancelled := true;
      Finish(true);
    }

    /** A failing stream destroys itself and passes its error to the archive. */
    method OnStreamError(fd: Fd)
      requires Valid() && fd in streams && streams[fd].Reading?
      modifies this`settled, this`pendingFd, this`streams, this`closes, this`outcomes
      ensures Valid() && settled
      ensures old(outcomes) <= outcomes
      ensures View() == old(View()).(outcome := Settled(old(View()).outcome, Rejected))
    {
      streams := streams[fd := Destroyed];
      Finish(true);
    }

    /** A stream closes its descriptor once, after its end or after it was destroyed. */
    method OnStreamClose(fd: Fd)
      requires Valid() && fd in streams && !streams[fd].Closed?
      modifies this`streams, this`closes
      ensures Valid()
      ensures old(outcomes) <= outcomes
      ensures streams == old(streams)[fd := Closed] && closes == old(closes)[fd := 1]
      ensures View() == if !wait.Done? && activeStream == Some(fd) then old(View()).(closed := true) else old(View())
    {
      streams := streams[fd := Closed];
      closes := closes[fd := closes[fd] + 1];
    }

    // -------------------------------------------------------------- the loop

    /** An error outside the open file: the outer handler settles and the loop is over. */
    method Throw()
      requires Valid()
      modifies this`settled, this`pendingFd, this`streams, this`closes, this`outcomes, this`wait
      ensures Valid() && settled && wait.Done?
      ensures old(outcomes) <= outcomes
      ensures !old(settled) ==> outcomes == [Rejected]
      ensures old(pendingFd).None? ==> closes == old(closes)
    {
      Finish(true);
      wait := Done;
    }

    /** An error while a file is open: destroys or closes it before the outer handler. */
    method ThrowWithFile()
      requires |outcomes| == (if settled then 1 else 0) && Descriptors() && !finalizeCalled && HandedRight()
      requires Within(appended, options, streamedBytes)
      requires settled && !cancelled ==> outcomes != [Resolved]
      modifies this`settled, this`pendingFd, this`streams, this`closes, this`outcomes, this`wait
      ensures Valid() && settled && wait.Done?
      ensures old(outcomes) <= outcomes
      ensures !old(settled) ==> outcomes == [Rejected]
      ensures closes == if old(pendingFd).Some? then old(closes)[old(pendingFd).value := 1] else old(closes)
    {
      LetGo();
      Finish(true);
      wait := Done;
    }

    /** The stream is destroyed and the loop's own descriptor closed. */
    method LetGo()
      requires Descriptors()
      modifies this`streams, this`pendingFd, this`closes
      ensures Descriptors() && pendingFd.None?
      ensures closes == if old(pendingFd).Some? then old(closes)[old(pendingFd).value := 1] else old(closes)
      ensures activeStream.Some? ==> !streams[activeStream.value].Reading?
    {
      DestroyActive();
      ClosePending();
    }

    /** The top of the loop for member `i`. */
    method NextMember(i: nat, open: OpenAnswer, pathFails: bool)
      requires Valid() && i <= |members| && activeStream.None? && !wait.AfterOpen? && !finalizeCalled
      requires !settled ==> handed == i
      modifies this
      ensures Valid() && wait == HeadWait(i, members, options, old(settled), old(streamedBytes), open, pathFails)
      ensures old(outcomes) <= outcomes
      ensures old(settled) ==> settled && closes == old(closes)
      ensures !old(settled) && wait.Done? ==> outcomes == [Rejected]
      ensures View() == Landed(HeadWait(i, members, options, old(settled), old(streamedBytes), open, pathFails),
                               old(View()).outcome, old(streamedBytes), |old(closes)|, open)
    {
      if i == |members| {
        if !cancelled && !settled {
          finalizeCalled := true;
          wait := Finalizing;
        } else {
          wait := Done;
        }
        return;
      }
      if cancelled || settled {
        wait := Done;
        return;
      }
      if options.waitsBefore {
        wait := BeforeEntry(i);
      } else {
        EnterMember(i, open, pathFails);
      }
    }

    /** After `beforeEntry`: a folder entry, or a file that is opened and checked. */
    method EnterMember(i: nat, open: OpenAnswer, pathFails: bool)
      requires Valid() && i < |members| && activeStream.None? && !wait.AfterOpen? && !finalizeCalled
      requires !settled ==> handed == i
      modifies this
      ensures Valid() && wait == EnteredWait(i, members, options, old(settled), old(streamedBytes), open, pathFails)
      ensures old(outcomes) <= outcomes
      ensures old(settled) ==> settled && closes == old(closes)
      ensures !old(settled) && wait.Done? ==> outcomes == [Rejected]
      ensures !old(settled) && !pathFails && members[i].isFolder ==> wait == AppendingFolder(i) && closes == old(closes)
      ensures !old(settled) && (pathFails || (!members[i].isFolder && (!members[i].hasStoragePath || open.Refused?)))
              ==> outcomes == [Rejected] && closes == old(closes)
      ensures View() == Landed(EnteredWait(i, members, options, old(settled), old(streamedBytes), open, pathFails),
                               old(View()).outcome, old(streamedBytes), |old(closes)|, open)
    {
      if cancelled || settled {
        wait := Done;
        return;
      }
      if pathFails {
        Throw();
        return;
      }
      var member := members[i];
      if member.isFolder {
        wait, handed := AppendingFolder(i), handed + 1;
        return;
      }
      if !member.hasStoragePath || open.Refused? {
        Throw();
        return;
      }
      OpenMember(i, member, open.isFile, open.size);
    }

    /** The new descriptor is the loop's own. */
    method TakeDescriptor()
      requires Descriptors() && activeStream.None? && pendingFd.None? && !settled
      modifies this`pendingFd, this`closes
      ensures Descriptors()
      ensures pendingFd == Some(|old(closes)|) && closes == old(closes) + [0]
    {
      pendingFd := Some(|closes|);
      closes := closes + [0];
    }

    /** The checks of an open file, which count it before the last of them. */
    method CheckFile(member: Member, isFile: bool, size: nat) returns (fits: bool)
      modifies this`streamedBytes
      ensures fits <==> Fits(member, options, Opened(isFile, size), old(streamedBytes))
      ensures streamedBytes == old(streamedBytes) || streamedBytes == old(streamedBytes) + size
      ensures fits ==> streamedBytes == old(streamedBytes) + size
    {
      fits := isFile && !(options.enforceMetadataSize && size != member.size)
              && !(options.maxFileBytes.Some? && size > options.maxFileBytes.value);
      if fits {
        streamedBytes := streamedBytes + size;
        fits := !(options.maxTotalBytes.Some? && streamedBytes > options.maxTotalBytes.value);
      }
    }

    /** The file is open: checked and counted, or closed again. */
    method OpenFile(i: nat, member: Member, isFile: bool, size: nat) returns (accepted: bool)
      requires Valid() && i < |members| && activeStream.None? && !wait.AfterOpen? && !finalizeCalled && !settled
      requires handed == i && member == members[i] && !member.isFolder && member.hasStoragePath
      modifies this`pendingFd, this`closes, this`lastAnswer, this`streamedBytes, this`wait, this`settled, this`streams,
               this`outcomes
      ensures Valid() && old(outcomes) <= outcomes
      ensures accepted <==> Fits(member, options, Opened(isFile, size), old(streamedBytes))
      ensures accepted ==> wait == AfterOpen(i, size) && !settled && closes == old(closes) + [0]
                           && streamedBytes == old(streamedBytes) + size
      ensures !accepted ==> wait.Done? && outcomes == [Rejected] && closes == old(closes) + [1]
    {
      TakeDescriptor();
      lastAnswer := Opened(isFile, size);
      accepted := CheckFile(member, isFile, size);
      if accepted { HoldFile(i, size); } else { ThrowWithFile(); }
    }

    /** A file that passed its checks stays open. */
    method HoldFile(i: nat, size: nat)
      requires outcomes == [] && Descriptors() && pendingFd == Some(|closes| - 1) && activeStream.None?
      requires !finalizeCalled && !settled && !cancelled && handed == i && HandedRight()
      requires Within(appended, options, streamedBytes - size) && Admits(options, size, streamedBytes)
      requires i < |members| && FileOf(members[i], size, options) && lastAnswer == Opened(true, size)
      modifies this`wait
      ensures Valid() && wait == AfterOpen(i, size)
    {
      wait := AfterOpen(i, size);
    }

    /** An opened file that passes its checks waits for `afterOpen`, if there is one, and is handed on. */
    method OpenMember(i: nat, member: Member, isFile: bool, size: nat)
      requires Valid() && i < |members| && activeStream.None? && !wait.AfterOpen? && !finalizeCalled && !settled
      requires handed == i && member == members[i] && !member.isFolder && member.hasStoragePath
      modifies this
      ensures Valid() && !wait.Looping?
      ensures old(outcomes) <= outcomes
      ensures |closes| == |old(closes)| + 1
      ensures wait == if Fits(member, options, Opened(isFile, size), old(streamedBytes))
                      then OpenedWait(i, options, size) else Done
      ensures if wait.Done? then outcomes == [Rejected] && closes == old(closes) + [1]
              else !settled && streamedBytes == old(streamedBytes) + size
      ensures !wait.Done? ==> !ActiveClosed()
    {
      var accepted := OpenFile(i, member, isFile, size);
      if accepted && !options.waitsAfterOpen { HandOver(i, size); }
    }

    /** An empty file is closed at once. */
    method HandEmpty(i: nat)
      requires Valid() && wait == AfterOpen(i, 0) && !settled
      modifies this`pendingFd, this`closes, this`wait, this`appended, this`handed, this`answers
      ensures Valid() && wait == AppendingEmpty(i)
      ensures closes == old(closes)[old(pendingFd).value := 1] && appended == old(appended) + [0]
    {
      ClosePending();
      RecordFile(0);
      wait := AppendingEmpty(i);
    }

    /** One more file handed over. */
    ghost method RecordFile(size: nat)
      requires HandedRight() && handed < |members| && FileOf(members[handed], size, options)
      requires lastAnswer == Opened(true, size)
      requires Within(appended, options, streamedBytes - size) && Admits(options, size, streamedBytes)
      modifies this`appended, this`handed, this`answers
      ensures HandedRight() && Within(appended, options, streamedBytes)
      ensures appended == old(appended) + [size] && handed == old(handed) + 1
    {
      SumAppend(appended, size);
      PromisedNext(members, handed, appended, answers, options, size);
      appended, handed, answers := appended + [size], handed + 1, answers + [lastAnswer];
    }

    /** From the loop to a stream: the descriptor has one owner before and after. */
    method PassDescriptor()
      requires Descriptors() && pendingFd.Some? && !settled
      modifies this`pendingFd, this`activeStream, this`streams
      ensures Descriptors()
      ensures pendingFd.None? && activeStream == old(pendingFd)
      ensures streams == old(streams)[old(pendingFd).value := Reading]
    {
      activeStream := pendingFd;
      streams := streams[pendingFd.value := Reading];
      pendingFd := None;
    }

    /** Any other file passes its descriptor to a stream of its own. */
    method HandStream(i: nat, size: nat)
      requires Valid() && wait == AfterOpen(i, size) && !settled
      modifies this`pendingFd, this`activeStream, this`streams, this`wait, this`appended, this`handed, this`answers
      ensures Valid() && wait == AppendingStream(i)
      ensures activeStream == old(pendingFd) && appended == old(appended) + [size]
    {
      PassDescriptor();
      RecordFile(size);
      wait := AppendingStream(i);
    }

    /** After `afterOpen`: an empty file is closed at once, any other becomes the active stream. */
    method HandOver(i: nat, size: nat)
      requires Valid() && wait == AfterOpen(i, size)
      modifies this
      ensures Valid() && !wait.Looping? && |closes| == |old(closes)| && settled == old(settled)
              && streamedBytes == old(streamedBytes)
      ensures old(outcomes) <= outcomes
      ensures old(settled) ==> wait.Done? && appended == old(appended) && closes == old(closes)
      ensures !old(settled) ==> appended == old(appended) + [size]
      ensures !old(settled) && size == 0 ==>
        wait == AppendingEmpty(i) && closes == old(closes)[old(pendingFd).value := 1]
      ensures !old(settled) && size > 0 ==>
        wait == AppendingStream(i) && closes == old(closes) && activeStream == old(pendingFd)
      ensures !ActiveClosed() || wait.Done?
    {
      if cancelled || settled {
        wait := Done;
      } else if size == 0 {
        HandEmpty(i);
      } else {
        HandStream(i, size);
      }
    }

    // -------------------------------------------------------------- where the loop resumes

    method ResumeBeforeEntry(fails: bool, open: OpenAnswer, pathFails: bool)
      requires Valid() && wait.BeforeEntry?
      modifies this
      ensures Valid() && !wait.Looping?
      ensures old(outcomes) <= outcomes
      ensures fails || old(settled) ==> settled && wait.Done? && closes == old(closes)
      ensures !fails ==>
        wait == EnteredWait(old(wait).i, members, options, old(settled), old(streamedBytes), open, pathFails)
      ensures View() == Resumed(old(View()), members, options, fails, false, open, pathFails)
    {
      if fails {
        Throw();
      } else {
        EnterMember(wait.i, open, pathFails);
      }
    }

    method ResumeAfterOpen(fails: bool)
      requires Valid() && wait.AfterOpen?
      modifies this
      ensures Valid() && !wait.Looping?
      ensures old(outcomes) <= outcomes
      ensures fails ==> settled && wait.Done?
      ensures !fails ==> wait == if old(settled) then Done else if old(wait).size == 0 then AppendingEmpty(old(wait).i)
                                 else AppendingStream(old(wait).i)
      ensures View() == Resumed(old(View()), members, options, fails, false, Refused, false)
    {
      if fails {
        ThrowWithFile();
      } else {
        HandOver(wait.i, wait.size);
      }
    }

    /** Member `i` is done with: the loop goes on with the next one. */
    method GoOn(i: nat, open: OpenAnswer, pathFails: bool)
      requires Valid() && i < |members|
      requires wait == AppendingFolder(i) || wait == AppendingEmpty(i) || (wait == AwaitingClose(i) && ActiveClosed())
      modifies this
      ensures Valid() && !wait.Looping? && old(outcomes) <= outcomes
      ensures View() == Landed(HeadWait(i + 1, members, options, old(settled), old(streamedBytes), open, pathFails),
                               old(View()).outcome, old(streamedBytes), |old(closes)|, open)
    {
      activeStream, wait := None, Looping;
      NextMember(i + 1, open, pathFails);
    }

    /** A folder or an empty file was taken by the archive. */
    method ResumeAppend(fails: bool, open: OpenAnswer, pathFails: bool)
      requires Valid() && (wait.AppendingFolder? || wait.AppendingEmpty?)
      modifies this
      ensures Valid() && !wait.Looping?
      ensures old(outcomes) <= outcomes
      ensures fails ==> settled && wait.Done?
      ensures View() == Resumed(old(View()), members, options, fails, false, open, pathFails)
    {
      if fails {
        Throw();
      } else {
        var i := wait.i;
        ResumedHead(View(), i, members, options, false, false, open, pathFails);
        GoOn(i, open, pathFails);
      }
    }

    method ResumeStream(fails: bool)
      requires Valid() && wait.AppendingStream?
      modifies this
      ensures Valid()
      ensures old(outcomes) <= outcomes
      ensures fails ==> settled && wait.Done?
      ensures !fails ==> wait == AwaitingClose(old(wait).i) && closes == old(closes)
      ensures View() == Resumed(old(View()), members, options, fails, false, Refused, false)
    {
      if fails {
        ThrowWithFile();
      } else {
        wait := AwaitingClose(wait.i);
      }
    }

    /** The stream's own close fired: only then may the next file be opened. */
    method ResumeClose(bytesMatch: bool, open: OpenAnswer, pathFails: bool)
      requires Valid() && wait.AwaitingClose?
      requires streams[activeStream.value].Closed?
      modifies this
      ensures Valid() && !wait.Looping?
      ensures old(outcomes) <= outcomes
      ensures !bytesMatch ==> settled && wait.Done?
      ensures View() == Resumed(old(View()), members, options, false, bytesMatch, open, pathFails)
    {
      if !bytesMatch {
        ThrowWithFile();
      } else {
        var i := wait.i;
        ResumedHead(View(), i, members, options, false, true, open, pathFails);
        GoOn(i, open, pathFails);
      }
    }

    method ResumeFinalize(fails: bool)
      requires Valid() && wait.Finalizing?
      modifies this
      ensures Valid() && wait.Done?
      ensures old(outcomes) <= outcomes
      ensures if fails then settled else settled == old(settled) && outcomes == old(outcomes)
      ensures View() == Resumed(old(View()), members, options, fails, false, Refused, false)
    {
      if fails {
        Throw();
      } else {
        wait := Done;
      }
    }

    // -------------------------------------------------------------- every interleaving

    /** The call itself: nothing starts when the destination is already gone. */
    method Start(destinationGone: bool, open: OpenAnswer, pathFails: bool)
      requires Valid() && wait.Looping? && closes == [] && !settled && handed == 0 && !finalizeCalled
               && streamedBytes == 0
      modifies this
      ensures Valid() && !wait.Looping?
      ensures !destinationGone ==> wait == HeadWait(0, members, options, false, old(streamedBytes), open, pathFails)
      ensures old(outcomes) <= outcomes
      ensures destinationGone ==> settled && outcomes == [Resolved] && wait.Done? && closes == []
      ensures View() == Begin(members, options, destinationGone, open, pathFails)
    {
      if destinationGone {
        OnDestinationClose();
        wait := Done;
      } else {
        NextMember(0, open, pathFails);
      }
    }

    /** The loop goes on from where it waits; it waits for a stream's close until that has fired. */
    method Resume(fails: bool, bytesMatch: bool, open: OpenAnswer, pathFails: bool)
      requires Valid() && !wait.Looping?
      modifies this
      ensures Valid() && !wait.Looping?
      ensures old(outcomes) <= outcomes
      ensures View() == Resumed(old(View()), members, options, fails, bytesMatch, open, pathFails)
    {
      ResumedIgnores(View(), members, options, fails, bytesMatch, open, pathFails);
      match wait {
        case BeforeEntry(_) => ResumeBeforeEntry(fails, open, pathFails);
        case AfterOpen(_, _) => ResumeAfterOpen(fails);
        case AppendingFolder(_) => ResumeAppend(fails, open, pathFails);
        case AppendingEmpty(_) => ResumeAppend(fails, open, pathFails);
        case AppendingStream(_) => ResumeStream(fails);
        case AwaitingClose(_) => if streams[activeStream.value].Closed? { ResumeClose(bytesMatch, open, pathFails); }
        case Finalizing => ResumeFinalize(fails);
        case Done =>
      }
    }

    /** One event, in whatever order events come; an event that cannot happen now does nothing. */
    method Deliver(event: Event)
      requires Valid() && !wait.Looping?
      modifies this
      ensures Valid() && !wait.Looping?
      ensures old(outcomes) <= outcomes
      ensures View() == Step(old(View()), event, members, options)
    {
      match event {
        case ArchiveError => OnArchiveError();
        case ArchiveEnd => if finalizeCalled || settled { OnArchiveEnd(); }
        case DestinationClose => OnDestinationClose();
        case DestinationError => OnDestinationError();
        case StreamError(fd) => if fd in streams && streams[fd].Reading? { OnStreamError(fd); }
        case StreamClose(fd) => if fd in streams && !streams[fd].Closed? { OnStreamClose(fd); }
        case Resumes(fails, bytesMatch, open, pathFails) => Resume(fails, bytesMatch, open, pathFails);
      }
    }

    /** A run of events, one after the other. */
    method DeliverAll(events: seq<Event>)
      requires Valid() && !wait.Looping?
      modifies this
      ensures Valid() && !wait.Looping?
      ensures View() == Play(old(View()), events, members, options)
    {
      for i := 0 to |events|
        invariant Valid() && !wait.Looping?
        invariant View() == Play(old(View()), events[..i], members, options)
      {
        assert events[..i + 1][..i] == events[..i];
        Deliver(events[i]);
      }
      assert events[..|events|] == events;
    }
  }

  datatype Event =
    | ArchiveError
    | ArchiveEnd
    | DestinationClose
    | DestinationError
    | StreamError(fd: Fd)
    | StreamClose(fd: Fd)
    | Resumes(fails: bool, bytesMatch: bool, open: OpenAnswer, pathFails: bool)

  /** Any run of events plays exactly as the pure machine says; and whatever happens, the promise
      settles at most once and does with the first settling event, at most one descriptor is open, none
      was closed twice, a promise that resolves without a cancellation saw every member handed over,
      and when the promise is settled or the loop is over and the destroyed streams have closed,
      every descriptor was closed exactly once. */
  method RunArchive(members: seq<Member>, options: Options, destinationGone: bool, first: OpenAnswer, pathFails: bool,
                    events: seq<Event>) returns (s: ArchiveStream)
    ensures s.Valid() && |s.outcomes| <= 1
    ensures s.View() == Play(Begin(members, options, destinationGone, first, pathFails), events, members, options)
    ensures destinationGone || (exists i :: 0 <= i < |events| && Settles(events[i])) ==> s.settled
    ensures forall a, b :: s.IsOpen(a) && s.IsOpen(b) ==> a == b
    ensures forall fd :: 0 <= fd < |s.closes| ==> s.closes[fd] <= 1
    ensures (s.settled || s.wait.Done?) && (forall fd :: fd in s.streams ==> !s.streams[fd].Destroyed?)
            ==> forall fd :: 0 <= fd < |s.closes| ==> s.closes[fd] == 1
    ensures s.outcomes == [Resolved] && !s.cancelled ==> s.handed == |members|
    ensures s.handed <= |members| && |s.appended| == |s.answers|
    ensures options.enforceMetadataSize ==> s.appended == FileSizes(members[..s.handed])
    ensures forall k :: 0 <= k < |s.appended| ==> s.answers[k] == Opened(true, s.appended[k])
    ensures forall k :: 0 <= k < s.handed && !members[k].isFolder ==> members[k].hasStoragePath
    ensures options.maxTotalBytes.Some? ==> Sum(s.appended) <= options.maxTotalBytes.value
    ensures options.maxFileBytes.Some? ==> forall n :: n in s.appended ==> n <= options.maxFileBytes.value
  {
    s := new ArchiveStream(members, options);
    ghost var start := Begin(members, options, destinationGone, first, pathFails);
    s.Start(destinationGone, first, pathFails);
    s.DeliverAll(events);
    if destinationGone || exists i :: 0 <= i < |events| && Settles(events[i]) {
      PlaySettles(start, events, members, options);
    }
    s.OneDescriptor();
    PromisedMeans(members, s.handed, s.appended, s.answers, options);
  }

  /** The size and the running total pass the checks made after opening a file. */
  predicate Admits(options: Options, size: nat, total: nat) {
    && (options.maxFileBytes.Some? ==> size <= options.maxFileBytes.value)
    && (options.maxTotalBytes.Some? ==> total <= options.maxTotalBytes.value)
  }

  /** Every file and their total respect the limits, and nothing was handed over uncounted. */
  ghost predicate Within(appended: seq<nat>, options: Options, counted: int) {
    && Sum(appended) <= counted
    && (options.maxFileBytes.Some? ==> forall n :: n in appended ==> n <= options.maxFileBytes.value)
    && (options.maxTotalBytes.Some? ==> Sum(appended) <= options.maxTotalBytes.value)
  }
}

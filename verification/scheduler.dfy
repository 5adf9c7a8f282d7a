/** Alert deduplication: a delivery is remembered only after it was confirmed, and the memory is
    replaced atomically on disk. Runs may fail to deliver, fail to save, or die in between. */
module Schedulers {
  import opened Bytes

  datatype Entry = Entry(reason: string, sentAt: real)

  type Alerts = map<string, Entry>

  datatype Event = Failure | Repeat | Recovery

  const OK := "ok"

  /** What happened, in order. A delivery is committed when the file that remembers it was replaced; a
      post that was only heard reached the receiver without a confirmation coming back. */
  datatype Log =
    | Heard(key: string, event: Event, reason: string, at: real)
    | Delivered(key: string, event: Event, reason: string, at: real, committed: bool)
    | Suppressed(key: string, reason: string, at: real)

  function Get(alerts: Alerts, key: string): Option<Entry> {
    if key in alerts then Some(alerts[key]) else None
  }

  /** The memory a delivery leaves. */
  function Remember(alerts: Alerts, key: string, reason: string, at: real): Alerts {
    if reason == OK then alerts - {key} else alerts[key := Entry(reason, at)]
  }

  /** The memory that the committed deliveries of a log add up to. */
  function Fold(log: seq<Log>): Alerts {
    if log == [] then map[]
    else
      var n := |log| - 1;
      match log[n]
      case Delivered(key, _, reason, at, true) => Remember(Fold(log[..n]), key, reason, at)
      case _ => Fold(log[..n])
  }

  /** The one event that may be delivered for a key in a given memory. */
  predicate Fits(was: Option<Entry>, event: Event, reason: string, at: real, cooldown: real) {
    match event
    case Recovery => reason == OK && was.Some?
    case Repeat => reason != OK && was.Some? && was.value.reason == reason && at - was.value.sentAt >= cooldown
    case Failure => reason != OK && (was.Some? ==> was.value.reason != reason)
  }

  /** A log entry that the memory before it explains. */
  predicate Explained(before: Alerts, entry: Log, cooldown: real) {
    match entry
    case Heard(key, event, reason, at) => Fits(Get(before, key), event, reason, at, cooldown)
    case Delivered(key, event, reason, at, _) => Fits(Get(before, key), event, reason, at, cooldown)
    case Suppressed(key, reason, at) =>
      key in before && before[key].reason == reason && at - before[key].sentAt < cooldown
  }

  ghost predicate AllExplained(log: seq<Log>, cooldown: real) {
    forall i :: 0 <= i < |log| ==> ExplainedAt(log, i, cooldown)
  }

  /** Entry `i` fits the memory of what was committed before it. */
  ghost predicate ExplainedAt(log: seq<Log>, i: int, cooldown: real)
    requires 0 <= i < |log|
  {
    Explained(Fold(log[..i]), log[i], cooldown)
  }

  lemma LogGrows(log: seq<Log>, entry: Log, cooldown: real)
    requires AllExplained(log, cooldown) && Explained(Fold(log), entry, cooldown)
    ensures AllExplained(log + [entry], cooldown)
    ensures Fold(log + [entry]) ==
            if entry.Delivered? && entry.committed then Remember(Fold(log), entry.key, entry.reason, entry.at)
            else Fold(log)
  {
    var longer := log + [entry];
    assert longer[..|log|] == log;
    forall i | 0 <= i < |longer| ensures ExplainedAt(longer, i, cooldown) {
      if i < |log| { assert longer[..i] == log[..i] && longer[i] == log[i] && ExplainedAt(log, i, cooldown); }
    }
  }

  // ---------------------------------------------------------------- suppression

  predicate CommittedFor(entry: Log, key: string) {
    entry.Delivered? && entry.key == key && entry.committed
  }

  /** A remembered alert is the last committed delivery for its key. */
  lemma {:induction false} MemoryIsLastDelivery(log: seq<Log>, key: string) returns (j: nat)
    requires key in Fold(log)
    ensures j < |log| && CommittedFor(log[j], key)
    ensures log[j].reason == Fold(log)[key].reason && log[j].at == Fold(log)[key].sentAt
    ensures forall k :: j < k < |log| ==> !CommittedFor(log[k], key)
    decreases |log|
  {
    var n := |log| - 1;
    if CommittedFor(log[n], key) {
      j := n;
    } else {
      j := MemoryIsLastDelivery(log[..n], key);
      forall k | j < k < |log| ensures !CommittedFor(log[k], key) {
        if k < n { assert log[..n][k] == log[k]; }
      }
    }
  }

  /** An alert is suppressed only if the last committed delivery for its key had the same reason
      and is less than the cooldown old. */
  lemma SuppressedOnlyAfterDelivery(log: seq<Log>, cooldown: real, i: nat) returns (j: nat)
    requires AllExplained(log, cooldown) && i < |log| && log[i].Suppressed?
    ensures j < i && CommittedFor(log[j], log[i].key)
    ensures log[j].reason == log[i].reason && log[i].at - log[j].at < cooldown
    ensures forall k :: j < k < i ==> !CommittedFor(log[k], log[i].key)
  {
    var before := log[..i];
    assert ExplainedAt(log, i, cooldown);
    j := MemoryIsLastDelivery(before, log[i].key);
    forall k | j < k < i ensures !CommittedFor(log[k], log[i].key) {
      assert before[k] == log[k];
    }
  }

  // ---------------------------------------------------------------- what a receiver reads

  function DeliveriesOf(log: seq<Log>, key: string): seq<Log> {
    if log == [] then []
    else
      var n := |log| - 1;
      DeliveriesOf(log[..n], key) + (if log[n].Delivered? && log[n].key == key then [log[n]] else [])
  }

  /** `d[i]` may follow what precedes it. */
  predicate Follows(d: seq<Log>, i: nat, cooldown: real)
    requires i < |d| && forall k :: 0 <= k < |d| ==> d[k].Delivered?
  {
    var open := i > 0 && !d[i - 1].event.Recovery?;
    match d[i].event
    case Failure => d[i].reason != OK && (open ==> d[i].reason != d[i - 1].reason)
    case Repeat => open && d[i].reason == d[i - 1].reason != OK && d[i].at - d[i - 1].at >= cooldown
    case Recovery => open && d[i].reason == OK
  }

  /** One key's deliveries: failure (failure | repeat)* recovery, over and over; a repeat has its
      predecessor's reason and keeps the cooldown, a failure after an alert has another reason. */
  ghost predicate Reads(d: seq<Log>, cooldown: real) {
    && (forall k :: 0 <= k < |d| ==> d[k].Delivered?)
    && forall i :: 0 <= i < |d| ==> Follows(d, i, cooldown)
  }

  /** What a receiver who saw these deliveries would remember. */
  function Seen(d: seq<Log>): Option<Entry>
    requires forall k :: 0 <= k < |d| ==> d[k].Delivered?
  {
    if d == [] || d[|d| - 1].event.Recovery? then None else Some(Entry(d[|d| - 1].reason, d[|d| - 1].at))
  }

  lemma ReadsGrows(d: seq<Log>, entry: Log, cooldown: real)
    requires Reads(d, cooldown) && entry.Delivered?
    requires Fits(Seen(d), entry.event, entry.reason, entry.at, cooldown)
    ensures Reads(d + [entry], cooldown)
    ensures Seen(d + [entry]) == if entry.reason == OK then None else Some(Entry(entry.reason, entry.at))
  {
    var longer := d + [entry];
    assert forall k :: 0 <= k < |d| ==> longer[k] == d[k];
    forall i | 0 <= i < |longer| ensures Follows(longer, i, cooldown) {
      if i < |d| { assert Follows(d, i, cooldown); }
    }
  }

  ghost predicate AllCommitted(log: seq<Log>) {
    forall i :: 0 <= i < |log| && log[i].Delivered? ==> log[i].committed
  }

  lemma LogShrinks(log: seq<Log>, n: nat, cooldown: real)
    requires AllExplained(log, cooldown) && AllCommitted(log) && n <= |log|
    ensures AllExplained(log[..n], cooldown) && AllCommitted(log[..n])
  {
    var before := log[..n];
    forall i | 0 <= i < n ensures ExplainedAt(before, i, cooldown) {
      assert before[..i] == log[..i] && before[i] == log[i] && ExplainedAt(log, i, cooldown);
    }
    forall i | 0 <= i < n && before[i].Delivered? ensures before[i].committed { assert before[i] == log[i]; }
  }

  /** Without a failure between a delivery and its save, every key reads as specified, and what is
      remembered is what a receiver saw last. */
  lemma {:induction false} CommittedDeliveriesRead(log: seq<Log>, key: string, cooldown: real)
    requires AllExplained(log, cooldown) && AllCommitted(log)
    ensures Reads(DeliveriesOf(log, key), cooldown)
    ensures Get(Fold(log), key) == Seen(DeliveriesOf(log, key))
    decreases |log|
  {
    if log != [] {
      var n := |log| - 1;
      LogShrinks(log, n, cooldown);
      CommittedDeliveriesRead(log[..n], key, cooldown);
      assert ExplainedAt(log, n, cooldown);
      if log[n].Delivered? && log[n].key == key {
        ReadsGrows(DeliveriesOf(log[..n], key), log[n], cooldown);
      } else {
        assert DeliveriesOf(log, key) == DeliveriesOf(log[..n], key);
      }
    }
  }

  /** A post that was only heard could have been the next confirmed delivery of its key: that is all a
      receiver may read besides the confirmed ones. */
  lemma HeardContinues(log: seq<Log>, i: nat, cooldown: real)
    requires AllExplained(log, cooldown) && AllCommitted(log) && i < |log| && log[i].Heard?
    ensures Reads(DeliveriesOf(log[..i], log[i].key) +
                  [Delivered(log[i].key, log[i].event, log[i].reason, log[i].at, true)], cooldown)
  {
    LogShrinks(log, i, cooldown);
    CommittedDeliveriesRead(log[..i], log[i].key, cooldown);
    assert ExplainedAt(log, i, cooldown);
    ReadsGrows(DeliveriesOf(log[..i], log[i].key),
               Delivered(log[i].key, log[i].event, log[i].reason, log[i].at, true), cooldown);
  }

  // ---------------------------------------------------------------- the job

  datatype Request = Request(key: string, reason: string)

  /** The memory one request leaves when nothing goes wrong: quiet and suppressed ones leave it alone. */
  function Settle(alerts: Alerts, request: Request, at: real, cooldown: real): Alerts {
    var was := Get(alerts, request.key);
    if (request.reason == OK && was.None?)
       || (was.Some? && was.value.reason == request.reason && at - was.value.sentAt < cooldown)
    then alerts
    else Remember(alerts, request.key, request.reason, at)
  }

  function SettleAll(alerts: Alerts, requests: seq<Request>, at: real, cooldown: real): Alerts {
    if requests == [] then alerts
    else
      var last := |requests| - 1;
      Settle(SettleAll(alerts, requests[..last], at, cooldown), requests[last], at, cooldown)
  }

  /** How the end of a job turns into alert transitions. */
  datatype Job =
    | Freshness(backupStale: bool, certificateStale: bool)
    | BackupJob(reason: string, retentionWarning: bool)
    | CertificateJob(checks: bool, reason: string)

  function Requests(job: Job): seq<Request> {
    match job
    case Freshness(b, c) =>
      [Request("backup-stale", if b then "stale" else OK), Request("cert-check-stale", if c then "stale" else OK)]
    case BackupJob(reason, warning) =>
      [Request("backup", reason)] +
      (if reason == OK then [Request("backup-retention", if warning then "retention_warning" else OK)] else [])
    case CertificateJob(checks, reason) => [Request(if checks then "cert-check" else "cert-renew", reason)]
  }

  const KEYS := {"backup", "backup-retention", "backup-stale", "cert-check-stale", "cert-check", "cert-renew"}

  /** A job asks for the state of each of its keys once, only under keys the state may hold: a stale
      marker is `stale` and a fresh one `ok`; retention is asked about only after a good backup. */
  lemma JobRequests(job: Job)
    ensures var r := Requests(job);
            && (forall i :: 0 <= i < |r| ==> r[i].key in KEYS)
            && (forall i, j :: 0 <= i < j < |r| ==> r[i].key != r[j].key)
            && (job.Freshness? ==>
                  && |r| == 2 && r[0].key == "backup-stale" && r[1].key == "cert-check-stale"
                  && (r[0].reason == OK <==> !job.backupStale) && (r[1].reason == OK <==> !job.certificateStale))
            && (job.BackupJob? ==>
                  && r != [] && r[0] == Request("backup", job.reason)
                  && (if job.reason == OK then |r| == 2 && r[1].key == "backup-retention" else |r| == 1)
                  && (|r| == 2 ==> (r[1].reason == OK <==> !job.retentionWarning)))
            && (job.CertificateJob? ==>
                  |r| == 1 && r[0].key == (if job.checks then "cert-check" else "cert-renew")
                  && r[0].reason == job.reason)
  {
    assert "stale" != OK && "retention_warning" != OK by { assert "stale"[0] == 's' && "retention_warning"[0] == 'r'; }
    assert |"backup"| == 6 && |"backup-retention"| == 16;
    assert "backup-stale"[0] == 'b' && "cert-check-stale"[0] == 'c';
  }

  /** One POST: the receiver may get it without the answer being a confirmation. */
  datatype Answer = Lost | ReceivedUnconfirmed | Confirmed

  /** How saving ends: before the replacement, after it but with an error, or well. */
  datatype SaveFate = DiesBefore | DiesAfter | Saves

  datatype Outcome = Quiet | Suppression | Sent | NotDelivered | DiedUnsaved | DiedSaved

  // ---------------------------------------------------------------- what a run does

  /** The requests of a run in order, with the answers and the fate each one meets. */
  datatype Script = Script(requests: seq<Request>, now: real, answers: seq<seq<Answer>>, fates: seq<SaveFate>)

  predicate Fitting(script: Script) {
    |script.answers| == |script.fates| == |script.requests|
  }

  datatype Run = Run(job: Job, now: real, answers: seq<seq<Answer>>, fates: seq<SaveFate>)

  function ScriptOf(run: Run): Script {
    Script(Requests(run.job), run.now, run.answers, run.fates)
  }

  /** Every transition of each run has its answers and its fate. */
  predicate AllFitting(runs: seq<Run>) {
    forall i :: 0 <= i < |runs| ==> Fitting(ScriptOf(runs[i]))
  }

  /** As many answers as attempts, each time. */
  predicate Answering(script: Script, attempts: nat) {
    forall i :: 0 <= i < |script.answers| ==> |script.answers[i]| == attempts
  }

  predicate SomeConfirmed(answers: seq<Answer>) {
    exists i :: 0 <= i < |answers| && answers[i].Confirmed?
  }

  /** What becomes of one request in a given memory. */
  function Respond(state: Alerts, request: Request, now: real, answers: seq<Answer>, fate: SaveFate,
                   cooldown: real): Outcome {
    var was := Get(state, request.key);
    if request.reason == OK && was.None? then Quiet
    else if was.Some? && was.value.reason == request.reason && now - was.value.sentAt < cooldown then Suppression
    else if !SomeConfirmed(answers) then NotDelivered
    else match fate case DiesBefore => DiedUnsaved case DiesAfter => DiedSaved case Saves => Sent
  }

  function EventOf(state: Alerts, key: string, reason: string): Event {
    if reason == OK then Recovery else if key in state && state[key].reason == reason then Repeat else Failure
  }

  /** How many posts of a delivery reached the receiver before one was confirmed. */
  function HeardIn(answers: seq<Answer>): nat {
    if answers == [] || answers[0].Confirmed? then 0
    else (if answers[0].ReceivedUnconfirmed? then 1 else 0) + HeardIn(answers[1..])
  }

  /** They are the unconfirmed ones before the first confirmed answer. */
  lemma {:induction false} HeardAre(answers: seq<Answer>, confirmed: nat)
    requires confirmed <= |answers| && (confirmed < |answers| ==> answers[confirmed].Confirmed?)
    requires forall i :: 0 <= i < confirmed ==> !answers[i].Confirmed?
    ensures HeardIn(answers) == multiset(answers[..confirmed])[ReceivedUnconfirmed]
  {
    if confirmed > 0 {
      HeardAre(answers[1..], confirmed - 1);
      assert answers[..confirmed] == [answers[0]] + answers[1..][..confirmed - 1];
    }
  }

  function Times(n: nat, entry: Log): (entries: seq<Log>)
    ensures |entries| == n && forall i :: 0 <= i < n ==> entries[i] == entry
  {
    if n == 0 then [] else Times(n - 1, entry) + [entry]
  }

  /** What an outcome adds to the log. */
  function EntriesOf(state: Alerts, request: Request, now: real, answers: seq<Answer>, outcome: Outcome): seq<Log> {
    var key, reason := request.key, request.reason;
    var event := EventOf(state, key, reason);
    match outcome
    case Suppression => [Suppressed(key, reason, now)]
    case Quiet => []
    case NotDelivered => Times(HeardIn(answers), Heard(key, event, reason, now))
    case _ =>
      Times(HeardIn(answers), Heard(key, event, reason, now))
      + [Delivered(key, event, reason, now, !outcome.DiedUnsaved?)]
  }

  /** The file after an outcome. */
  function DiskAfter(state: Alerts, request: Request, now: real, outcome: Outcome): Alerts {
    if outcome.Sent? || outcome.DiedSaved? then Remember(state, request.key, request.reason, now) else state
  }

  /** The run goes on. */
  predicate Going(outcome: Outcome) {
    outcome.Quiet? || outcome.Suppression? || outcome.Sent?
  }

  predicate Readable(disk: Alerts, now: real) {
    forall key :: key in disk ==> 0.0 <= disk[key].sentAt <= now + 60.0
  }

  datatype Progress = Progress(disk: Alerts, log: seq<Log>, going: bool)

  /** A run after its first `i` requests: nothing follows the first one that does not go on. */
  function RunTo(disk: Alerts, script: Script, i: nat, cooldown: real): Progress
    requires Fitting(script) && i <= |script.requests|
  {
    if i == 0 then Progress(disk, [], true)
    else
      var p := RunTo(disk, script, i - 1, cooldown);
      if !p.going then p else Next(p, script, i - 1, cooldown)
  }

  /** One more request. */
  function Next(p: Progress, script: Script, i: nat, cooldown: real): Progress
    requires Fitting(script) && i < |script.requests|
  {
    var outcome := Respond(p.disk, script.requests[i], script.now, script.answers[i], script.fates[i], cooldown);
    Progress(DiskAfter(p.disk, script.requests[i], script.now, outcome),
             p.log + EntriesOf(p.disk, script.requests[i], script.now, script.answers[i], outcome), Going(outcome))
  }

  /** A whole run; an unreadable state ends it at once. */
  function RunOf(disk: Alerts, script: Script, cooldown: real): Progress
    requires Fitting(script)
  {
    if Readable(disk, script.now) then RunTo(disk, script, |script.requests|, cooldown) else Progress(disk, [], false)
  }

  /** A history of runs from no memory at all. */
  function Past(runs: seq<Run>, cooldown: real): Progress
    requires AllFitting(runs)
  {
    if runs == [] then Progress(map[], [], true)
    else
      var n := |runs| - 1;
      var p := Past(runs[..n], cooldown);
      var r := RunOf(p.disk, ScriptOf(runs[n]), cooldown);
      Progress(r.disk, p.log + r.log, r.going)
  }

  /** A state is refused for any time before zero or more than a minute ahead. */
  lemma ReadableMeans(disk: Alerts, now: real)
    ensures !Readable(disk, now) <==>
            exists key :: key in disk && (disk[key].sentAt < 0.0 || disk[key].sentAt > now + 60.0)
  {
  }

  lemma {:induction false} RunStops(disk: Alerts, script: Script, i: nat, j: nat, cooldown: real)
    requires Fitting(script) && i <= j <= |script.requests| && !RunTo(disk, script, i, cooldown).going
    ensures RunTo(disk, script, j, cooldown) == RunTo(disk, script, i, cooldown)
  {
    if i < j { RunStops(disk, script, i, j - 1, cooldown); }
  }

  /** A run that goes to its end has settled every request, in order. */
  lemma {:induction false} RunSettles(disk: Alerts, script: Script, i: nat, cooldown: real)
    requires Fitting(script) && i <= |script.requests| && RunTo(disk, script, i, cooldown).going
    ensures RunTo(disk, script, i, cooldown).disk == SettleAll(disk, script.requests[..i], script.now, cooldown)
  {
    if i > 0 {
      assert script.requests[..i][..i - 1] == script.requests[..i - 1];
      RunSettles(disk, script, i - 1, cooldown);
    }
  }

  /** With a confirmed answer to every request and good saves, a run goes to its end. */
  lemma {:induction false} RunGoes(disk: Alerts, script: Script, i: nat, cooldown: real)
    requires Fitting(script) && i <= |script.requests|
    requires forall k :: 0 <= k < i ==> SomeConfirmed(script.answers[k]) && script.fates[k].Saves?
    ensures RunTo(disk, script, i, cooldown).going
  {
    if i > 0 { RunGoes(disk, script, i - 1, cooldown); }
  }

  /** Nothing is to be said: all is well and nothing is remembered. */
  predicate NothingToSay(state: Alerts, request: Request) {
    request.reason == OK && request.key !in state
  }

  /** The same was said less than the cooldown ago. */
  predicate SaidRecently(state: Alerts, request: Request, at: real, cooldown: real) {
    request.key in state && state[request.key].reason == request.reason
    && at - state[request.key].sentAt < cooldown
  }

  /** Request `k` of a run was dealt with: there was nothing to say, it was suppressed as said recently, or
      it was delivered, confirmed and saved; the log has it. */
  ghost predicate DealtWith(disk: Alerts, script: Script, k: nat, log: seq<Log>, cooldown: real)
    requires Fitting(script) && k < |script.requests|
  {
    var state, request := RunTo(disk, script, k, cooldown).disk, script.requests[k];
    if NothingToSay(state, request) then true
    else if SaidRecently(state, request, script.now, cooldown) then
      Suppressed(request.key, request.reason, script.now) in log
    else
      && SomeConfirmed(script.answers[k]) && script.fates[k].Saves?
      && exists event :: Delivered(request.key, event, request.reason, script.now, true) in log
  }

  /** A run goes on exactly as long as each of its requests is dealt with. */
  lemma {:induction false} GoingMeansDealtWith(disk: Alerts, script: Script, i: nat, cooldown: real)
    requires Fitting(script) && i <= |script.requests|
    ensures RunTo(disk, script, i, cooldown).going <==>
            forall k :: 0 <= k < i ==> DealtWith(disk, script, k, RunTo(disk, script, i, cooldown).log, cooldown)
  {
    if i > 0 {
      GoingMeansDealtWith(disk, script, i - 1, cooldown);
      var p, q := RunTo(disk, script, i - 1, cooldown), RunTo(disk, script, i, cooldown);
      if p.going {
        assert p.log <= q.log;
        forall k | 0 <= k < i - 1 ensures DealtWith(disk, script, k, q.log, cooldown) {
          assert DealtWith(disk, script, k, p.log, cooldown);
          StaysDealtWith(disk, script, k, p.log, q.log, cooldown);
        }
        LastDealtWith(disk, script, i - 1, cooldown);
      } else {
        assert q == p;
      }
    }
  }

  lemma StaysDealtWith(disk: Alerts, script: Script, k: nat, log: seq<Log>, longer: seq<Log>, cooldown: real)
    requires Fitting(script) && k < |script.requests| && log <= longer
    requires DealtWith(disk, script, k, log, cooldown)
    ensures DealtWith(disk, script, k, longer, cooldown)
  {
    forall entry | entry in log ensures entry in longer {
      var n :| 0 <= n < |log| && log[n] == entry;
      assert longer[n] == entry;
    }
  }

  lemma LastDealtWith(disk: Alerts, script: Script, i: nat, cooldown: real)
    requires Fitting(script) && i < |script.requests| && RunTo(disk, script, i, cooldown).going
    ensures var q := RunTo(disk, script, i + 1, cooldown);
            q.going <==> DealtWith(disk, script, i, q.log, cooldown)
  {
    var p, q, request := RunTo(disk, script, i, cooldown), RunTo(disk, script, i + 1, cooldown), script.requests[i];
    var outcome := Respond(p.disk, request, script.now, script.answers[i], script.fates[i], cooldown);
    var entries := EntriesOf(p.disk, request, script.now, script.answers[i], outcome);
    assert q.log == p.log + entries;
    if outcome.Suppression? { assert entries[0] in q.log; }
    if outcome.Sent? { assert entries[|entries| - 1] in q.log; }
  }

  /** After a run that went to its end the file says of each of its keys what the job found: nothing when
      all is well, and the alert otherwise; other keys are as they were. */
  lemma {:induction false} RunReflects(disk: Alerts, requests: seq<Request>, at: real, cooldown: real)
    requires forall i, j :: 0 <= i < j < |requests| ==> requests[i].key != requests[j].key
    requires forall key :: key in disk ==> disk[key].reason != OK
    ensures var after := SettleAll(disk, requests, at, cooldown);
            && (forall key :: key in after ==> after[key].reason != OK)
            && (forall i :: 0 <= i < |requests| ==>
                  if requests[i].reason == OK then requests[i].key !in after
                  else requests[i].key in after && after[requests[i].key].reason == requests[i].reason)
            && forall key :: (forall i :: 0 <= i < |requests| ==> requests[i].key != key) ==>
                 Get(after, key) == Get(disk, key)
  {
    if requests != [] {
      var last := |requests| - 1;
      assert forall i :: 0 <= i < last ==> requests[..last][i] == requests[i];
      RunReflects(disk, requests[..last], at, cooldown);
    }
  }

  /** No process of the run dies between a delivery and its save. */
  predicate Reliable(script: Script) {
    forall i :: 0 <= i < |script.fates| ==> !script.fates[i].DiesBefore?
  }

  lemma CommittedConcat(a: seq<Log>, b: seq<Log>)
    requires AllCommitted(a) && AllCommitted(b)
    ensures AllCommitted(a + b)
  {
  }

  lemma {:induction false} RunCommits(disk: Alerts, script: Script, i: nat, cooldown: real)
    requires Fitting(script) && i <= |script.requests| && Reliable(script)
    ensures AllCommitted(RunTo(disk, script, i, cooldown).log)
  {
    if i > 0 {
      RunCommits(disk, script, i - 1, cooldown);
      var p := RunTo(disk, script, i - 1, cooldown);
      var request := script.requests[i - 1];
      var outcome := Respond(p.disk, request, script.now, script.answers[i - 1], script.fates[i - 1], cooldown);
      CommittedConcat(p.log, EntriesOf(p.disk, request, script.now, script.answers[i - 1], outcome));
    }
  }

  lemma {:induction false} PastCommits(runs: seq<Run>, cooldown: real)
    requires AllFitting(runs) && forall i :: 0 <= i < |runs| ==> Reliable(ScriptOf(runs[i]))
    ensures AllCommitted(Past(runs, cooldown).log)
  {
    if runs != [] {
      var n := |runs| - 1;
      var p, script := Past(runs[..n], cooldown), ScriptOf(runs[n]);
      PastCommits(runs[..n], cooldown);
      RunCommits(p.disk, script, |script.requests|, cooldown);
      CommittedConcat(p.log, RunOf(p.disk, script, cooldown).log);
    }
  }

  /** The file holds exactly what the committed deliveries add up to, and never an `ok`. */
  ghost predicate Sound(log: seq<Log>, disk: Alerts, cooldown: real) {
    disk == Fold(log) && AllExplained(log, cooldown) && forall key :: key in disk ==> disk[key].reason != OK
  }

  lemma HeardSound(log: seq<Log>, disk: Alerts, entry: Log, cooldown: real)
    requires Sound(log, disk, cooldown) && !entry.Delivered? && Explained(disk, entry, cooldown)
    ensures Sound(log + [entry], disk, cooldown)
  {
    LogGrows(log, entry, cooldown);
  }

  lemma TimesMore(log: seq<Log>, n: nat, entry: Log)
    ensures log + Times(0, entry) == log
    ensures log + Times(n + 1, entry) == log + Times(n, entry) + [entry]
  {
  }

  lemma {:induction false} TimesSound(log: seq<Log>, disk: Alerts, entry: Log, n: nat, cooldown: real)
    requires Sound(log, disk, cooldown) && !entry.Delivered? && Explained(disk, entry, cooldown)
    ensures Sound(log + Times(n, entry), disk, cooldown)
  {
    if n == 0 {
      TimesMore(log, 0, entry);
    } else {
      TimesSound(log, disk, entry, n - 1, cooldown);
      TimesMore(log, n - 1, entry);
      HeardSound(log + Times(n - 1, entry), disk, entry, cooldown);
    }
  }

  /** What is posted at all is what the memory calls for. */
  lemma EventFits(state: Alerts, request: Request, now: real, cooldown: real)
    requires forall key :: key in state ==> state[key].reason != OK
    requires !(request.reason == OK && request.key !in state)
    requires request.key in state && state[request.key].reason == request.reason ==>
               now - state[request.key].sentAt >= cooldown
    ensures Fits(Get(state, request.key), EventOf(state, request.key, request.reason), request.reason, now, cooldown)
  {
  }

  lemma DeliveredSound(log: seq<Log>, disk: Alerts, entry: Log, cooldown: real)
    requires Sound(log, disk, cooldown) && entry.Delivered? && Explained(disk, entry, cooldown)
    ensures var after := if entry.committed then Remember(disk, entry.key, entry.reason, entry.at) else disk;
            Sound(log + [entry], after, cooldown)
  {
    LogGrows(log, entry, cooldown);
  }

  /** Whatever becomes of a request, the log stays explained and the file stays its memory. */
  lemma RespondSound(log: seq<Log>, disk: Alerts, request: Request, now: real, answers: seq<Answer>, fate: SaveFate,
                     cooldown: real)
    requires Sound(log, disk, cooldown)
    ensures var o := Respond(disk, request, now, answers, fate, cooldown);
            Sound(log + EntriesOf(disk, request, now, answers, o), DiskAfter(disk, request, now, o), cooldown)
  {
    var o := Respond(disk, request, now, answers, fate, cooldown);
    var key, reason := request.key, request.reason;
    if o.Quiet? {
      assert log + [] == log;
    } else if o.Suppression? {
      LogGrows(log, Suppressed(key, reason, now), cooldown);
    } else {
      EventFits(disk, request, now, cooldown);
      PostsSound(log, disk, request, now, answers, o, cooldown);
    }
  }

  lemma PostsSound(log: seq<Log>, disk: Alerts, request: Request, now: real, answers: seq<Answer>, o: Outcome,
                   cooldown: real)
    requires Sound(log, disk, cooldown) && !o.Quiet? && !o.Suppression?
    requires Fits(Get(disk, request.key), EventOf(disk, request.key, request.reason), request.reason, now, cooldown)
    ensures Sound(log + EntriesOf(disk, request, now, answers, o), DiskAfter(disk, request, now, o), cooldown)
  {
    var key, reason := request.key, request.reason;
    var event := EventOf(disk, key, reason);
    var posts := Times(HeardIn(answers), Heard(key, event, reason, now));
    TimesSound(log, disk, Heard(key, event, reason, now), HeardIn(answers), cooldown);
    if !o.NotDelivered? {
      var entry := Delivered(key, event, reason, now, !o.DiedUnsaved?);
      DeliveredSound(log + posts, disk, entry, cooldown);
      assert log + (posts + [entry]) == log + posts + [entry];
    }
  }

  /** The file, the log since `before` and whether the run goes on are those of `p`. */
  ghost predicate Stands(p: Progress, disk: Alerts, log: seq<Log>, before: seq<Log>, going: bool) {
    disk == p.disk && log == before + p.log && going == p.going
  }

  /** The bounded retry: confirmed at the first confirmed attempt, failed after the last one. */
  method Deliver(attempts: nat, answers: seq<Answer>) returns (ok: bool, posted: nat, heard: nat)
    requires |answers| == attempts
    ensures ok <==> SomeConfirmed(answers)
    ensures ok ==> 0 < posted <= attempts && answers[posted - 1].Confirmed?
    ensures ok ==> forall i :: 0 <= i < posted - 1 ==> !answers[i].Confirmed?
    ensures !ok ==> posted == attempts
    ensures heard == HeardIn(answers)
  {
    heard := 0;
    assert answers[0..] == answers;
    for attempt := 0 to attempts
      invariant forall i :: 0 <= i < attempt ==> !answers[i].Confirmed?
      invariant heard + HeardIn(answers[attempt..]) == HeardIn(answers)
    {
      assert answers[attempt..][1..] == answers[attempt + 1..];
      if answers[attempt].Confirmed? { return true, attempt + 1, heard; }
      if answers[attempt].ReceivedUnconfirmed? { heard := heard + 1; }
    }
    return false, attempts, heard;
  }

  class Scheduler {
    const cooldown: real
    const attempts: nat
    var disk: Alerts
    ghost var log: seq<Log>

    constructor (cooldown: real, attempts: nat)
      ensures this.cooldown == cooldown && this.attempts == attempts && disk == map[] && log == [] && Valid()
    {
      this.cooldown, this.attempts, disk, log := cooldown, attempts, map[], [];
    }

    ghost predicate Valid()
      reads this
    {
      Sound(log, disk, cooldown)
    }

    /** One alert transition on the state read at the start of the run. */
    method Transition(state: Alerts, request: Request, now: real, answers: seq<Answer>, fate: SaveFate)
      returns (next: Alerts, outcome: Outcome)
      requires Valid() && state == disk && |answers| == attempts
      modifies this
      ensures Valid()
      ensures outcome == Respond(state, request, now, answers, fate, cooldown)
      ensures log == old(log) + EntriesOf(state, request, now, answers, outcome)
      ensures disk == DiskAfter(state, request, now, outcome)
      ensures Going(outcome) ==> next == disk
    {
      RespondSound(log, disk, request, now, answers, fate, cooldown);
      var key, reason := request.key, request.reason;
      next := state;
      if reason == OK && key !in state { return next, Quiet; }
      if key in state && reason == state[key].reason && now - state[key].sentAt < cooldown {
        log := log + [Suppressed(key, reason, now)];
        return next, Suppression;
      }
      var ok, posted, heard := Deliver(attempts, answers);
      ghost var posts := Times(heard, Heard(key, EventOf(state, key, reason), reason, now));
      if !ok {
        log := log + posts;
        return next, NotDelivered;
      }
      next := if reason == OK then state - {key} else state[key := Entry(reason, now)];
      log := log + (posts + [Delivered(key, EventOf(state, key, reason), reason, now, !fate.DiesBefore?)]);
      if fate.DiesBefore? { return next, DiedUnsaved; }
      disk := next;
      outcome := if fate.DiesAfter? then DiedSaved else Sent;
    }

    /** Reads the file, and refuses one with a time before zero or too far in the future. */
    method ReadState(now: real) returns (r: Result<Alerts>)
      ensures r == if Readable(disk, now) then Ok(disk) else Err
    {
      if exists key :: key in disk && (disk[key].sentAt < 0.0 || disk[key].sentAt > now + 60.0) {
        return Err;
      }
      return Ok(disk);
    }

    /** One request of a run; `before` and `p` are the log and the progress so far. */
    method Turn(state: Alerts, script: Script, i: nat, ghost before: seq<Log>, ghost p: Progress)
      returns (next: Alerts, going: bool)
      requires Valid() && Fitting(script) && i < |script.requests| && |script.answers[i]| == attempts
      requires state == disk == p.disk && log == before + p.log
      modifies this
      ensures Valid() && (going ==> next == disk)
      ensures var q := Next(p, script, i, cooldown); log == before + q.log && disk == q.disk && going == q.going
    {
      var outcome;
      next, outcome := Transition(state, script.requests[i], script.now, script.answers[i], script.fates[i]);
      going := Going(outcome);
    }

    /** One request of a run that has come to its place `i` from the memory `was` and the log `before`. */
    method RunOne(state: Alerts, script: Script, i: nat, ghost was: Alerts, ghost before: seq<Log>)
      returns (next: Alerts, going: bool)
      requires Valid() && Fitting(script) && i < |script.requests| && |script.answers[i]| == attempts
      requires state == disk && Stands(RunTo(was, script, i, cooldown), disk, log, before, true)
      modifies this
      ensures Valid() && (going ==> next == disk)
      ensures Stands(RunTo(was, script, i + 1, cooldown), disk, log, before, going)
    {
      next, going := Turn(state, script, i, before, RunTo(was, script, i, cooldown));
    }

    /** Transitions in order, stopping at the first failure. */
    method RunScript(script: Script) returns (done: bool)
      requires Valid() && Fitting(script) && Answering(script, attempts)
      modifies this
      ensures Valid()
      ensures Stands(RunTo(old(disk), script, |script.requests|, cooldown), disk, log, old(log), done)
    {
      ghost var was, before := disk, log;
      var state := disk;
      for i := 0 to |script.requests|
        invariant Valid() && state == disk && Stands(RunTo(was, script, i, cooldown), disk, log, before, true)
      {
        var going;
        state, going := RunOne(state, script, i, was, before);
        if !going {
          RunStops(was, script, i + 1, |script.requests|, cooldown);
          return false;
        }
      }
      return true;
    }

    /** The alert part of one run. */
    method RunJob(run: Run) returns (done: bool)
      requires Valid() && Fitting(ScriptOf(run)) && Answering(ScriptOf(run), attempts)
      modifies this
      ensures Valid()
      ensures Stands(RunOf(old(disk), ScriptOf(run), cooldown), disk, log, old(log), done)
    {
      var read := ReadState(run.now);
      if read.Err? { return false; }
      done := RunScript(ScriptOf(run));
    }
  }

  /** Any history of runs from an empty state does exactly what its runs say; every suppression in it
      follows a committed delivery of the same key and reason less than the cooldown old; and when
      no run died between a delivery and its save, every key's deliveries read as specified. */
  method History(cooldown: real, attempts: nat, runs: seq<Run>) returns (s: Scheduler)
    requires AllFitting(runs) && forall i :: 0 <= i < |runs| ==> Answering(ScriptOf(runs[i]), attempts)
    ensures s.Valid() && s.cooldown == cooldown
    ensures var p := Past(runs, cooldown); s.log == p.log && s.disk == p.disk
    ensures forall i :: 0 <= i < |s.log| && s.log[i].Suppressed? ==> Remembered(s.log, i, cooldown)
    ensures (forall i :: 0 <= i < |runs| ==> Reliable(ScriptOf(runs[i]))) ==>
              AllCommitted(s.log) && forall key :: Reads(DeliveriesOf(s.log, key), cooldown)
  {
    s := new Scheduler(cooldown, attempts);
    for i := 0 to |runs|
      invariant s.Valid() && s.cooldown == cooldown && s.attempts == attempts && fresh(s)
      invariant var p := Past(runs[..i], cooldown); s.log == p.log && s.disk == p.disk
    {
      assert runs[..i + 1][..i] == runs[..i];
      var _ := s.RunJob(runs[i]);
    }
    assert runs[..|runs|] == runs;
    SuppressionsRemembered(s.log, cooldown);
    if forall i :: 0 <= i < |runs| ==> Reliable(ScriptOf(runs[i])) {
      PastCommits(runs, cooldown);
      forall key ensures Reads(DeliveriesOf(s.log, key), cooldown) { CommittedDeliveriesRead(s.log, key, cooldown); }
    }
  }

  lemma SuppressionsRemembered(log: seq<Log>, cooldown: real)
    requires AllExplained(log, cooldown)
    ensures forall i :: 0 <= i < |log| && log[i].Suppressed? ==> Remembered(log, i, cooldown)
  {
    forall i | 0 <= i < |log| && log[i].Suppressed? ensures Remembered(log, i, cooldown) {
      var j := SuppressedOnlyAfterDelivery(log, cooldown, i);
    }
  }

  /** A committed delivery of the same key and reason, less than the cooldown old, precedes entry `i`. */
  ghost predicate Remembered(log: seq<Log>, i: nat, cooldown: real)
    requires i < |log|
  {
    exists j :: 0 <= j < i && CommittedFor(log[j], log[i].key) && log[j].reason == log[i].reason
                && log[i].at - log[j].at < cooldown
  }
}

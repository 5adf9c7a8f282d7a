/** Histories of backup runs over two target directories, each run dying anywhere or not at all. */
module BackupHistories {
  import opened BackupStores
  import opened Bytes
  import opened Sizes

  /** The directory of one side before the first run and after each run. */
  ghost predicate Runs(states: seq<Entries>, runs: seq<Run>, count: nat) {
    |states| == |runs| + 1 && forall i :: 0 <= i < |runs| ==> SideStep(states[i], states[i + 1], runs[i], count)
  }

  /** How many of the runs brought their generation to this side. */
  function Arrivals(states: seq<Entries>, runs: seq<Run>): nat
    requires |states| == |runs| + 1
  {
    if runs == [] then 0
    else
      var n := |runs| - 1;
      Arrivals(states[..n + 1], runs[..n]) + if Arrived(states[n], states[n + 1], runs[n]) then 1 else 0
  }

  /** One run keeps the count, and its arrival adds to it. */
  lemma StepKeepsCount(before: Entries, after: Entries, run: Run, count: nat)
    requires SideStep(before, after, run, count)
    ensures |ValidNames(after)| >= Min(count, |ValidNames(before)| + if Arrived(before, after, run) then 1 else 0)
  {
    if SameGenerations(before, after) {
      SameGenerationsSameValid(before, after);
    } else {
      var middle :| Published(before, middle, run.name, run.source)
                    && Retained(middle, after, count, run.cutoff, Some(run.name));
      PublishedValid(before, middle, run.name, run.source);
      CountKept(middle, after, count, run.cutoff, Some(run.name));
    }
  }

  lemma PublishedValid(was: Entries, now: Entries, name: string, source: Node)
    requires Published(was, now, name, source)
    ensures ValidNames(now) == ValidNames(was) + {name} && name !in ValidNames(was)
  {
    forall n ensures n in ValidNames(now) <==> n in ValidNames(was) || n == name {
      if IsGenerationName(n) { }
    }
  }

  /** However the runs went, the smaller of the retention count and everything there was or arrived
      is there to be discovered. */
  lemma {:induction false} EnoughLeft(states: seq<Entries>, runs: seq<Run>, count: nat)
    requires Runs(states, runs, count)
    ensures |ValidNames(states[|runs|])| >= Min(count, |ValidNames(states[0])| + Arrivals(states, runs))
    decreases |runs|
  {
    if runs != [] {
      var n := |runs| - 1;
      EnoughLeft(states[..n + 1], runs[..n], count);
      assert states[..n + 1][n] == states[n];
      StepKeepsCount(states[n], states[n + 1], runs[n], count);
      MinGrows(|ValidNames(states[n])|, |ValidNames(states[0])| + Arrivals(states[..n + 1], runs[..n]),
               if Arrived(states[n], states[n + 1], runs[n]) then 1 else 0, count);
    }
  }

  lemma MinGrows(a: nat, b: nat, more: nat, count: nat)
    requires a >= Min(count, b)
    ensures Min(count, a + more) >= Min(count, b + more)
  {
  }

  /** The run hid this generation, as one that was surplus right after its own was published. */
  ghost predicate HiddenBy(before: Entries, after: Entries, run: Run, name: string, count: nat) {
    name in before && name !in after &&
    exists middle :: Published(before, middle, run.name, run.source)
                     && Surplus(name, middle, count, run.cutoff, Some(run.name))
  }

  /** What run `i` brought is what its source was, and is still there, unchanged, unless a later run
      hid it as surplus. */
  ghost predicate Kept(states: seq<Entries>, runs: seq<Run>, count: nat, i: nat)
    requires |states| == |runs| + 1 && i < |runs| && runs[i].name in states[i + 1]
  {
    var name := runs[i].name;
    && Verify(name, states[i + 1][name]) == Verify(name, runs[i].source)
    && ((name in states[|runs|] && states[|runs|][name] == states[i + 1][name])
        || HiddenSince(states, runs, name, count, i))
  }

  lemma StaysOrHiddenOnce(before: Entries, after: Entries, run: Run, name: string, count: nat)
    requires SideStep(before, after, run, count) && IsGenerationName(name) && name in before
    ensures (name in after && after[name] == before[name]) || HiddenBy(before, after, run, name, count)
  {
    if !SameGenerations(before, after) {
      var middle :| Published(before, middle, run.name, run.source)
                    && Retained(middle, after, count, run.cutoff, Some(run.name));
      assert name in middle && middle[name] == before[name];
    }
  }

  lemma ArrivedVerifies(before: Entries, after: Entries, run: Run, count: nat)
    requires SideStep(before, after, run, count) && Arrived(before, after, run)
    ensures Verify(run.name, after[run.name]) == Verify(run.name, run.source)
  {
    var middle :| Published(before, middle, run.name, run.source)
                  && Retained(middle, after, count, run.cutoff, Some(run.name));
  }

  /** Whatever a run hid on a side, at least `count` generations that are not older are there after it. */
  ghost predicate AllOutlived(before: Entries, after: Entries, count: nat) {
    forall n :: n in ValidNames(before) && n !in ValidNames(after) ==> Outlived(after, CreatedAt(n, before), count)
  }

  lemma StepOutlived(before: Entries, after: Entries, run: Run, count: nat)
    requires SideStep(before, after, run, count)
    ensures AllOutlived(before, after, count)
  {
    if SameGenerations(before, after) {
      SameGenerationsSameValid(before, after);
    } else {
      var middle :| Published(before, middle, run.name, run.source)
                    && Retained(middle, after, count, run.cutoff, Some(run.name));
      PublishedValid(before, middle, run.name, run.source);
      forall n | n in ValidNames(before) && n !in ValidNames(after)
        ensures Outlived(after, CreatedAt(n, before), count)
      {
        assert n != run.name && middle[n] == before[n];
        GoneAreOutlived(middle, after, n, count, run.cutoff, Some(run.name));
      }
    }
  }

  /** A later run hid the generation. */
  ghost predicate HiddenSince(states: seq<Entries>, runs: seq<Run>, name: string, count: nat, i: nat)
    requires |states| == |runs| + 1
  {
    exists j :: i < j < |runs| && HiddenBy(states[j], states[j + 1], runs[j], name, count)
  }

  lemma HiddenSinceMore(states: seq<Entries>, runs: seq<Run>, name: string, count: nat, i: nat, n: nat)
    requires |states| == |runs| + 1 && n < |runs| && HiddenSince(states[..n + 1], runs[..n], name, count, i)
    ensures HiddenSince(states, runs, name, count, i)
  {
    var j :| i < j < n && HiddenBy(states[..n + 1][j], states[..n + 1][j + 1], runs[..n][j], name, count);
    assert HiddenBy(states[j], states[j + 1], runs[j], name, count);
  }

  lemma KeptOneMore(states: seq<Entries>, runs: seq<Run>, count: nat, i: nat, n: nat)
    requires Runs(states, runs, count) && i < n == |runs| - 1 && Arrived(states[i], states[i + 1], runs[i])
    requires Kept(states[..n + 1], runs[..n], count, i)
    ensures Kept(states, runs, count, i)
  {
    var name := runs[i].name;
    if HiddenSince(states[..n + 1], runs[..n], name, count, i) {
      HiddenSinceMore(states, runs, name, count, i, n);
    } else {
      StaysOrHiddenOnce(states[n], states[n + 1], runs[n], name, count);
    }
  }

  lemma {:induction false} StaysOrHidden(states: seq<Entries>, runs: seq<Run>, count: nat, i: nat)
    requires Runs(states, runs, count) && i < |runs| && Arrived(states[i], states[i + 1], runs[i])
    ensures Kept(states, runs, count, i)
    decreases |runs|
  {
    var n := |runs| - 1;
    if i == n {
      ArrivedVerifies(states[i], states[i + 1], runs[i], count);
    } else {
      StaysOrHidden(states[..n + 1], runs[..n], count, i);
      KeptOneMore(states, runs, count, i, n);
    }
  }

  function Finishes(outcomes: seq<Outcome>): nat {
    if outcomes == [] then 0
    else var n := |outcomes| - 1; Finishes(outcomes[..n]) + if outcomes[n].Finished? then 1 else 0
  }

  /** A run that finished brought its generation to this side. */
  ghost predicate FinishesArrive(states: seq<Entries>, runs: seq<Run>, outcomes: seq<Outcome>) {
    |states| == |runs| + 1 == |outcomes| + 1 &&
    forall i :: 0 <= i < |runs| && outcomes[i].Finished? ==> Arrived(states[i], states[i + 1], runs[i])
  }

  lemma {:induction false} FinishesCount(states: seq<Entries>, runs: seq<Run>, outcomes: seq<Outcome>)
    requires FinishesArrive(states, runs, outcomes)
    ensures Finishes(outcomes) <= Arrivals(states, runs)
    decreases |runs|
  {
    if runs != [] {
      var n := |runs| - 1;
      FinishesCount(states[..n + 1], runs[..n], outcomes[..n]);
    }
  }

  /** One side at the end of a history: enough is left, and what arrived stays or was hidden as surplus. */
  ghost predicate SideKept(states: seq<Entries>, runs: seq<Run>, outcomes: seq<Outcome>, count: nat) {
    && Runs(states, runs, count) && FinishesArrive(states, runs, outcomes)
    && |ValidNames(states[|runs|])| >= Min(count, |ValidNames(states[0])| + Arrivals(states, runs))
    && Arrivals(states, runs) >= Finishes(outcomes)
    && (forall i :: 0 <= i < |runs| ==> AllOutlived(states[i], states[i + 1], count))
    && forall i :: 0 <= i < |runs| && Arrived(states[i], states[i + 1], runs[i]) ==> Kept(states, runs, count, i)
  }

  lemma SideIsKept(states: seq<Entries>, runs: seq<Run>, outcomes: seq<Outcome>, count: nat)
    requires Runs(states, runs, count) && FinishesArrive(states, runs, outcomes)
    ensures SideKept(states, runs, outcomes, count)
  {
    EnoughLeft(states, runs, count);
    FinishesCount(states, runs, outcomes);
    forall i | 0 <= i < |runs| ensures AllOutlived(states[i], states[i + 1], count) {
      StepOutlived(states[i], states[i + 1], runs[i], count);
    }
    forall i | 0 <= i < |runs| && Arrived(states[i], states[i + 1], runs[i]) ensures Kept(states, runs, count, i) {
      StaysOrHidden(states, runs, count, i);
    }
  }

  /** A run that nothing disturbs finishes and leaves no surplus on either side. */
  ghost predicate UndisturbedFinish(local: seq<Entries>, remote: seq<Entries>, runs: seq<Run>, outcomes: seq<Outcome>,
                                    count: nat)
    requires |local| == |remote| == |runs| + 1 == |outcomes| + 1
  {
    forall i :: 0 <= i < |runs| && Undisturbed(local[i], remote[i], runs[i]) ==>
      outcomes[i].Finished? && NoSurplusLeft(local[i + 1], remote[i + 1], runs[i], count)
  }

  ghost predicate NoSurplusLeft(local: Entries, remote: Entries, run: Run, count: nat) {
    && NothingSurplus(local, count, run.cutoff, Some(run.name))
    && NothingSurplus(remote, count, run.cutoff, Some(run.name))
  }

  /** Any history of runs, each dying after any number of actions, and so at any action boundary:
      every generation that arrived on a side verifies and stays unless a later run hid it as surplus,
      at least the smaller of the retention count and all that ever arrived is there to be discovered,
      every finished run arrived on both sides, and every undisturbed run finished. */
  method History(local: Store, remote: Store, runs: seq<Run>, count: nat, days: int)
    returns (outcomes: seq<Outcome>, ghost localStates: seq<Entries>, ghost remoteStates: seq<Entries>)
    requires local != remote
    modifies local, remote
    ensures SideKept(localStates, runs, outcomes, count) && SideKept(remoteStates, runs, outcomes, count)
    ensures localStates[0] == old(local.entries) && localStates[|runs|] == local.entries
    ensures remoteStates[0] == old(remote.entries) && remoteStates[|runs|] == remote.entries
    ensures count >= 2 && days >= 0 ==> UndisturbedFinish(localStates, remoteStates, runs, outcomes, count)
  {
    outcomes, localStates, remoteStates := [], [local.entries], [remote.entries];
    for i := 0 to |runs|
      invariant Recorded(localStates, runs[..i], outcomes, count, old(local.entries), local.entries)
      invariant Recorded(remoteStates, runs[..i], outcomes, count, old(remote.entries), remote.entries)
      invariant count >= 2 && days >= 0 ==> UndisturbedFinish(localStates, remoteStates, runs[..i], outcomes, count)
    {
      local.budget, remote.budget := runs[i].localBudget, runs[i].remoteBudget;
      var o := Backup(local, remote, runs[i], count, days);
      RecordGrows(localStates, runs, outcomes, i, old(local.entries), local.entries, o, count);
      RecordGrows(remoteStates, runs, outcomes, i, old(remote.entries), remote.entries, o, count);
      UndisturbedGrows(localStates, remoteStates, runs, outcomes, i, local.entries, remote.entries, o, count, days);
      outcomes := outcomes + [o];
      localStates, remoteStates := localStates + [local.entries], remoteStates + [remote.entries];
    }
    assert runs[..|runs|] == runs;
    SideIsKept(localStates, runs, outcomes, count);
    SideIsKept(remoteStates, runs, outcomes, count);
  }

  /** The states of one side, from its first to its last. */
  ghost predicate Recorded(states: seq<Entries>, runs: seq<Run>, outcomes: seq<Outcome>, count: nat, first: Entries,
                           last: Entries) {
    Runs(states, runs, count) && FinishesArrive(states, runs, outcomes) && states[0] == first && states[|runs|] == last
  }

  lemma RecordGrows(states: seq<Entries>, runs: seq<Run>, outcomes: seq<Outcome>, i: nat, first: Entries, next: Entries,
                    o: Outcome, count: nat)
    requires i < |runs| && |states| == i + 1 && Recorded(states, runs[..i], outcomes, count, first, states[i])
    requires SideStep(states[i], next, runs[i], count) && (o.Finished? ==> Arrived(states[i], next, runs[i]))
    ensures Recorded(states + [next], runs[..i + 1], outcomes + [o], count, first, next)
  {
  }

  lemma UndisturbedGrows(local: seq<Entries>, remote: seq<Entries>, runs: seq<Run>, outcomes: seq<Outcome>, i: nat,
                         localNext: Entries, remoteNext: Entries, o: Outcome, count: nat, days: int)
    requires i < |runs| && |local| == |remote| == i + 1 == |outcomes| + 1
    requires count >= 2 && days >= 0 ==> UndisturbedFinish(local, remote, runs[..i], outcomes, count)
    requires count >= 2 && days >= 0 && Undisturbed(local[i], remote[i], runs[i]) ==>
      o.Finished? && NoSurplusLeft(localNext, remoteNext, runs[i], count)
    ensures count >= 2 && days >= 0 ==>
      UndisturbedFinish(local + [localNext], remote + [remoteNext], runs[..i + 1], outcomes + [o], count)
  {
  }
}

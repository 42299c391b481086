/**
 The whole schema transaction: recover every target, stage the new files, swap, and clear the stages
 (src/openworkproof/agency_schema_registry.py:527-550, 747-796).
 */
module SchemaTransaction {
  import opened Collections
  import opened SchemaFiles
  import opened SchemaStates
  import opened SchemaInstall
  import opened SchemaSwap
  import opened SchemaRecovery

  datatype Staging = Staged | NotStaged | StagingStuck

  datatype Transaction =
    | Written
    | NotRecovered
    | NotSwapped
    | RollbackStuck
    | BackupsLeft
    | StagesLeft

  // ----- what every crash point keeps --------------------------------------------------------

  /** Recovery from this disk is unambiguous, and gives what it would have given before, or the new files. */
  ghost predicate Safe(before: Disk, disk: Disk, key: nat, files: Directory) {
    && Decided(disk, key)
    && (RecoveredTo(disk, key) == RecoveredTo(before, key) || RecoveredTo(disk, key) == Some(files))
  }

  ghost predicate AllSafe(before: Disk, disk: Disk, keys: seq<nat>, files: Directory) {
    forall j :: 0 <= j < |keys| ==> Safe(before, disk, keys[j], files)
  }

  ghost predicate PassesSafe(trace: seq<Disk>, from: nat, before: Disk, keys: seq<nat>, files: Directory) {
    forall i :: from <= i < |trace| ==> AllSafe(before, trace[i], keys, files)
  }

  lemma SafeCarries(before: Disk, a: Disk, b: Disk, key: nat, files: Directory)
    requires Safe(before, a, key, files) && SameFor(a, b, key)
    ensures Safe(before, b, key, files)
  {
    SameForRecovers(a, b, key);
  }

  /** A disk that differs from a safe one for one target only, and is safe for that one, is safe. */
  lemma SafeStep(before: Disk, was: Disk, now: Disk, keys: seq<nat>, key: nat, files: Directory)
    requires AllSafe(before, was, keys, files)
    requires forall k :: k != key ==> SameFor(was, now, k)
    requires Safe(before, now, key, files)
    ensures AllSafe(before, now, keys, files)
  {
    forall j | 0 <= j < |keys|
      ensures Safe(before, now, keys[j], files)
    {
      if keys[j] != key {
        SafeCarries(before, was, now, keys[j], files);
      }
    }
  }

  lemma SafeTrace(
    before: Disk, was: Disk, passed: seq<Disk>, trace: seq<Disk>, from: nat, keys: seq<nat>, key: nat, files: Directory)
    requires AllSafe(before, was, keys, files)
    requires from <= |passed| && passed <= trace && PassesSafe(passed, from, before, keys, files)
    requires forall m, k :: |passed| <= m < |trace| && k != key ==> SameFor(was, trace[m], k)
    requires forall m :: |passed| <= m < |trace| ==> Safe(before, trace[m], key, files)
    ensures PassesSafe(trace, from, before, keys, files)
  {
    forall m | from <= m < |trace|
      ensures AllSafe(before, trace[m], keys, files)
    {
      if m < |passed| {
        assert trace[m] == passed[m];
      } else {
        SafeStep(before, was, trace[m], keys, key, files);
      }
    }
  }

  // ----- recovering every target -----------------------------------------------------------------

  ghost predicate Settled(before: Disk, disk: Disk, key: nat) {
    Clean(disk, key) && Held(disk, key) == RecoveredTo(before, key)
  }

  lemma SettledCarries(before: Disk, a: Disk, b: Disk, key: nat)
    requires Settled(before, a, key) && SameFor(a, b, key)
    ensures Settled(before, b, key)
  {
    SameForRecovers(a, b, key);
    assert Target(key).key == key;
  }

  lemma StepsAreSafe(before: Disk, was: Disk, disk: Disk, key: nat, files: Directory)
    requires Safe(before, was, key, files) && RecoverySteps(was, disk, key)
    ensures Safe(before, disk, key, files)
  {
  }

  /** Recovered already, or not touched yet. */
  ghost predicate SettledOrNot(before: Disk, disk: Disk, key: nat) {
    Settled(before, disk, key) || SameFor(before, disk, key)
  }

  /** Recovery of the target is bound to complete unless a fault stops it. */
  ghost predicate CanRecover(disk: Disk, key: nat, files: Directory) {
    Decided(disk, key) && LeftoversTidy(disk, key, files.Keys)
  }

  ghost predicate AllCanRecover(disk: Disk, keys: seq<nat>, files: Directory) {
    forall j :: 0 <= j < |keys| ==> CanRecover(disk, keys[j], files)
  }

  lemma CanRecoverCarries(a: Disk, b: Disk, key: nat, files: Directory)
    requires SameFor(a, b, key)
    ensures CanRecover(a, key, files) <==> CanRecover(b, key, files)
  {
    assert Target(key).key == key;
    assert BackupsOf(a, key) == BackupsOf(b, key);
  }

  method RecoverAll(fs: FileSystem, keys: seq<nat>, files: Directory) returns (raised: bool)
    modifies fs`disk, fs`trace, fs`faults
    ensures fs.faults >= old(fs.faults)
    ensures DistinctKeys(keys) && !raised ==> AllCanRecover(old(fs.disk), keys, files)
    ensures DistinctKeys(keys) && raised ==> !AllCanRecover(old(fs.disk), keys, files) || fs.faults > old(fs.faults)
    ensures !raised ==> forall j :: 0 <= j < |keys| ==> Settled(old(fs.disk), fs.disk, keys[j])
    ensures old(fs.trace) <= fs.trace
    ensures AllSafe(old(fs.disk), old(fs.disk), keys, files) ==>
      && AllSafe(old(fs.disk), fs.disk, keys, files)
      && PassesSafe(fs.trace, |old(fs.trace)|, old(fs.disk), keys, files)
  {
    ghost var before := fs.disk;
    ghost var from := |fs.trace|;
    ghost var decided := AllSafe(before, before, keys, files);
    raised := false;
    for i := 0 to |keys|
      invariant fs.faults >= old(fs.faults)
      invariant DistinctKeys(keys) ==> forall j :: 0 <= j < i ==> CanRecover(before, keys[j], files)
      invariant DistinctKeys(keys) ==> forall j :: i <= j < |keys| ==> SameFor(before, fs.disk, keys[j])
      invariant forall j :: 0 <= j < i ==> Settled(before, fs.disk, keys[j])
      invariant forall j :: 0 <= j < |keys| ==> SettledOrNot(before, fs.disk, keys[j])
      invariant old(fs.trace) <= fs.trace
      invariant decided ==> AllSafe(before, fs.disk, keys, files)
      invariant decided ==> PassesSafe(fs.trace, from, before, keys, files)
    {
      var key := keys[i];
      ghost var was, passed := fs.disk, fs.trace;
      var outcome := RecoverTarget(fs, key, files.Keys);
      if DistinctKeys(keys) {
        CanRecoverCarries(before, was, key, files);
      }
      if decided {
        forall disk | RecoverySteps(was, disk, key)
          ensures Safe(before, disk, key, files)
        {
          StepsAreSafe(before, was, disk, key, files);
        }
        SafeStep(before, was, fs.disk, keys, key, files);
        SafeTrace(before, was, passed, fs.trace, from, keys, key, files);
      }
      if !outcome.Recovered? {
        return true;
      }
      RecoveredOne(before, was, fs.disk, keys, i);
      if DistinctKeys(keys) {
        LaterStay(before, was, fs.disk, keys, i);
      }
    }
  }

  lemma LaterStay(before: Disk, was: Disk, disk: Disk, keys: seq<nat>, i: nat)
    requires DistinctKeys(keys) && i < |keys| && forall j :: i <= j < |keys| ==> SameFor(before, was, keys[j])
    requires forall k :: k != keys[i] ==> SameFor(was, disk, k)
    ensures forall j :: i + 1 <= j < |keys| ==> SameFor(before, disk, keys[j])
  {
    forall j | i + 1 <= j < |keys|
      ensures SameFor(before, disk, keys[j])
    {
      SameForTrans(before, was, disk, keys[j]);
    }
  }

  lemma RecoveredOne(before: Disk, was: Disk, disk: Disk, keys: seq<nat>, i: nat)
    requires i < |keys|
    requires forall j :: 0 <= j < i ==> Settled(before, was, keys[j])
    requires forall j :: 0 <= j < |keys| ==> SettledOrNot(before, was, keys[j])
    requires RecoverySteps(was, disk, keys[i]) && Settled(was, disk, keys[i]) && Decided(was, keys[i])
    ensures forall j :: 0 <= j < i + 1 ==> Settled(before, disk, keys[j])
    ensures forall j :: 0 <= j < |keys| ==> SettledOrNot(before, disk, keys[j])
  {
    assert Settled(before, disk, keys[i]) by {
      if SameFor(before, was, keys[i]) {
        SameForSymmetric(before, was, keys[i]);
        SameForRecovers(was, before, keys[i]);
      }
    }
    forall j | 0 <= j < |keys|
      ensures SettledOrNot(before, disk, keys[j])
      ensures Settled(before, was, keys[j]) ==> Settled(before, disk, keys[j])
    {
      if keys[j] != keys[i] {
        if Settled(before, was, keys[j]) {
          SettledCarries(before, was, disk, keys[j]);
        } else {
          SameForTrans(before, was, disk, keys[j]);
        }
      }
    }
  }

  lemma SameForSymmetric(a: Disk, b: Disk, key: nat)
    requires SameFor(a, b, key)
    ensures SameFor(b, a, key)
  {
  }

  // ----- staging ---------------------------------------------------------------------------------

  /** All but the remaining files are written, and nothing else. */
  ghost predicate WrittenBut(disk: Disk, stage: Name, files: Directory, remaining: set<Filename>) {
    && stage in disk && remaining <= files.Keys && disk[stage].Keys == files.Keys - remaining
    && forall f :: f in disk[stage] ==> disk[stage][f] == files[f]
  }

  method StageDirectory(fs: FileSystem, key: nat, files: Directory) returns (result: Staging, stage: Name)
    modifies fs
    ensures fs.failedReads >= old(fs.failedReads) && fs.faults >= old(fs.faults)
    ensures !result.Staged? ==> fs.faults > old(fs.faults) || fs.failedReads > old(fs.failedReads)
    ensures stage.Stage? && stage.key == key && stage !in old(fs.disk)
    ensures OnlyChanges(old(fs.disk), fs.disk, stage)
    ensures result.Staged? ==> StageReady(fs.disk, key, stage, files)
    ensures old(fs.trace) <= fs.trace
    ensures forall i :: |old(fs.trace)| <= i < |fs.trace| ==> OnlyChanges(old(fs.disk), fs.trace[i], stage)
  {
    var serial := fs.UnusedSerial(fs.disk, key);
    stage := Stage(key, serial);
    var raised := fs.Mkdir(stage);
    if raised {
      return NotStaged, stage;
    }
    var remaining := files.Keys;
    while remaining != {} && !raised
      invariant remaining <= files.Keys
      invariant fs.faults >= old(fs.faults) && (raised ==> fs.faults > old(fs.faults))
      invariant !raised ==> WrittenBut(fs.disk, stage, files, remaining)
      invariant stage in fs.disk && OnlyChanges(old(fs.disk), fs.disk, stage) && fs.failedReads == old(fs.failedReads)
      invariant old(fs.trace) <= fs.trace
      invariant forall i :: |old(fs.trace)| <= i < |fs.trace| ==> OnlyChanges(old(fs.disk), fs.trace[i], stage)
      decreases remaining
    {
      var file :| file in remaining;
      raised := fs.WriteBytes(stage, file, files[file]);
      remaining := remaining - {file};
    }
    if !raised {
      assert fs.disk[stage] == files;
      var matches := fs.ReadbackMatches(stage, files);
      if matches {
        return Staged, stage;
      }
    }
    raised := fs.RemoveSchemaDirectory(stage, files.Keys);
    return (if raised then StagingStuck else NotStaged), stage;
  }

  /** The target is recovered and none of its backups is left. */
  ghost predicate Ready(before: Disk, disk: Disk, key: nat) {
    BackupsOf(disk, key) == {} && Held(disk, key) == RecoveredTo(before, key)
  }

  ghost predicate AllReady(before: Disk, disk: Disk, keys: seq<nat>) {
    forall j :: 0 <= j < |keys| ==> Ready(before, disk, keys[j])
  }

  /** Stages apart, the two disks are the same. */
  ghost predicate SameButStages(a: Disk, b: Disk) {
    forall n: Name :: !n.Stage? ==> (n in a <==> n in b) && (n in a ==> a[n] == b[n])
  }

  lemma StageWorkIsReady(before: Disk, was: Disk, disk: Disk, keys: seq<nat>, files: Directory)
    requires AllReady(before, was, keys) && SameButStages(was, disk)
    ensures AllReady(before, disk, keys) && AllSafe(before, disk, keys, files)
  {
    forall j | 0 <= j < |keys|
      ensures Ready(before, disk, keys[j]) && Safe(before, disk, keys[j], files)
    {
      assert BackupsOf(disk, keys[j]) == BackupsOf(was, keys[j]);
    }
  }

  lemma StageWorkIsSafe(before: Disk, was: Disk, disk: Disk, keys: seq<nat>, files: Directory)
    requires AllSafe(before, was, keys, files) && SameButStages(was, disk)
    ensures AllSafe(before, disk, keys, files)
  {
    forall j | 0 <= j < |keys|
      ensures Safe(before, disk, keys[j], files)
    {
      assert BackupsOf(disk, keys[j]) == BackupsOf(was, keys[j]);
    }
  }

  lemma OneStageChanges(was: Disk, disk: Disk, stage: Name)
    requires stage.Stage? && OnlyChanges(was, disk, stage)
    ensures SameButStages(was, disk)
    ensures forall n: Name :: n != stage ==> (n in was <==> n in disk) && (n in was ==> was[n] == disk[n])
  {
    forall n: Name | n != stage
      ensures (n in was <==> n in disk) && (n in was ==> was[n] == disk[n])
    {
      ChangeKeepsName(was, disk, stage, n);
    }
  }

  lemma PassedSafe(
    before: Disk, was: Disk, passed: seq<Disk>, trace: seq<Disk>, from: nat, keys: seq<nat>, files: Directory)
    requires from <= |passed| && passed <= trace && PassesSafe(passed, from, before, keys, files)
    requires AllSafe(before, was, keys, files)
    requires forall m :: |passed| <= m < |trace| ==> SameButStages(was, trace[m])
    ensures PassesSafe(trace, from, before, keys, files)
  {
    forall m | from <= m < |trace|
      ensures AllSafe(before, trace[m], keys, files)
    {
      if m < |passed| {
        assert trace[m] == passed[m];
      } else {
        StageWorkIsSafe(before, was, trace[m], keys, files);
      }
    }
  }

  /** Every stage of one of these targets is one of these. */
  ghost predicate StagesAmong(disk: Disk, keys: seq<nat>, stages: seq<Name>) {
    forall n: Name :: n.Stage? && n in disk && n.key in keys ==> n in stages
  }

  method StageAll(fs: FileSystem, keys: seq<nat>, files: Directory, ghost before: Disk, ghost from: nat)
    returns (raised: bool, stages: seq<Name>)
    requires from <= |fs.trace| && AllReady(before, fs.disk, keys)
    requires PassesSafe(fs.trace, from, before, keys, files)
    modifies fs
    ensures fs.failedReads >= old(fs.failedReads) && fs.faults >= old(fs.faults)
    ensures raised ==> fs.faults > old(fs.faults) || fs.failedReads > old(fs.failedReads)
    ensures |stages| <= |keys| && (!raised ==> |stages| == |keys|)
    ensures forall j :: 0 <= j < |stages| ==> StageReady(fs.disk, keys[j], stages[j], files)
    ensures AllReady(before, fs.disk, keys)
    ensures !raised && StagesAmong(old(fs.disk), keys, []) ==> StagesAmong(fs.disk, keys, stages)
    ensures old(fs.trace) <= fs.trace && PassesSafe(fs.trace, from, before, keys, files)
  {
    raised, stages := false, [];
    for i := 0 to |keys|
      invariant |stages| == i && fs.failedReads >= old(fs.failedReads) && fs.faults >= old(fs.faults)
      invariant forall j :: 0 <= j < i ==> StageReady(fs.disk, keys[j], stages[j], files)
      invariant AllReady(before, fs.disk, keys)
      invariant StagesAmong(old(fs.disk), keys, []) ==> StagesAmong(fs.disk, keys, stages)
      invariant old(fs.trace) <= fs.trace && PassesSafe(fs.trace, from, before, keys, files)
    {
      ghost var was, passed := fs.disk, fs.trace;
      var result, stage := StageDirectory(fs, keys[i], files);
      forall disk | OnlyChanges(was, disk, stage)
        ensures SameButStages(was, disk)
      {
        OneStageChanges(was, disk, stage);
      }
      StageWorkIsReady(before, was, was, keys, files);
      PassedSafe(before, was, passed, fs.trace, from, keys, files);
      StageWorkIsReady(before, was, fs.disk, keys, files);
      OneStageChanges(was, fs.disk, stage);
      if !result.Staged? {
        return true, stages;
      }
      stages := stages + [stage];
    }
  }

  // ----- the transaction -------------------------------------------------------------------------

  /** Clearing the stages: one that is gone already is no failure, and nothing but stages changes. */
  method ClearStages(fs: FileSystem, stages: seq<Name>, files: Directory) returns (failed: bool)
    requires forall j :: 0 <= j < |stages| ==> stages[j].Stage?
    modifies fs`disk, fs`trace, fs`faults
    ensures fs.faults >= old(fs.faults)
    ensures failed ==>
      fs.faults >= old(fs.faults) + 3 || exists j :: 0 <= j < |stages| && Foreign(old(fs.disk), stages[j], files.Keys)
    ensures SameButStages(old(fs.disk), fs.disk)
    ensures (forall j :: 0 <= j < |stages| ==> stages[j] !in old(fs.disk)) ==>
      !failed && fs.disk == old(fs.disk) && fs.trace == old(fs.trace)
    ensures !failed ==> forall j :: 0 <= j < |stages| ==> stages[j] !in fs.disk
    ensures old(fs.trace) <= fs.trace
    ensures forall i :: |old(fs.trace)| <= i < |fs.trace| ==> SameButStages(old(fs.disk), fs.trace[i])
  {
    failed := false;
    ghost var gone := forall j :: 0 <= j < |stages| ==> stages[j] !in old(fs.disk);
    for i := 0 to |stages|
      invariant fs.faults >= old(fs.faults)
      invariant forall n :: n in fs.disk ==> n in old(fs.disk) && fs.disk[n].Keys <= old(fs.disk)[n].Keys
      invariant failed ==>
        fs.faults >= old(fs.faults) + 3 || exists j :: 0 <= j < |stages| && Foreign(old(fs.disk), stages[j], files.Keys)
      invariant SameButStages(old(fs.disk), fs.disk)
      invariant gone ==> !failed && fs.disk == old(fs.disk) && fs.trace == old(fs.trace)
      invariant !failed ==> forall j :: 0 <= j < i ==> stages[j] !in fs.disk
      invariant old(fs.trace) <= fs.trace
      invariant forall m :: |old(fs.trace)| <= m < |fs.trace| ==> SameButStages(old(fs.disk), fs.trace[m])
    {
      ghost var was := fs.disk;
      var raised := fs.RemoveSchemaDirectory(stages[i], files.Keys);
      failed := failed || raised;
      forall disk | OnlyChanges(was, disk, stages[i])
        ensures SameButStages(was, disk)
        ensures forall n: Name :: n != stages[i] ==> (n in was <==> n in disk) && (n in was ==> was[n] == disk[n])
      {
        OneStageChanges(was, disk, stages[i]);
      }
    }
  }

  /** Every target holds what recovery gives it. */
  ghost predicate AllRecovered(before: Disk, disk: Disk, keys: seq<nat>, files: Directory, misread: Option<nat>) {
    forall j :: 0 <= j < |keys| ==>
      Held(disk, keys[j])
      == if misread == Some(keys[j]) && RecoveredTo(before, keys[j]) == None then Some(files) else RecoveredTo(before, keys[j])
  }

  ghost predicate AllClean(disk: Disk, keys: seq<nat>) {
    forall j :: 0 <= j < |keys| ==> Clean(disk, keys[j])
  }

  lemma TargetsKept(before: Disk, a: Disk, b: Disk, keys: seq<nat>, files: Directory)
    requires SameButStages(a, b)
    ensures AllNew(a, keys, files) ==> AllNew(b, keys, files)
    ensures forall m :: AllRecovered(before, a, keys, files, m) ==> AllRecovered(before, b, keys, files, m)
  {
  }

  function SwapOutcome(result: Outcome): Transaction {
    match result
    case Done => Written
    case CleanupFailed(committed) => if committed then BackupsLeft else RollbackStuck
    case Failed => NotSwapped
  }

  /**
   `swap` is what the swap came to, if it was reached. An error that reports uncleared stages never hides a
   swap that took place; a normal return leaves nothing behind; a swap that did not take place leaves every
   target as recovery made it, unless putting it back failed or one that did not exist was installed, raised and
   could not be read back (`misread`); and until a rollback of installed targets starts every crash point is
   safe. A single target is safe throughout unless its final readback fails (`unread`).

   With no target listed twice and nothing disturbed, the files are written exactly when every target is tidy; and
   recovery is what fails exactly when some target is in doubt or has something foreign left over. Disturbed or not,
   each error has its cause.
   */
  method WriteAgencyTransaction(fs: FileSystem, keys: seq<nat>, files: Directory)
    returns (
      outcome: Transaction, ghost swap: Option<Outcome>, ghost misread: Option<nat>, ghost unread: bool, ghost forwardEnd: nat)
    modifies fs
    ensures outcome == Written || outcome == BackupsLeft <==> swap == Some(Done) || swap == Some(CleanupFailed(true))
    ensures outcome == Written || outcome == BackupsLeft ==> AllNew(fs.disk, keys, files)
    ensures outcome == Written && DistinctKeys(keys) ==> AllClean(fs.disk, keys)
    ensures outcome != NotRecovered && (swap == None || (swap == Some(Failed) && DistinctKeys(keys))) ==>
      AllRecovered(old(fs.disk), fs.disk, keys, files, misread)
    ensures misread.Some? || unread ==>
      swap in {Some(Failed), Some(CleanupFailed(false))} && fs.failedReads > old(fs.failedReads)
    ensures fs.failedReads >= old(fs.failedReads) && fs.faults >= old(fs.faults)
    ensures DistinctKeys(keys) && fs.faults == old(fs.faults) && fs.failedReads == old(fs.failedReads) ==>
      && (outcome == Written <==> AllTidy(old(fs.disk), keys, files))
      && (outcome == NotRecovered <==> !AllCanRecover(old(fs.disk), keys, files))
      && outcome in {Written, NotRecovered, BackupsLeft}
    ensures DistinctKeys(keys) ==>
      if outcome == NotRecovered then !AllCanRecover(old(fs.disk), keys, files) || fs.faults > old(fs.faults)
      else
        && AllCanRecover(old(fs.disk), keys, files)
        && (outcome != StagesLeft ==>
              Caused(outcome, ForeignRecovered(old(fs.disk), keys, files),
                     fs.faults - old(fs.faults), fs.failedReads - old(fs.failedReads)))
    ensures |old(fs.trace)| <= forwardEnd <= |fs.trace|
    ensures RunsForward(swap, keys, unread) ==> forwardEnd == |fs.trace|
    ensures DistinctKeys(keys) && AllSafe(old(fs.disk), old(fs.disk), keys, files) ==>
      PassesSafe(fs.trace[..forwardEnd], |old(fs.trace)|, old(fs.disk), keys, files)
  {
    ghost var before, from := fs.disk, |fs.trace|;
    AllTidyIff(before, keys, files);
    swap, misread, unread := None, None, false;
    var raised := RecoverAll(fs, keys, files);
    forwardEnd := |fs.trace|;
    assert fs.trace[..forwardEnd] == fs.trace;
    if raised {
      return NotRecovered, swap, misread, unread, forwardEnd;
    }
    SettledIsReady(before, fs.disk, keys);
    ghost var since := if AllSafe(before, before, keys, files) then from else |fs.trace|;
    outcome, swap, misread, unread, forwardEnd := StageSwapAndClear(fs, keys, files, before, since);
  }

  /** What is done once every target is recovered: stage, swap, and whatever came of it, clear the stages. */
  method StageSwapAndClear(fs: FileSystem, keys: seq<nat>, files: Directory, ghost before: Disk, ghost since: nat)
    returns (
      outcome: Transaction, ghost swap: Option<Outcome>, ghost misread: Option<nat>, ghost unread: bool, ghost forwardEnd: nat)
    requires AllReady(before, fs.disk, keys) && StagesAmong(fs.disk, keys, [])
    requires since <= |fs.trace| && PassesSafe(fs.trace, since, before, keys, files)
    modifies fs
    ensures outcome != NotRecovered
    ensures outcome == Written || outcome == BackupsLeft <==> swap == Some(Done) || swap == Some(CleanupFailed(true))
    ensures outcome == Written || outcome == BackupsLeft ==> AllNew(fs.disk, keys, files)
    ensures outcome == Written && DistinctKeys(keys) ==> AllClean(fs.disk, keys)
    ensures swap == None || (swap == Some(Failed) && DistinctKeys(keys)) ==>
      AllRecovered(before, fs.disk, keys, files, misread)
    ensures misread.Some? || unread ==>
      swap in {Some(Failed), Some(CleanupFailed(false))} && fs.failedReads > old(fs.failedReads)
    ensures fs.failedReads >= old(fs.failedReads) && fs.faults >= old(fs.faults)
    ensures DistinctKeys(keys) && fs.faults == old(fs.faults) && fs.failedReads == old(fs.failedReads) ==>
      outcome == if ForeignRecovered(before, keys, files) then BackupsLeft else Written
    ensures DistinctKeys(keys) && outcome != StagesLeft ==>
      Caused(outcome, ForeignRecovered(before, keys, files), fs.faults - old(fs.faults), fs.failedReads - old(fs.failedReads))
    ensures |old(fs.trace)| <= forwardEnd <= |fs.trace| && old(fs.trace) <= fs.trace
    ensures RunsForward(swap, keys, unread) ==> forwardEnd == |fs.trace|
    ensures swap == None || DistinctKeys(keys) ==> PassesSafe(fs.trace[..forwardEnd], since, before, keys, files)
  {
    var stages;
    outcome, stages, swap, misread, unread, forwardEnd := StageAndSwap(fs, keys, files, before, since);
    ghost var swapped, after := fs.disk, fs.trace;
    var failed := ClearStages(fs, stages, files);
    assert fs.trace[..forwardEnd] == after[..forwardEnd];
    TargetsKept(before, swapped, fs.disk, keys, files);
    if RunsForward(swap, keys, unread) {
      assert after[..forwardEnd] == after;
      if swap == None || DistinctKeys(keys) {
        PassedSafe(before, swapped, after, fs.trace, since, keys, files);
      }
      forwardEnd := |fs.trace|;
      assert fs.trace[..forwardEnd] == fs.trace;
    }
    if failed {
      outcome := StagesLeft;
    }
  }

  /** Some target is recovered to a directory with an entry that is not one of these files. */
  ghost predicate ForeignRecovered(before: Disk, keys: seq<nat>, files: Directory) {
    exists j :: 0 <= j < |keys| && RecoveredTo(before, keys[j]).Some? && !(RecoveredTo(before, keys[j]).value.Keys <= files.Keys)
  }

  lemma ReadyHoldsRecovered(before: Disk, disk: Disk, keys: seq<nat>, files: Directory)
    requires AllReady(before, disk, keys)
    ensures ForeignTarget(disk, keys, files) <==> ForeignRecovered(before, keys, files)
  {
    forall j | 0 <= j < |keys|
      ensures Foreign(disk, Target(keys[j]), files.Keys) <==>
        RecoveredTo(before, keys[j]).Some? && !(RecoveredTo(before, keys[j]).value.Keys <= files.Keys)
    {
      assert Ready(before, disk, keys[j]);
    }
  }

  /** What can have brought each outcome of staging and swap about. */
  ghost predicate Caused(outcome: Transaction, foreign: bool, faults: int, failedReads: int) {
    match outcome
    case Written => !foreign
    case BackupsLeft => foreign || faults >= 3
    case RollbackStuck => faults > 0
    case _ => faults > 0 || failedReads > 0
  }

  /** No doubt what to recover, and nothing but generated files in any directory of the target. */
  ghost predicate Tidy(disk: Disk, key: nat, files: Directory) {
    Decided(disk, key) && forall n: Name :: n.key == key ==> !Foreign(disk, n, files.Keys)
  }

  ghost predicate AllTidy(disk: Disk, keys: seq<nat>, files: Directory) {
    forall j :: 0 <= j < |keys| ==> Tidy(disk, keys[j], files)
  }

  lemma TidyIff(disk: Disk, key: nat, files: Directory)
    ensures Tidy(disk, key, files) <==>
      CanRecover(disk, key, files) && (RecoveredTo(disk, key).Some? ==> RecoveredTo(disk, key).value.Keys <= files.Keys)
  {
    assert Target(key).key == key;
    if CanRecover(disk, key, files) && (RecoveredTo(disk, key).Some? ==> RecoveredTo(disk, key).value.Keys <= files.Keys) {
      forall n: Name | n.key == key
        ensures !Foreign(disk, n, files.Keys)
      {
        assert n in disk && n.Backup? ==> n in BackupsOf(disk, key);
      }
    }
  }

  lemma AllTidyIff(disk: Disk, keys: seq<nat>, files: Directory)
    ensures AllTidy(disk, keys, files) <==> AllCanRecover(disk, keys, files) && !ForeignRecovered(disk, keys, files)
  {
    forall j | 0 <= j < |keys|
      ensures Tidy(disk, keys[j], files) <==>
        && CanRecover(disk, keys[j], files)
        && (RecoveredTo(disk, keys[j]).Some? ==> RecoveredTo(disk, keys[j]).value.Keys <= files.Keys)
    {
      TidyIff(disk, keys[j], files);
    }
  }

  /** Staging and, if every stage is ready, the swap; `stages` is what there is to clear afterwards. */
  method StageAndSwap(fs: FileSystem, keys: seq<nat>, files: Directory, ghost before: Disk, ghost since: nat)
    returns (
      outcome: Transaction, stages: seq<Name>,
      ghost swap: Option<Outcome>, ghost misread: Option<nat>, ghost unread: bool, ghost forwardEnd: nat)
    requires AllReady(before, fs.disk, keys) && StagesAmong(fs.disk, keys, [])
    requires since <= |fs.trace| && PassesSafe(fs.trace, since, before, keys, files)
    modifies fs
    ensures forall j :: 0 <= j < |stages| ==> stages[j].Stage?
    ensures outcome == if swap.Some? then SwapOutcome(swap.value) else NotSwapped
    ensures outcome == Written || outcome == BackupsLeft ==>
      && AllNew(fs.disk, keys, files) && forwardEnd == |fs.trace|
      && forall j :: 0 <= j < |stages| ==> stages[j] !in fs.disk
    ensures outcome == Written && DistinctKeys(keys) ==> AllClean(fs.disk, keys)
    ensures outcome == NotSwapped && (swap == None || DistinctKeys(keys)) ==>
      AllRecovered(before, fs.disk, keys, files, misread)
    ensures misread.Some? || unread ==>
      swap in {Some(Failed), Some(CleanupFailed(false))} && fs.failedReads > old(fs.failedReads)
    ensures fs.failedReads >= old(fs.failedReads) && fs.faults >= old(fs.faults)
    ensures DistinctKeys(keys) ==>
      Caused(outcome, ForeignRecovered(before, keys, files), fs.faults - old(fs.faults), fs.failedReads - old(fs.failedReads))
    ensures RunsForward(swap, keys, unread) ==> forwardEnd == |fs.trace|
    ensures |old(fs.trace)| <= forwardEnd <= |fs.trace| && old(fs.trace) <= fs.trace
    ensures swap == None || DistinctKeys(keys) ==>
      && PassesSafe(fs.trace[..forwardEnd], since, before, keys, files)
      && (RunsForward(swap, keys, unread) ==> AllSafe(before, fs.disk, keys, files))
  {
    swap, misread, unread, outcome := None, None, false, NotSwapped;
    var raised;
    raised, stages := StageAll(fs, keys, files, before, since);
    forwardEnd := |fs.trace|;
    assert fs.trace[..forwardEnd] == fs.trace;
    StageWorkIsReady(before, fs.disk, fs.disk, keys, files);
    if !raised {
      outcome, swap, misread, unread, forwardEnd := SwapStaged(fs, keys, stages, files, before, since);
    }
  }

  lemma SettledIsReady(before: Disk, disk: Disk, keys: seq<nat>)
    requires forall j :: 0 <= j < |keys| ==> Settled(before, disk, keys[j])
    ensures AllReady(before, disk, keys) && StagesAmong(disk, keys, [])
  {
    forall n: Name | n.Stage? && n.key in keys
      ensures n !in disk
    {
      var j :| 0 <= j < |keys| && keys[j] == n.key;
      assert n !in StagesOf(disk, keys[j]);
    }
  }

  /** The swap of staged targets, read as a step of the transaction. */
  method SwapStaged(fs: FileSystem, keys: seq<nat>, stages: seq<Name>, files: Directory, ghost before: Disk, ghost since: nat)
    returns (
      outcome: Transaction, ghost swap: Option<Outcome>, ghost misread: Option<nat>, ghost unread: bool, ghost forwardEnd: nat)
    requires |stages| == |keys| && forall j :: 0 <= j < |keys| ==> StageReady(fs.disk, keys[j], stages[j], files)
    requires AllReady(before, fs.disk, keys) && StagesAmong(fs.disk, keys, stages)
    requires since <= |fs.trace| && PassesSafe(fs.trace, since, before, keys, files)
    modifies fs
    ensures swap.Some? && outcome == SwapOutcome(swap.value)
    ensures outcome == Written || outcome == BackupsLeft ==>
      && AllNew(fs.disk, keys, files) && forwardEnd == |fs.trace|
      && forall j :: 0 <= j < |stages| ==> stages[j] !in fs.disk
    ensures outcome == Written && DistinctKeys(keys) ==> AllClean(fs.disk, keys)
    ensures outcome == NotSwapped && DistinctKeys(keys) ==> AllRecovered(before, fs.disk, keys, files, misread)
    ensures misread.Some? || unread ==> swap.value in {Failed, CleanupFailed(false)} && fs.failedReads > old(fs.failedReads)
    ensures fs.failedReads >= old(fs.failedReads) && fs.faults >= old(fs.faults)
    ensures DistinctKeys(keys) ==>
      Caused(outcome, ForeignRecovered(before, keys, files), fs.faults - old(fs.faults), fs.failedReads - old(fs.failedReads))
    ensures RunsForward(swap, keys, unread) ==> forwardEnd == |fs.trace|
    ensures |old(fs.trace)| <= forwardEnd <= |fs.trace| && old(fs.trace) <= fs.trace
    ensures DistinctKeys(keys) ==>
      && PassesSafe(fs.trace[..forwardEnd], since, before, keys, files)
      && (RunsForward(swap, keys, unread) ==> AllSafe(before, fs.disk, keys, files))
  {
    ghost var start, passed := fs.disk, fs.trace;
    ReadyHoldsRecovered(before, start, keys, files);
    var result;
    result, misread, unread, forwardEnd := CommitStagedDirectories(fs, keys, stages, files);
    outcome, swap := SwapOutcome(result), Some(result);
    if DistinctKeys(keys) {
      assert passed <= fs.trace[..forwardEnd];
      SwapIsSafe(before, start, passed, fs.trace[..forwardEnd], since, keys, files);
      if RunsForward(swap, keys, unread) {
        RecoverableIsSafe(before, start, fs.disk, keys, files);
      }
      if result == Done {
        SwapLeavesNothing(start, fs.disk, keys, stages);
      }
    }
  }

  lemma SwapLeavesNothing(start: Disk, disk: Disk, keys: seq<nat>, stages: seq<Name>)
    requires StagesAmong(start, keys, stages) && NoNewStage(start, disk) && NoBackups(disk, keys)
    requires forall j :: 0 <= j < |stages| ==> stages[j] !in disk
    ensures AllClean(disk, keys)
  {
    forall j | 0 <= j < |keys|
      ensures StagesOf(disk, keys[j]) == {}
    {
      assert forall n :: n in StagesOf(disk, keys[j]) ==> n in start && n.key in keys;
    }
  }

  lemma RecoverableIsSafe(before: Disk, start: Disk, disk: Disk, keys: seq<nat>, files: Directory)
    requires AllReady(before, start, keys) && AllRecoverable(disk, start, keys, files)
    ensures AllSafe(before, disk, keys, files)
  {
    forall j | 0 <= j < |keys|
      ensures Safe(before, disk, keys[j], files)
    {
      RecoverableMeansOldOrNew(disk, keys[j], Held(start, keys[j]), files);
    }
  }

  lemma SwapIsSafe(
    before: Disk, start: Disk, passed: seq<Disk>, trace: seq<Disk>, from: nat, keys: seq<nat>, files: Directory)
    requires from <= |passed| && passed <= trace && PassesSafe(passed, from, before, keys, files)
    requires AllReady(before, start, keys)
    requires PassesRecoverable(trace, |passed|, start, keys, files)
    ensures PassesSafe(trace, from, before, keys, files)
  {
    forall m | from <= m < |trace|
      ensures AllSafe(before, trace[m], keys, files)
    {
      if m < |passed| {
        assert trace[m] == passed[m];
      } else {
        RecoverableIsSafe(before, start, trace[m], keys, files);
      }
    }
  }

  /**
   From any of those crash points, through any number of crashes inside recovery, a completed recovery leaves
   no stage and no backup, and the target exactly as the transaction found it or exactly new. Without a fault and
   with nothing foreign left over it completes.
   */
  method RecoverFromCrash(fs: FileSystem, key: nat, files: Directory, ghost before: Disk, crashes: nat)
    returns (outcome: Recovery)
    requires Safe(before, fs.disk, key, files)
    modifies fs`disk, fs`trace, fs`faults
    ensures fs.faults >= old(fs.faults)
    ensures LeftoversTidy(old(fs.disk), key, files.Keys) && fs.faults == old(fs.faults) ==> outcome == Recovered
    ensures outcome.Recovered? ==>
      Clean(fs.disk, key) && (Held(fs.disk, key) == RecoveredTo(before, key) || Held(fs.disk, key) == Some(files))
    ensures Safe(before, fs.disk, key, files)
  {
    outcome := RecoverAfterCrashes(fs, key, files.Keys, crashes);
  }
}

/**
 Installing one set of generated schema files into several targets
 (src/openworkproof/agency_schema_registry.py:672-744): back each target up, rename its stage into place, and
 on any error put every target back.
 */
module SchemaSwap {
  import opened Collections
  import opened SchemaFiles
  import opened SchemaStates
  import opened SchemaInstall
  import opened SchemaRollback

  datatype Outcome = Done | CleanupFailed(committed: bool) | Failed

  ghost predicate AllNew(disk: Disk, keys: seq<nat>, files: Directory) {
    forall j :: 0 <= j < |keys| ==> HoldsNew(disk, keys[j], files)
  }

  /** Whatever came of it, if the swap was reached at all, no installed target was taken apart. */
  ghost predicate RunsForward(swap: Option<Outcome>, keys: seq<nat>, unread: bool) {
    swap in {None, Some(Done), Some(CleanupFailed(true))} || (|keys| == 1 && !unread)
  }

  ghost predicate AllRestored(before: Disk, disk: Disk, keys: seq<nat>, files: Directory, misread: Option<nat>) {
    forall j :: 0 <= j < |keys| ==> Held(disk, keys[j]) == Restored(before, keys[j], files, misread)
  }

  /** The second loop: does every target read back as exactly the new files? A failed read says no. */
  method ReadBack(fs: FileSystem, keys: seq<nat>, files: Directory) returns (raised: bool)
    modifies fs`failedReads
    ensures fs.failedReads >= old(fs.failedReads)
    ensures raised <==> !AllNew(fs.disk, keys, files) || fs.failedReads > old(fs.failedReads)
  {
    for j := 0 to |keys|
      invariant fs.failedReads == old(fs.failedReads)
      invariant forall l :: 0 <= l < j ==> HoldsNew(fs.disk, keys[l], files)
    {
      var matches := fs.ReadbackMatches(Target(keys[j]), files);
      if !matches {
        return true;
      }
    }
    return false;
  }

  /**
   All or nothing, for any number of targets. A normal return, or a clean-up error that says committed,
   means every target holds exactly the new files; any other error but a failed rollback means every
   target holds exactly what it held before, except that a target which did not exist and whose install landed,
   raised and could not be read back (`misread`) holds the new files. Until a rollback of installed targets
   starts a crash at any point leaves every target recoverable; from then on every state is a rollback point
   for every target. A single target is only taken apart when its final readback fails (`unread`); with
   `unread` a rollback that completes has passed, for every target whose contents do not survive it, a state
   recovered to neither the old nor the new. With no target listed twice each error has its cause: a fault or a
   failed read undoes the swap, a fault stops the rollback, and three faults or a foreign entry in an old target
   keep a backup.
   */
  method CommitStagedDirectories(fs: FileSystem, keys: seq<nat>, stages: seq<Name>, files: Directory)
    returns (outcome: Outcome, ghost misread: Option<nat>, ghost unread: bool, ghost forwardEnd: nat)
    requires |stages| == |keys|
    requires forall i :: 0 <= i < |keys| ==> StageReady(fs.disk, keys[i], stages[i], files)
    modifies fs
    ensures outcome == Done || outcome == CleanupFailed(true) ==>
      && AllNew(fs.disk, keys, files)
      && forall i :: 0 <= i < |keys| ==> stages[i] !in fs.disk
    ensures outcome == Failed && DistinctKeys(keys) ==> AllRestored(old(fs.disk), fs.disk, keys, files, misread)
    ensures fs.failedReads >= old(fs.failedReads) && fs.faults >= old(fs.faults)
    ensures DistinctKeys(keys) && outcome == Failed ==> fs.faults > old(fs.faults) || fs.failedReads > old(fs.failedReads)
    ensures DistinctKeys(keys) && outcome == CleanupFailed(false) ==> fs.faults > old(fs.faults)
    ensures DistinctKeys(keys) && outcome == CleanupFailed(true) ==>
      fs.faults >= old(fs.faults) + 3 || ForeignTarget(old(fs.disk), keys, files)
    ensures DistinctKeys(keys) && outcome == Done ==> !ForeignTarget(old(fs.disk), keys, files)
    ensures misread.Some? || unread ==> outcome in {Failed, CleanupFailed(false)} && fs.failedReads > old(fs.failedReads)
    ensures outcome == Done && DistinctKeys(keys) && NoBackups(old(fs.disk), keys) ==> NoBackups(fs.disk, keys)
    ensures outcome == Done || outcome == CleanupFailed(true) ==> NoNewStage(old(fs.disk), fs.disk)
    ensures forall k :: k !in keys ==> SameFor(old(fs.disk), fs.disk, k)
    ensures |old(fs.trace)| <= forwardEnd <= |fs.trace| && old(fs.trace) <= fs.trace
    ensures RunsForward(Some(outcome), keys, unread) ==> forwardEnd == |fs.trace|
    ensures DistinctKeys(keys) && NoBackups(old(fs.disk), keys) ==>
      && PassesRecoverable(fs.trace[..forwardEnd], |old(fs.trace)|, old(fs.disk), keys, files)
      && PassesPoints(fs.trace, forwardEnd, old(fs.disk), keys, files)
      && (RunsForward(Some(outcome), keys, unread) ==> AllRecoverable(fs.disk, old(fs.disk), keys, files))
      && (unread && outcome == Failed ==> forall j :: 0 <= j < |keys| && !SafeApart(Held(old(fs.disk), keys[j]), files) ==>
            LossPassed(fs.trace, forwardEnd, old(fs.disk), keys[j], files))
    ensures |keys| == 1 && NoBackups(old(fs.disk), keys) && outcome == Failed ==>
      (LossPassed(fs.trace, |old(fs.trace)|, old(fs.disk), keys[0], files)
       <==> unread && !SafeApart(Held(old(fs.disk), keys[0]), files))
  {
    ghost var before := fs.disk;
    unread := false;
    var raised, backups, installed;
    raised, backups, installed, misread := InstallAll(fs, keys, stages, files);
    ghost var swapped, passed := fs.disk, fs.trace;
    if !raised {
      ghost var failedReads := fs.failedReads;
      raised := ReadBack(fs, keys, files);
      unread := fs.failedReads > failedReads;
    }
    forwardEnd := |fs.trace|;
    assert fs.trace[..forwardEnd] == passed;
    if raised {
      var failed := Rollback(fs, keys, files, before, backups, installed, misread);
      assert fs.trace[..forwardEnd] == passed;
      if DistinctKeys(keys) && !failed {
        EachRestored(before, fs.disk, keys, installed, files, misread);
      }
      outcome := if failed then CleanupFailed(false) else Failed;
      if |keys| == 1 && !unread {
        if NoBackups(before, keys) {
          PassesBoth(fs.trace, passed, |old(fs.trace)|, before, keys, files);
        }
        forwardEnd := |fs.trace|;
        assert fs.trace[..forwardEnd] == fs.trace;
      }
      if |keys| == 1 && NoBackups(before, keys) && !failed {
        OneTargetLossIff(fs.trace, |old(fs.trace)|, forwardEnd, before, keys, files, unread);
      }
      return;
    }
    if DistinctKeys(keys) {
      BackupsHoldTargets(before, fs.disk, keys, backups, installed, files);
    }
    var cleanupFailed := RemoveBackups(fs, keys, backups, files, before, |old(fs.trace)|);
    if DistinctKeys(keys) && NoBackups(before, keys) && !cleanupFailed {
      NoBackupLeft(before, swapped, fs.disk, keys, backups, installed, files);
    }
    outcome := if cleanupFailed then CleanupFailed(true) else Done;
    forwardEnd := |fs.trace|;
    assert fs.trace[..forwardEnd] == fs.trace;
  }

  /** A single target put back: a crash on the way can lose it exactly if the final readback failed and it is not safe apart. */
  lemma OneTargetLossIff(
    trace: seq<Disk>, from: nat, forwardEnd: nat, before: Disk, keys: seq<nat>, files: Directory, unread: bool)
    requires |keys| == 1 && from <= forwardEnd <= |trace| && (!unread ==> forwardEnd == |trace|)
    requires PassesRecoverable(trace[..forwardEnd], from, before, keys, files)
    requires PassesPoints(trace, forwardEnd, before, keys, files)
    requires unread && !SafeApart(Held(before, keys[0]), files) ==> LossPassed(trace, forwardEnd, before, keys[0], files)
    ensures LossPassed(trace, from, before, keys[0], files) <==> unread && !SafeApart(Held(before, keys[0]), files)
  {
    forall i | from <= i < |trace| && !(unread && !SafeApart(Held(before, keys[0]), files))
      ensures OldOrNew(before, trace[i], keys[0], files)
    {
      if i < forwardEnd {
        assert trace[..forwardEnd][i] == trace[i];
        RecoverableMeansOldOrNew(trace[i], keys[0], Held(before, keys[0]), files);
      } else {
        SafePointRecovers(before, trace[i], keys[0], files);
      }
    }
  }

  /** Some target has an entry that is not one of these files. */
  ghost predicate ForeignTarget(disk: Disk, keys: seq<nat>, files: Directory) {
    exists j :: 0 <= j < |keys| && Foreign(disk, Target(keys[j]), files.Keys)
  }

  ghost predicate ForeignBackup(disk: Disk, backups: map<nat, Name>, files: Directory) {
    exists k :: k in backups && Foreign(disk, backups[k], files.Keys)
  }

  /** The backups of installed targets hold exactly what the targets held. */
  lemma BackupsHoldTargets(
    before: Disk, swapped: Disk, keys: seq<nat>, backups: map<nat, Name>, installed: set<nat>, files: Directory)
    requires AllUndoable(before, swapped, keys, backups, installed, files, None)
    requires forall k :: k in backups ==> k in keys
    requires forall j :: 0 <= j < |keys| ==> keys[j] in installed
    ensures ForeignBackup(swapped, backups, files) <==> ForeignTarget(before, keys, files)
  {
    forall j | 0 <= j < |keys|
      ensures MovedAside(before, swapped, keys[j], backups)
    {
      assert Undoable(before, swapped, keys[j], backups, installed, files, None);
    }
    if ForeignBackup(swapped, backups, files) {
      var k :| k in backups && Foreign(swapped, backups[k], files.Keys);
      var j :| 0 <= j < |keys| && keys[j] == k;
      assert Foreign(before, Target(keys[j]), files.Keys);
    }
    if ForeignTarget(before, keys, files) {
      var j :| 0 <= j < |keys| && Foreign(before, Target(keys[j]), files.Keys);
      assert keys[j] in backups && Foreign(swapped, backups[keys[j]], files.Keys);
    }
  }

  lemma PassesBoth(trace: seq<Disk>, passed: seq<Disk>, from: nat, before: Disk, keys: seq<nat>, files: Directory)
    requires passed <= trace && from <= |passed|
    requires PassesRecoverable(passed, from, before, keys, files) && PassesRecoverable(trace, |passed|, before, keys, files)
    ensures PassesRecoverable(trace, from, before, keys, files)
  {
    forall m, j | from <= m < |passed| && 0 <= j < |keys|
      ensures Recoverable(trace[m], keys[j], Held(before, keys[j]), files)
    {
      assert trace[m] == passed[m];
    }
  }

  lemma EachRestored(
    before: Disk, disk: Disk, keys: seq<nat>, installed: set<nat>, files: Directory, misread: Option<nat>)
    requires DistinctKeys(keys)
    requires forall i :: 0 <= i < |keys| ==>
      Held(disk, keys[i])
      == if multiset(keys)[keys[i]] == 1 || keys[i] !in installed then Restored(before, keys[i], files, misread) else None
    ensures AllRestored(before, disk, keys, files, misread)
  {
    forall i | 0 <= i < |keys|
      ensures Held(disk, keys[i]) == Restored(before, keys[i], files, misread)
    {
      DistinctCount(keys, i);
    }
  }

  /** The one backup of an installed target is the recorded one; once it is removed there is none. */
  lemma NoBackupLeft(
    before: Disk, swapped: Disk, disk: Disk, keys: seq<nat>, backups: map<nat, Name>, installed: set<nat>, files: Directory)
    requires AllUndoable(before, swapped, keys, backups, installed, files, None)
    requires AllPoints(before, swapped, keys, installed, files, None)
    requires forall j :: 0 <= j < |keys| ==> keys[j] in installed
    requires forall n: Name :: n !in swapped ==> n !in disk
    requires forall k :: k in backups ==> backups[k] !in disk
    ensures NoBackups(disk, keys)
  {
    forall j | 0 <= j < |keys|
      ensures BackupsOf(disk, keys[j]) == {}
    {
      assert AsideOnly(before, swapped, keys[j]) && Installed(before, swapped, keys[j], backups, files);
      assert BackupsOf(disk, keys[j]) <= BackupsOf(swapped, keys[j]);
      assert keys[j] in backups ==> backups[keys[j]] in BackupsOf(swapped, keys[j]);
    }
  }

  /** Removing the backups of an installed set touches no target. */
  method RemoveBackups(
    fs: FileSystem, keys: seq<nat>, backups: map<nat, Name>, files: Directory, ghost before: Disk, ghost from: nat)
    returns (failed: bool)
    requires NamedBackups(backups) && forall k :: k in backups ==> k in keys
    requires AllNew(fs.disk, keys, files) && from <= |fs.trace|
    modifies fs`disk, fs`trace, fs`faults
    ensures fs.faults >= old(fs.faults)
    ensures ForeignBackup(old(fs.disk), backups, files) ==> failed
    ensures failed ==> ForeignBackup(old(fs.disk), backups, files) || fs.faults >= old(fs.faults) + 3
    ensures AllNew(fs.disk, keys, files)
    ensures forall n: Name :: n !in old(fs.disk) ==> n !in fs.disk
    ensures !failed ==> forall k :: k in backups ==> backups[k] !in fs.disk
    ensures forall k :: k !in keys ==> SameFor(old(fs.disk), fs.disk, k)
    ensures old(fs.trace) <= fs.trace
    ensures AllRecoverable(old(fs.disk), before, keys, files) && PassesRecoverable(old(fs.trace), from, before, keys, files)
      ==> AllRecoverable(fs.disk, before, keys, files) && PassesRecoverable(fs.trace, from, before, keys, files)
  {
    ghost var safe := AllRecoverable(fs.disk, before, keys, files)
      && PassesRecoverable(fs.trace, from, before, keys, files);
    failed := false;
    var remaining := backups.Keys;
    while remaining != {}
      invariant remaining <= backups.Keys && fs.faults >= old(fs.faults)
      invariant StillThere(old(fs.disk), fs.disk, backups, remaining)
      invariant failed ==> ForeignBackup(old(fs.disk), backups, files) || fs.faults >= old(fs.faults) + 3
      invariant !failed ==> forall k :: k in backups && k !in remaining ==> !Foreign(old(fs.disk), backups[k], files.Keys)
      invariant AllNew(fs.disk, keys, files)
      invariant forall n: Name :: n !in old(fs.disk) ==> n !in fs.disk
      invariant !failed ==> forall k :: k in backups && k !in remaining ==> backups[k] !in fs.disk
      invariant forall k :: k !in keys ==> SameFor(old(fs.disk), fs.disk, k)
      invariant old(fs.trace) <= fs.trace
      invariant safe ==> AllRecoverable(fs.disk, before, keys, files)
      invariant safe ==> PassesRecoverable(fs.trace, from, before, keys, files)
      decreases remaining
    {
      var key :| key in remaining;
      ghost var was, passed := fs.disk, fs.trace;
      var raised := fs.RemoveSchemaDirectory(backups[key], files.Keys);
      failed := failed || raised;
      BackupGone(was, fs.disk, backups[key], keys, files);
      OthersStillThere(old(fs.disk), was, fs.disk, backups, remaining, key);
      OthersStay(old(fs.disk), was, fs.disk, keys, key);
      if safe {
        BackupRemovalPasses(was, before, passed, fs.trace, fs.disk, backups[key], keys, files, from);
      }
      remaining := remaining - {key};
    }
  }

  /** These backups are as they were. */
  ghost predicate StillThere(before: Disk, disk: Disk, backups: map<nat, Name>, remaining: set<nat>)
    requires remaining <= backups.Keys
  {
    forall k :: k in remaining ==>
      (backups[k] in disk <==> backups[k] in before) && (backups[k] in disk ==> disk[backups[k]] == before[backups[k]])
  }

  lemma OthersStillThere(before: Disk, was: Disk, disk: Disk, backups: map<nat, Name>, remaining: set<nat>, key: nat)
    requires NamedBackups(backups) && remaining <= backups.Keys && key in remaining
    requires StillThere(before, was, backups, remaining) && TakenApart(was, disk, backups[key])
    ensures StillThere(before, disk, backups, remaining - {key})
  {
    forall k | k in remaining && k != key
      ensures (backups[k] in disk <==> backups[k] in was) && (backups[k] in disk ==> disk[backups[k]] == was[backups[k]])
    {
      ChangeKeepsName(was, disk, backups[key], backups[k]);
    }
  }

  lemma BackupGone(was: Disk, disk: Disk, backup: Name, keys: seq<nat>, files: Directory)
    requires backup.Backup? && TakenApart(was, disk, backup) && AllNew(was, keys, files)
    ensures AllNew(disk, keys, files)
    ensures forall n: Name :: n !in was ==> n !in disk
    ensures forall k :: k != backup.key ==> SameFor(was, disk, k)
  {
    forall n: Name | n != backup
      ensures (n in was <==> n in disk) && (n in was ==> was[n] == disk[n])
    {
      ChangeKeepsName(was, disk, backup, n);
    }
    forall k | k != backup.key
      ensures SameFor(was, disk, k)
    {
      ChangeKeepsOthers(was, disk, backup, k);
    }
  }

  lemma BackupRemovalPasses(
    was: Disk, before: Disk, passed: seq<Disk>, trace: seq<Disk>, now: Disk, backup: Name,
    keys: seq<nat>, files: Directory, from: nat)
    requires passed <= trace && from <= |passed| && backup.Backup? && backup.key in keys
    requires AllNew(was, keys, files)
    requires AllRecoverable(was, before, keys, files) && PassesRecoverable(passed, from, before, keys, files)
    requires TakenApart(was, now, backup)
    requires forall m :: |passed| <= m < |trace| ==> TakenApart(was, trace[m], backup)
    ensures AllRecoverable(now, before, keys, files)
    ensures PassesRecoverable(trace, from, before, keys, files)
  {
    forall disk: Disk, j | TakenApart(was, disk, backup) && 0 <= j < |keys|
      ensures Recoverable(disk, keys[j], Held(before, keys[j]), files)
    {
      InstalledStaysRecoverable(was, disk, backup, keys[j], Held(before, keys[j]), files);
    }
    forall m, j | from <= m < |trace| && 0 <= j < |keys|
      ensures Recoverable(trace[m], keys[j], Held(before, keys[j]), files)
    {
      if m < |passed| {
        assert trace[m] == passed[m];
      }
    }
  }

  lemma InstalledStaysRecoverable(
    was: Disk, now: Disk, backup: Name, key: nat, held: Option<Directory>, files: Directory)
    requires backup.Backup? && HoldsNew(was, key, files) && OneBackup(was, key)
    requires TakenApart(was, now, backup)
    ensures Recoverable(now, key, held, files)
  {
    forall n: Name | n != backup
      ensures (n in was <==> n in now) && (n in was ==> was[n] == now[n])
    {
      ChangeKeepsName(was, now, backup, n);
    }
    assert BackupsOf(now, key) <= BackupsOf(was, key);
  }
}

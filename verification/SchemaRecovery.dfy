/** Bringing a target back after a crash (src/openworkproof/agency_schema_registry.py:634-669). */
module SchemaRecovery {
  import opened Collections
  import opened SchemaFiles
  import opened SchemaStates

  datatype Recovery = Recovered | Raised | CleanupStuck(committed: bool)

  ghost predicate Clean(disk: Disk, key: nat) {
    BackupsOf(disk, key) == {} && StagesOf(disk, key) == {}
  }

  lemma SameForRecovers(a: Disk, b: Disk, key: nat)
    requires SameFor(a, b, key) && Decided(a, key)
    ensures Decided(b, key) && RecoveredTo(a, key) == RecoveredTo(b, key)
    ensures BackupsOf(a, key) == BackupsOf(b, key) && StagesOf(a, key) == StagesOf(b, key)
  {
    assert Target(key).key == key;
    assert BackupsOf(a, key) == BackupsOf(b, key);
  }

  /** Only these names may differ, and none of them appears or gains an entry. */
  ghost predicate OnlyShrinks(before: Disk, after: Disk, names: set<Name>) {
    forall n: Name ::
      && (n in after ==> n in before && after[n].Keys <= before[n].Keys)
      && (n !in names ==> (n in before <==> n in after) && (n in before ==> before[n] == after[n]))
  }

  lemma ShrinkStep(before: Disk, middle: Disk, after: Disk, names: set<Name>, name: Name)
    requires OnlyShrinks(before, middle, names) && name in names
    requires TakenApart(middle, after, name)
    ensures OnlyShrinks(before, after, names)
  {
    forall n: Name | n != name
      ensures (n in middle <==> n in after) && (n in middle ==> middle[n] == after[n])
    {
      ChangeKeepsName(middle, after, name, n);
    }
  }

  lemma ShrinkKeepsRecovery(before: Disk, after: Disk, names: set<Name>, key: nat)
    requires OnlyShrinks(before, after, names) && Decided(before, key)
    requires forall n :: n in names ==> n.key == key && (n.Stage? || (n.Backup? && Target(key) in before))
    ensures Decided(after, key) && RecoveredTo(after, key) == RecoveredTo(before, key)
    ensures forall k :: k != key ==> SameFor(before, after, k)
  {
    assert Target(key) !in names;
    assert BackupsOf(after, key) <= BackupsOf(before, key);
    if Target(key) !in before {
      assert BackupsOf(after, key) == BackupsOf(before, key);
    }
  }

  ghost predicate AnyForeign(disk: Disk, names: set<Name>, filenames: set<Filename>) {
    exists n :: n in names && Foreign(disk, n, filenames)
  }

  /**
   The two clean-up loops: try every name, remember whether any failed. A foreign entry fails it, and without one
   only three faults in one directory do.
   */
  method CleanUp(fs: FileSystem, names: set<Name>, filenames: set<Filename>) returns (failed: bool)
    modifies fs`disk, fs`trace, fs`faults
    ensures fs.faults >= old(fs.faults)
    ensures AnyForeign(old(fs.disk), names, filenames) ==> failed
    ensures failed ==> AnyForeign(old(fs.disk), names, filenames) || fs.faults >= old(fs.faults) + 3
    ensures OnlyShrinks(old(fs.disk), fs.disk, names)
    ensures !failed ==> forall n :: n in names ==> n !in fs.disk
    ensures old(fs.trace) <= fs.trace
    ensures forall i :: |old(fs.trace)| <= i < |fs.trace| ==> OnlyShrinks(old(fs.disk), fs.trace[i], names)
  {
    failed := false;
    var remaining := names;
    while remaining != {}
      invariant remaining <= names && fs.faults >= old(fs.faults)
      invariant forall n :: n in remaining ==>
        (n in fs.disk <==> n in old(fs.disk)) && (n in fs.disk ==> fs.disk[n] == old(fs.disk)[n])
      invariant failed ==> AnyForeign(old(fs.disk), names, filenames) || fs.faults >= old(fs.faults) + 3
      invariant !failed ==> forall n :: n in names && n !in remaining ==> !Foreign(old(fs.disk), n, filenames)
      invariant OnlyShrinks(old(fs.disk), fs.disk, names)
      invariant !failed ==> forall n :: n in names && n !in remaining ==> n !in fs.disk
      invariant old(fs.trace) <= fs.trace
      invariant forall i :: |old(fs.trace)| <= i < |fs.trace| ==> OnlyShrinks(old(fs.disk), fs.trace[i], names)
      decreases remaining
    {
      var name :| name in remaining;
      ghost var was, passed := fs.disk, fs.trace;
      var raised := fs.RemoveSchemaDirectory(name, filenames);
      failed := failed || raised;
      ShrinkStep(old(fs.disk), was, fs.disk, names, name);
      forall i | |old(fs.trace)| <= i < |fs.trace|
        ensures OnlyShrinks(old(fs.disk), fs.trace[i], names)
      {
        if i < |passed| {
          assert fs.trace[i] == passed[i];
        } else {
          ShrinkStep(old(fs.disk), was, fs.trace[i], names, name);
        }
      }
      forall n: Name | n != name
        ensures (n in was <==> n in fs.disk) && (n in was ==> was[n] == fs.disk[n])
      {
        ChangeKeepsName(was, fs.disk, name, n);
      }
      remaining := remaining - {name};
    }
  }

  /** Backups first, then stages. */
  method CleanUpBoth(fs: FileSystem, backups: set<Name>, stages: set<Name>, filenames: set<Filename>)
    returns (backupsFailed: bool, stagesFailed: bool)
    requires backups !! stages
    modifies fs`disk, fs`trace, fs`faults
    ensures fs.faults >= old(fs.faults)
    ensures AnyForeign(old(fs.disk), backups + stages, filenames) ==> backupsFailed || stagesFailed
    ensures backupsFailed || stagesFailed ==>
      AnyForeign(old(fs.disk), backups + stages, filenames) || fs.faults >= old(fs.faults) + 3
    ensures OnlyShrinks(old(fs.disk), fs.disk, backups + stages)
    ensures !backupsFailed ==> forall n :: n in backups ==> n !in fs.disk
    ensures !stagesFailed ==> forall n :: n in stages ==> n !in fs.disk
    ensures old(fs.trace) <= fs.trace
    ensures forall i :: |old(fs.trace)| <= i < |fs.trace| ==> OnlyShrinks(old(fs.disk), fs.trace[i], backups + stages)
  {
    ghost var before, names := fs.disk, backups + stages;
    backupsFailed := CleanUp(fs, backups, filenames);
    ghost var halfway, swept := fs.disk, fs.trace;
    stagesFailed := CleanUp(fs, stages, filenames);
    ForeignInEither(before, halfway, backups, stages, filenames);
    forall disk | OnlyShrinks(before, disk, backups)
      ensures OnlyShrinks(before, disk, names)
    {
      ShrinkWithin(before, before, disk, backups, names);
    }
    forall disk | OnlyShrinks(halfway, disk, stages)
      ensures OnlyShrinks(before, disk, names)
    {
      ShrinkWithin(before, halfway, disk, stages, names);
    }
    forall i | |old(fs.trace)| <= i < |fs.trace|
      ensures OnlyShrinks(before, fs.trace[i], names)
    {
      if i < |swept| {
        assert fs.trace[i] == swept[i];
      }
    }
  }

  lemma ForeignInEither(before: Disk, halfway: Disk, backups: set<Name>, stages: set<Name>, filenames: set<Filename>)
    requires backups !! stages && OnlyShrinks(before, halfway, backups)
    ensures AnyForeign(before, backups + stages, filenames) <==>
      AnyForeign(before, backups, filenames) || AnyForeign(halfway, stages, filenames)
  {
    forall n | n in stages
      ensures Foreign(before, n, filenames) <==> Foreign(halfway, n, filenames)
    {
    }
  }

  /** What an earlier transaction left of this target and recovery has to remove: generated files only. */
  ghost predicate LeftoversTidy(disk: Disk, key: nat, filenames: set<Filename>) {
    forall n: Name :: n.key == key && (n.Stage? || (n.Backup? && Target(key) in disk)) ==> !Foreign(disk, n, filenames)
  }

  /** Nothing recovery does, finished or not, changes what the target is recovered to. */
  ghost predicate RecoverySteps(before: Disk, disk: Disk, key: nat) {
    && Decided(disk, key)
    && RecoveredTo(disk, key) == RecoveredTo(before, key)
    && (Target(key) in before ==> Held(disk, key) == Held(before, key))
    && forall k :: k != key ==> SameFor(before, disk, k)
  }

  lemma RestoreSteps(before: Disk, backup: Name, key: nat)
    requires OneBackup(before, key) && Target(key) !in before && backup in BackupsOf(before, key)
    ensures RecoverySteps(before, Renamed(before, backup, Target(key)), key)
    ensures BackupsOf(Renamed(before, backup, Target(key)), key) == {}
    ensures StagesOf(Renamed(before, backup, Target(key)), key) == StagesOf(before, key)
  {
    assert forall n :: n in BackupsOf(before, key) ==> n == backup;
    assert forall n :: n in BackupsOf(Renamed(before, backup, Target(key)), key) ==> n in BackupsOf(before, key) && n != backup;
  }

  lemma RestoredIsTidy(before: Disk, backup: Name, key: nat, filenames: set<Filename>)
    requires OneBackup(before, key) && Target(key) !in before && backup in BackupsOf(before, key)
    ensures LeftoversTidy(before, key, filenames) ==> LeftoversTidy(Renamed(before, backup, Target(key)), key, filenames)
  {
    var after := Renamed(before, backup, Target(key));
    RestoreSteps(before, backup, key);
    assert forall n :: n in BackupsOf(after, key) <==> n in after && n.Backup? && n.key == key;
  }

  /** A missing target gets its only backup back; with several there is no telling which. */
  method PutOnlyBackupBack(fs: FileSystem, key: nat, backups: set<Name>, ghost filenames: set<Filename>)
    returns (failed: Option<Recovery>, remaining: set<Name>)
    requires backups == BackupsOf(fs.disk, key)
    modifies fs`disk, fs`trace, fs`faults
    ensures fs.faults >= old(fs.faults) && old(fs.trace) <= fs.trace
    ensures failed in {None, Some(Raised), Some(CleanupStuck(false))}
    ensures failed == Some(Raised) ==> fs.faults > old(fs.faults)
    ensures failed == Some(CleanupStuck(false)) <==> !Decided(old(fs.disk), key)
    ensures failed == Some(CleanupStuck(false)) ==> fs.disk == old(fs.disk) && fs.trace == old(fs.trace)
    ensures failed == None ==>
      if Target(key) in old(fs.disk) || backups == {} then fs.disk == old(fs.disk) && remaining == backups
      else remaining == {} && exists b :: b in backups && fs.disk == Renamed(old(fs.disk), b, Target(key))
    ensures Decided(old(fs.disk), key) ==>
      && RecoverySteps(old(fs.disk), fs.disk, key)
      && forall i :: |old(fs.trace)| <= i < |fs.trace| ==>
           && RecoverySteps(old(fs.disk), fs.trace[i], key)
           && (LeftoversTidy(old(fs.disk), key, filenames) ==> LeftoversTidy(fs.trace[i], key, filenames))
  {
    remaining := backups;
    if Target(key) !in fs.disk && backups != {} {
      var backup :| backup in backups;
      if backups != {backup} {
        var other :| other in backups && other != backup;
        return Some(CleanupStuck(false)), remaining;
      }
      RestoreSteps(fs.disk, backup, key);
      RestoredIsTidy(fs.disk, backup, key, filenames);
      var raised := fs.Rename(backup, Target(key));
      if raised {
        return Some(Raised), remaining;
      }
      remaining := {};
    }
    return None, remaining;
  }

  /**
   Recovery of one target. When it completes, nothing of an earlier transaction is left and the target
   holds what it was to be recovered to; wherever it stops, that is still what it will be recovered to.
   A missing target with several backups is left alone. It completes only if there is no doubt and no foreign entry
   in the way, and only a fault stops it then.
   */
  method RecoverTarget(fs: FileSystem, key: nat, filenames: set<Filename>) returns (outcome: Recovery)
    modifies fs`disk, fs`trace, fs`faults
    ensures fs.faults >= old(fs.faults)
    ensures outcome == Recovered ==> Decided(old(fs.disk), key) && LeftoversTidy(old(fs.disk), key, filenames)
    ensures outcome == Raised ==> fs.faults > old(fs.faults)
    ensures outcome == CleanupStuck(true) ==> Target(key) in fs.disk
    ensures outcome == CleanupStuck(false) && Target(key) in fs.disk ==> BackupsOf(fs.disk, key) == {}
    ensures outcome.CleanupStuck? && Decided(old(fs.disk), key) && LeftoversTidy(old(fs.disk), key, filenames) ==>
      fs.faults >= old(fs.faults) + 3
    ensures outcome.Recovered? ==> Clean(fs.disk, key) && Held(fs.disk, key) == RecoveredTo(old(fs.disk), key)
    ensures !Decided(old(fs.disk), key) ==>
      outcome == CleanupStuck(false) && fs.disk == old(fs.disk) && fs.trace == old(fs.trace)
    ensures Decided(old(fs.disk), key) ==> RecoverySteps(old(fs.disk), fs.disk, key)
    ensures old(fs.trace) <= fs.trace
    ensures Decided(old(fs.disk), key) ==>
      forall i :: |old(fs.trace)| <= i < |fs.trace| ==> RecoverySteps(old(fs.disk), fs.trace[i], key)
    ensures Decided(old(fs.disk), key) && LeftoversTidy(old(fs.disk), key, filenames) ==>
      forall i :: |old(fs.trace)| <= i < |fs.trace| ==> LeftoversTidy(fs.trace[i], key, filenames)
  {
    var backups := set n | n in fs.disk && n.Backup? && n.key == key;
    var stages := set n | n in fs.disk && n.Stage? && n.key == key;
    assert backups == BackupsOf(fs.disk, key) && stages == StagesOf(fs.disk, key);
    var failed;
    failed, backups := PutOnlyBackupBack(fs, key, backups, filenames);
    if failed.Some? {
      return failed.value;
    }
    ghost var restored := fs.disk;
    ToRemove(old(fs.disk), restored, backups, stages, key, filenames);
    var backupsFailed, stagesFailed := CleanUpBoth(fs, backups, stages, filenames);
    forall disk | OnlyShrinks(restored, disk, backups + stages)
      ensures RecoverySteps(old(fs.disk), disk, key)
      ensures LeftoversTidy(restored, key, filenames) ==> LeftoversTidy(disk, key, filenames)
    {
      StepsThenShrinks(old(fs.disk), restored, disk, backups + stages, key);
    }
    if backupsFailed || stagesFailed {
      return CleanupStuck(backupsFailed && Target(key) in fs.disk);
    }
    return Recovered;
  }

  /** The names recovery removes hold a foreign entry exactly if the leftovers are not tidy. */
  lemma ToRemove(before: Disk, restored: Disk, backups: set<Name>, stages: set<Name>, key: nat, filenames: set<Filename>)
    requires Decided(before, key) && stages == StagesOf(before, key)
    requires if Target(key) in before || BackupsOf(before, key) == {} then restored == before && backups == BackupsOf(before, key)
             else backups == {} && exists b :: b in BackupsOf(before, key) && restored == Renamed(before, b, Target(key))
    ensures AnyForeign(restored, backups + stages, filenames) <==> !LeftoversTidy(before, key, filenames)
    ensures LeftoversTidy(before, key, filenames) ==> LeftoversTidy(restored, key, filenames)
    ensures BackupsOf(restored, key) == backups && StagesOf(restored, key) == stages
  {
    if restored != before {
      var b :| b in BackupsOf(before, key) && restored == Renamed(before, b, Target(key));
      RestoreSteps(before, b, key);
      RestoredIsTidy(before, b, key, filenames);
    }
    forall n | n in backups + stages
      ensures Foreign(restored, n, filenames) <==> Foreign(before, n, filenames)
      ensures n.key == key && (n.Stage? || (n.Backup? && Target(key) in before))
    {
    }
    if !LeftoversTidy(before, key, filenames) {
      var n: Name :| n.key == key && (n.Stage? || (n.Backup? && Target(key) in before)) && Foreign(before, n, filenames);
      assert n in backups + stages;
    }
  }

  lemma ShrinkWithin(before: Disk, middle: Disk, after: Disk, some: set<Name>, names: set<Name>)
    requires OnlyShrinks(before, middle, names) && OnlyShrinks(middle, after, some) && some <= names
    ensures OnlyShrinks(before, after, names)
  {
  }

  lemma StepsThenShrinks(before: Disk, middle: Disk, after: Disk, names: set<Name>, key: nat)
    requires RecoverySteps(before, middle, key)
    requires OnlyShrinks(middle, after, names)
    requires forall n :: n in names ==> n.key == key && (n.Stage? || (n.Backup? && Target(key) in middle))
    ensures RecoverySteps(before, after, key)
  {
    ShrinkKeepsRecovery(middle, after, names, key);
    assert Target(key) !in names;
    forall k | k != key
      ensures SameFor(before, after, k)
    {
      SameForTrans(before, middle, after, k);
    }
  }

  // ----- crashes --------------------------------------------------------------------------------

  lemma RecoveryStepsCompose(a: Disk, b: Disk, c: Disk, key: nat)
    requires RecoverySteps(a, b, key) && RecoverySteps(b, c, key)
    ensures RecoverySteps(a, c, key)
  {
    forall k | k != key
      ensures SameFor(a, c, k)
    {
      SameForTrans(a, b, c, k);
    }
  }

  /** However often recovery itself is cut short, the one that completes gives the same result. */
  method RecoverAfterCrashes(fs: FileSystem, key: nat, filenames: set<Filename>, crashes: nat) returns (outcome: Recovery)
    requires Decided(fs.disk, key)
    modifies fs`disk, fs`trace, fs`faults
    ensures fs.faults >= old(fs.faults)
    ensures LeftoversTidy(old(fs.disk), key, filenames) && fs.faults == old(fs.faults) ==> outcome == Recovered
    ensures outcome.Recovered? ==> Clean(fs.disk, key) && Held(fs.disk, key) == RecoveredTo(old(fs.disk), key)
    ensures RecoverySteps(old(fs.disk), fs.disk, key)
  {
    for c := 0 to crashes
      invariant RecoverySteps(old(fs.disk), fs.disk, key) && fs.faults >= old(fs.faults)
      invariant LeftoversTidy(old(fs.disk), key, filenames) ==> LeftoversTidy(fs.disk, key, filenames)
    {
      var began, from := fs.disk, |fs.trace|;
      outcome := RecoverTarget(fs, key, filenames);
      assert RecoverySteps(began, began, key);
      fs.Crash(from, began);
      RecoveryStepsCompose(old(fs.disk), began, fs.disk, key);
    }
    ghost var began := fs.disk;
    outcome := RecoverTarget(fs, key, filenames);
    RecoveryStepsCompose(old(fs.disk), began, fs.disk, key);
  }
}

/**
 The backward half of the schema swap: take installed targets apart and put the old content back
 (src/openworkproof/agency_schema_registry.py:709-728), and what a crash on the way does to it.
 */
module SchemaRollback {
  import opened Collections
  import opened SchemaFiles
  import opened SchemaStates
  import opened SchemaInstall

  /** What undoing one target leaves there: its backup if there still is one, else nothing of what was installed. */
  ghost function Undone(disk: Disk, key: nat, backups: map<nat, Name>, installed: set<nat>): Option<Directory> {
    if key in backups && backups[key] in disk then Some(disk[backups[key]])
    else if key in installed then None
    else Held(disk, key)
  }

  ghost predicate PointsFor(trace: seq<Disk>, from: nat, before: Disk, key: nat, files: Directory) {
    forall i :: from <= i < |trace| ==> RollbackPoint(before, trace[i], key, files)
  }

  ghost predicate LossPassed(trace: seq<Disk>, from: nat, before: Disk, key: nat, files: Directory) {
    exists i :: from <= i < |trace| && !OldOrNew(before, trace[i], key, files)
  }

  ghost predicate StartsClean(
    before: Disk, disk: Disk, key: nat, backups: map<nat, Name>, installed: set<nat>, files: Directory,
    misread: Option<nat>)
  {
    && Undoable(before, disk, key, backups, installed, files, misread)
    && RollbackPoint(before, disk, key, files)
    && (key in installed || misread == Some(key) ==> AsideOnly(before, disk, key))
  }

  /**
   Undoes one target. From a clean start every state on the way is a rollback point; and unless the contents
   survive being taken apart, one of them is recovered to neither the old nor the new. A target that was not
   installed is not taken apart: it stays recoverable throughout.
   */
  method UndoOne(
    fs: FileSystem, key: nat, files: Directory, ghost before: Disk, backups: map<nat, Name>, installed: set<nat>,
    ghost misread: Option<nat>)
    returns (failed: bool)
    requires NamedBackups(backups)
    modifies fs`disk, fs`trace, fs`faults
    ensures fs.faults >= old(fs.faults)
    ensures failed && Undoable(before, old(fs.disk), key, backups, installed, files, misread) && misread != Some(key) ==>
      fs.faults > old(fs.faults)
    ensures forall k :: k != key ==> SameFor(old(fs.disk), fs.disk, k)
    ensures !failed ==> Held(fs.disk, key) == Undone(old(fs.disk), key, backups, installed)
    ensures !failed && key in backups ==> backups[key] !in fs.disk
    ensures old(fs.trace) <= fs.trace
    ensures forall i, k :: |old(fs.trace)| <= i < |fs.trace| && k != key ==> SameFor(old(fs.disk), fs.trace[i], k)
    ensures StartsClean(before, old(fs.disk), key, backups, installed, files, misread) ==>
      RollbackPoint(before, fs.disk, key, files) && PointsFor(fs.trace, |old(fs.trace)|, before, key, files)
    ensures StartsClean(before, old(fs.disk), key, backups, installed, files, misread)
      && !failed && key in installed && !SafeApart(Held(before, key), files)
      ==> LossPassed(fs.trace, |old(fs.trace)|, before, key, files)
    ensures StartsClean(before, old(fs.disk), key, backups, installed, files, misread)
      && key !in installed && Recoverable(old(fs.disk), key, Held(before, key), files)
      ==> Recoverable(fs.disk, key, Held(before, key), files) && PassesFor(fs.trace, |old(fs.trace)|, before, key, files)
  {
    ghost var clean := StartsClean(before, fs.disk, key, backups, installed, files, misread);
    if key in installed {
      failed := fs.RemoveSchemaDirectory(Target(key), files.Keys);
      RemovalKeeps(before, old(fs.disk), fs.disk, fs.trace, |old(fs.trace)|, key, files);
      if failed {
        return;
      }
    }
    ghost var apart, passed := fs.disk, fs.trace;
    assert clean && key in installed && !SafeApart(Held(before, key), files) ==>
      LossPassed(passed, |old(fs.trace)|, before, key, files) by
    {
      if clean && key in installed && !SafeApart(Held(before, key), files) {
        UnsafePassesLoss(before, apart, passed, |old(fs.trace)|, key, files);
      }
    }
    if key in backups && backups[key] in fs.disk {
      failed := RestoreBackup(fs, key, backups[key], files, before);
      PassedLater(passed, fs.trace, |old(fs.trace)|, before, key, files);
      forall k | k != key
        ensures SameFor(old(fs.disk), fs.disk, k)
      {
        SameForTrans(old(fs.disk), apart, fs.disk, k);
      }
      return;
    }
    return false;
  }

  /** Only a fault or a full directory in the way keeps a backup from being renamed into place. */
  method RestoreBackup(fs: FileSystem, key: nat, backup: Name, files: Directory, ghost before: Disk) returns (failed: bool)
    requires backup.Backup? && backup.key == key && backup in fs.disk
    modifies fs`disk, fs`trace, fs`faults
    ensures fs.faults >= old(fs.faults)
    ensures failed <==> fs.faults > old(fs.faults) || Held(old(fs.disk), key) !in {None, Some(map[])}
    ensures !failed ==> Held(fs.disk, key) == Some(old(fs.disk)[backup]) && backup !in fs.disk
    ensures forall k :: k != key ==> SameFor(old(fs.disk), fs.disk, k)
    ensures fs.trace == old(fs.trace) + [fs.disk]
    ensures Held(before, key) == Some(old(fs.disk)[backup]) ==>
      && (RollbackPoint(before, old(fs.disk), key, files) ==> RollbackPoint(before, fs.disk, key, files))
      && (Recoverable(old(fs.disk), key, Held(before, key), files) ==> Recoverable(fs.disk, key, Held(before, key), files))
  {
    ghost var was := fs.disk;
    failed := fs.Rename(backup, Target(key));
    PutBack(before, was, fs.disk, key, backup, files);
    if Recoverable(was, key, Held(before, key), files) && Held(before, key) == Some(was[backup]) {
      PutBackRecovers(before, was, fs.disk, key, backup, files);
    }
  }

  lemma PassedLater(trace: seq<Disk>, longer: seq<Disk>, from: nat, before: Disk, key: nat, files: Directory)
    requires trace <= longer
    ensures LossPassed(trace, from, before, key, files) ==> LossPassed(longer, from, before, key, files)
  {
    if LossPassed(trace, from, before, key, files) {
      var i :| from <= i < |trace| && !OldOrNew(before, trace[i], key, files);
      assert longer[i] == trace[i];
    }
  }

  /** Taking the target apart touches no other target and no backup. */
  lemma RemovalKeeps(before: Disk, was: Disk, disk: Disk, trace: seq<Disk>, from: nat, key: nat, files: Directory)
    requires TakenApart(was, disk, Target(key))
    requires forall i :: from <= i < |trace| ==> TakenApart(was, trace[i], Target(key))
    ensures forall k :: k != key ==> SameFor(was, disk, k)
    ensures forall i, k :: from <= i < |trace| && k != key ==> SameFor(was, trace[i], k)
    ensures forall n: Name :: n != Target(key) ==> (n in was <==> n in disk) && (n in was ==> was[n] == disk[n])
    ensures HoldsNew(was, key, files) && AsideOnly(before, was, key) ==>
      && AsideOnly(before, disk, key) && RollbackPoint(before, disk, key, files)
      && PointsFor(trace, from, before, key, files)
  {
    forall left, k | TakenApart(was, left, Target(key)) && k != key
      ensures SameFor(was, left, k)
    {
      ChangeKeepsOthers(was, left, Target(key), k);
    }
    forall n: Name | n != Target(key)
      ensures (n in was <==> n in disk) && (n in was ==> was[n] == disk[n])
    {
      ChangeKeepsName(was, disk, Target(key), n);
    }
    if HoldsNew(was, key, files) && AsideOnly(before, was, key) {
      forall left | TakenApart(was, left, Target(key))
        ensures AsideOnly(before, left, key) && RollbackPoint(before, left, key, files)
      {
        ApartIsPoint(before, was, left, key, files);
      }
    }
  }

  /** The rename that puts the backup in place, done or not. */
  lemma PutBack(before: Disk, was: Disk, disk: Disk, key: nat, backup: Name, files: Directory)
    requires backup.Backup? && backup.key == key && backup in was
    requires disk == was || (CanRename(was, backup, Target(key)) && disk == Renamed(was, backup, Target(key)))
    ensures forall k :: k != key ==> SameFor(was, disk, k)
    ensures (RollbackPoint(before, was, key, files) && Target(key) in before && was[backup] == before[Target(key)]) ==>
      RollbackPoint(before, disk, key, files)
  {
    if disk != was {
      forall k | k != key
        ensures SameFor(was, disk, k)
      {
        RenameKeepsOthers(was, backup, Target(key), k);
      }
    }
  }

  /** Done or not, the rename that puts the old content back leaves the target recoverable. */
  lemma PutBackRecovers(before: Disk, was: Disk, disk: Disk, key: nat, backup: Name, files: Directory)
    requires backup.Backup? && backup.key == key && backup in was
    requires Recoverable(was, key, Held(before, key), files) && Held(before, key) == Some(was[backup])
    requires disk == was || (CanRename(was, backup, Target(key)) && disk == Renamed(was, backup, Target(key)))
    ensures Recoverable(disk, key, Held(before, key), files)
  {
    if disk != was {
      assert BackupsOf(disk, key) <= BackupsOf(was, key);
    }
  }

  // ----- the loop over all targets ---------------------------------------------------------------

  ghost predicate AllUndoable(
    before: Disk, disk: Disk, keys: seq<nat>, backups: map<nat, Name>, installed: set<nat>, files: Directory,
    misread: Option<nat>)
  {
    forall j :: 0 <= j < |keys| ==> Undoable(before, disk, keys[j], backups, installed, files, misread)
  }

  /** What undoing a target `count` times leaves: an installed one is only restored by the first. */
  ghost predicate UndoneTimes(
    before: Disk, disk: Disk, key: nat, count: nat, backups: map<nat, Name>, installed: set<nat>, files: Directory,
    misread: Option<nat>, failed: bool)
  {
    if count == 0 then Undoable(before, disk, key, backups, installed, files, misread)
    else !failed ==>
      && (key in backups ==> backups[key] !in disk)
      && Held(disk, key) == if count == 1 || key !in installed then Restored(before, key, files, misread) else None
  }

  lemma UndoneOnceMore(
    before: Disk, was: Disk, disk: Disk, key: nat, count: nat, backups: map<nat, Name>, installed: set<nat>, files: Directory,
    misread: Option<nat>, failed: bool, failedNow: bool)
    requires UndoneTimes(before, was, key, count, backups, installed, files, misread, failed)
    requires !failedNow ==> Held(disk, key) == Undone(was, key, backups, installed) && (key in backups ==> backups[key] !in disk)
    ensures UndoneTimes(before, disk, key, count + 1, backups, installed, files, misread, failed || failedNow)
  {
  }

  lemma UndoneCarries(
    before: Disk, was: Disk, disk: Disk, key: nat, count: nat, backups: map<nat, Name>, installed: set<nat>, files: Directory,
    misread: Option<nat>, failed: bool, failedNow: bool)
    requires NamedBackups(backups) && SameFor(was, disk, key)
    requires UndoneTimes(before, was, key, count, backups, installed, files, misread, failed)
    ensures UndoneTimes(before, disk, key, count, backups, installed, files, misread, failed || failedNow)
  {
    assert Target(key).key == key;
    if count == 0 {
      UndoableCarries(before, was, disk, key, backups, installed, files, misread);
    }
  }

  ghost predicate AllUndone(
    before: Disk, disk: Disk, keys: seq<nat>, i: nat, backups: map<nat, Name>, installed: set<nat>, files: Directory,
    misread: Option<nat>, failed: bool)
    requires i <= |keys|
  {
    forall k :: k in keys ==> UndoneTimes(before, disk, k, multiset(keys[i..])[k], backups, installed, files, misread, failed)
  }

  lemma AllUndoneSteps(
    before: Disk, was: Disk, disk: Disk, keys: seq<nat>, i: nat, backups: map<nat, Name>, installed: set<nat>, files: Directory,
    misread: Option<nat>, failed: bool, failedNow: bool)
    requires i < |keys| && NamedBackups(backups)
    requires AllUndone(before, was, keys, i + 1, backups, installed, files, misread, failed)
    requires forall k :: k != keys[i] ==> SameFor(was, disk, k)
    requires !failedNow ==> Held(disk, keys[i]) == Undone(was, keys[i], backups, installed)
                            && (keys[i] in backups ==> backups[keys[i]] !in disk)
    ensures AllUndone(before, disk, keys, i, backups, installed, files, misread, failed || failedNow)
  {
    assert keys[i..] == [keys[i]] + keys[i + 1..];
    forall k | k in keys
      ensures UndoneTimes(before, disk, k, multiset(keys[i..])[k], backups, installed, files, misread, failed || failedNow)
    {
      var count := multiset(keys[i + 1..])[k];
      if k == keys[i] {
        UndoneOnceMore(before, was, disk, k, count, backups, installed, files, misread, failed, failedNow);
      } else {
        UndoneCarries(before, was, disk, k, count, backups, installed, files, misread, failed, failedNow);
      }
    }
  }

  /** No target is listed twice, and each can be undone with nothing else in the way. */
  ghost predicate CleanStart(
    before: Disk, disk: Disk, keys: seq<nat>, backups: map<nat, Name>, installed: set<nat>, files: Directory,
    misread: Option<nat>)
  {
    && DistinctKeys(keys)
    && AllUndoable(before, disk, keys, backups, installed, files, misread)
    && AllPoints(before, disk, keys, installed, files, misread)
  }

  /** From a clean start: where the loop stands. */
  ghost predicate CleanProgress(
    before: Disk, disk: Disk, trace: seq<Disk>, from: nat, keys: seq<nat>, i: nat,
    backups: map<nat, Name>, installed: set<nat>, files: Directory,
    misread: Option<nat>, failed: bool)
  {
    && (forall j :: 0 <= j < i <= |keys| ==> StartsClean(before, disk, keys[j], backups, installed, files, misread))
    && (forall j :: i <= j < |keys| ==> RollbackPoint(before, disk, keys[j], files))
    && PassesPoints(trace, from, before, keys, files)
    && (!failed ==> forall j :: i <= j < |keys| && keys[j] in installed && !SafeApart(Held(before, keys[j]), files) ==>
          LossPassed(trace, from, before, keys[j], files))
  }

  ghost predicate PassesPoints(trace: seq<Disk>, from: nat, before: Disk, keys: seq<nat>, files: Directory) {
    forall m, j :: from <= m < |trace| && 0 <= j < |keys| ==> RollbackPoint(before, trace[m], keys[j], files)
  }

  lemma PassesPointsGrow(
    was: Disk, passed: seq<Disk>, trace: seq<Disk>, from: nat, before: Disk, keys: seq<nat>, i: nat, files: Directory)
    requires DistinctKeys(keys) && i < |keys| && from <= |passed| && passed <= trace
    requires PassesPoints(passed, from, before, keys, files)
    requires forall j :: 0 <= j < |keys| ==> RollbackPoint(before, was, keys[j], files)
    requires forall m, k :: |passed| <= m < |trace| && k != keys[i] ==> SameFor(was, trace[m], k)
    requires PointsFor(trace, |passed|, before, keys[i], files)
    ensures PassesPoints(trace, from, before, keys, files)
  {
    forall m, j | from <= m < |trace| && 0 <= j < |keys|
      ensures RollbackPoint(before, trace[m], keys[j], files)
    {
      if m < |passed| {
        assert trace[m] == passed[m];
      } else if j != i {
        assert keys[j] != keys[i];
        SameForPoint(before, was, trace[m], keys[j], files);
      }
    }
  }

  lemma CleanCarries(
    before: Disk, was: Disk, disk: Disk, key: nat, backups: map<nat, Name>, installed: set<nat>, files: Directory,
    misread: Option<nat>)
    requires SameFor(was, disk, key) && StartsClean(before, was, key, backups, installed, files, misread)
    ensures StartsClean(before, disk, key, backups, installed, files, misread)
  {
    UndoableCarries(before, was, disk, key, backups, installed, files, misread);
    SameForPoint(before, was, disk, key, files);
  }

  lemma CleanSteps(
    before: Disk, was: Disk, disk: Disk, passed: seq<Disk>, trace: seq<Disk>, from: nat, keys: seq<nat>, i: nat,
    backups: map<nat, Name>, installed: set<nat>, files: Directory,
    misread: Option<nat>, failed: bool, failedNow: bool)
    requires DistinctKeys(keys) && i < |keys| && from <= |passed| && passed <= trace
    requires CleanProgress(before, was, passed, from, keys, i + 1, backups, installed, files, misread, failed)
    requires forall k :: k != keys[i] ==> SameFor(was, disk, k)
    requires forall m, k :: |passed| <= m < |trace| && k != keys[i] ==> SameFor(was, trace[m], k)
    requires RollbackPoint(before, disk, keys[i], files) && PointsFor(trace, |passed|, before, keys[i], files)
    requires !failedNow && keys[i] in installed && !SafeApart(Held(before, keys[i]), files) ==>
      LossPassed(trace, |passed|, before, keys[i], files)
    ensures CleanProgress(before, disk, trace, from, keys, i, backups, installed, files, misread, failed || failedNow)
  {
    PassesPointsGrow(was, passed, trace, from, before, keys, i, files);
    forall j | 0 <= j < |keys| && j != i
      ensures keys[j] != keys[i] && SameFor(was, disk, keys[j])
      ensures j < i ==> StartsClean(before, disk, keys[j], backups, installed, files, misread)
      ensures j > i ==> RollbackPoint(before, disk, keys[j], files)
    {
      assert keys[j] != keys[i];
      SameForPoint(before, was, disk, keys[j], files);
      if j < i {
        CleanCarries(before, was, disk, keys[j], backups, installed, files, misread);
      }
    }
    forall j | i <= j < |keys| && keys[j] in installed && !SafeApart(Held(before, keys[j]), files) && !failed && !failedNow
      ensures LossPassed(trace, from, before, keys[j], files)
    {
      if j > i {
        PassedLater(passed, trace, from, before, keys[j], files);
      }
    }
  }

  /**
   Undoes the targets from the last to the first. Without an error each is restored, except that an installed
   one listed again is taken away again, and that new files standing unknown where nothing was before stay.
   With no target listed twice, and from a clean start, every state passed through is a rollback point for
   every target; a completed rollback of installed contents that do not survive being taken apart has passed a
   state recovered to neither the old nor the new; and with nothing installed every state stays recoverable. With
   every target known as it is and listed once, only a fault stops it.
   */
  method Rollback(
    fs: FileSystem, keys: seq<nat>, files: Directory, ghost before: Disk, backups: map<nat, Name>, installed: set<nat>,
    ghost misread: Option<nat>)
    returns (failed: bool)
    requires NamedBackups(backups)
    modifies fs`disk, fs`trace, fs`faults
    ensures fs.faults >= old(fs.faults)
    ensures failed && DistinctKeys(keys) && AllUndoable(before, old(fs.disk), keys, backups, installed, files, None) ==>
      fs.faults > old(fs.faults) || misread.Some?
    ensures !failed && AllUndoable(before, old(fs.disk), keys, backups, installed, files, misread) ==>
      forall i :: 0 <= i < |keys| ==>
        Held(fs.disk, keys[i])
        == if multiset(keys)[keys[i]] == 1 || keys[i] !in installed then Restored(before, keys[i], files, misread) else None
    ensures forall k :: k !in keys ==> SameFor(old(fs.disk), fs.disk, k)
    ensures old(fs.trace) <= fs.trace
    ensures CleanStart(before, old(fs.disk), keys, backups, installed, files, misread) ==>
      && PassesPoints(fs.trace, |old(fs.trace)|, before, keys, files)
      && (!failed ==> forall j :: 0 <= j < |keys| && keys[j] in installed && !SafeApart(Held(before, keys[j]), files) ==>
            LossPassed(fs.trace, |old(fs.trace)|, before, keys[j], files))
    ensures installed == {} && CleanStart(before, old(fs.disk), keys, backups, installed, files, misread)
      && AllRecoverable(old(fs.disk), before, keys, files)
      ==> AllRecoverable(fs.disk, before, keys, files) && PassesRecoverable(fs.trace, |old(fs.trace)|, before, keys, files)
  {
    ghost var from := |fs.trace|;
    failed := false;
    NoneUndone(before, fs.disk, fs.trace, keys, backups, installed, files, misread);
    var i := |keys|;
    while i > 0
      invariant 0 <= i <= |keys|
      invariant old(fs.trace) <= fs.trace
      invariant forall k :: k !in keys ==> SameFor(old(fs.disk), fs.disk, k)
      invariant Undoing(before, old(fs.disk), fs.disk, fs.trace, from, keys, i, backups, installed, files, misread, failed)
      invariant fs.faults >= old(fs.faults)
      invariant failed && DistinctKeys(keys) && AllUndoable(before, old(fs.disk), keys, backups, installed, files, None) ==>
        fs.faults > old(fs.faults) || misread.Some?
    {
      i := i - 1;
      ghost var was, passed, failedBefore := fs.disk, fs.trace, failed;
      StillUndoable(before, old(fs.disk), was, passed, from, keys, i, backups, installed, files, misread, failed);
      var undone := UndoOne(fs, keys[i], files, before, backups, installed, misread);
      failed := failed || undone;
      OthersStay(old(fs.disk), was, fs.disk, keys, keys[i]);
      UndoingSteps(
        before, old(fs.disk), was, fs.disk, passed, fs.trace, from, keys, i, backups, installed, files, misread,
        failedBefore, undone);
    }
    if AllUndoable(before, old(fs.disk), keys, backups, installed, files, misread) && !failed {
      EachUndone(before, fs.disk, keys, backups, installed, files, misread);
    }
  }

  /** Where the loop stands, from whichever of the three starts it set out. */
  ghost predicate Undoing(
    before: Disk, start: Disk, disk: Disk, trace: seq<Disk>, from: nat, keys: seq<nat>, i: nat,
    backups: map<nat, Name>, installed: set<nat>, files: Directory, misread: Option<nat>, failed: bool)
  {
    && i <= |keys|
    && (AllUndoable(before, start, keys, backups, installed, files, misread) ==>
          AllUndone(before, disk, keys, i, backups, installed, files, misread, failed))
    && (CleanStart(before, start, keys, backups, installed, files, misread) ==>
          CleanProgress(before, disk, trace, from, keys, i, backups, installed, files, misread, failed))
    && (installed == {} && CleanStart(before, start, keys, backups, installed, files, misread)
        && AllRecoverable(start, before, keys, files) ==>
          AllRecoverable(disk, before, keys, files) && PassesRecoverable(trace, from, before, keys, files))
  }

  lemma UndoingSteps(
    before: Disk, start: Disk, was: Disk, disk: Disk, passed: seq<Disk>, trace: seq<Disk>, from: nat, keys: seq<nat>, i: nat,
    backups: map<nat, Name>, installed: set<nat>, files: Directory, misread: Option<nat>, failed: bool, failedNow: bool)
    requires i < |keys| && NamedBackups(backups) && from <= |passed| && passed <= trace
    requires Undoing(before, start, was, passed, from, keys, i + 1, backups, installed, files, misread, failed)
    requires forall k :: k != keys[i] ==> SameFor(was, disk, k)
    requires forall m, k :: |passed| <= m < |trace| && k != keys[i] ==> SameFor(was, trace[m], k)
    requires !failedNow ==> Held(disk, keys[i]) == Undone(was, keys[i], backups, installed)
                            && (keys[i] in backups ==> backups[keys[i]] !in disk)
    requires StartsClean(before, was, keys[i], backups, installed, files, misread) ==>
      && RollbackPoint(before, disk, keys[i], files) && PointsFor(trace, |passed|, before, keys[i], files)
      && (!failedNow && keys[i] in installed && !SafeApart(Held(before, keys[i]), files) ==>
            LossPassed(trace, |passed|, before, keys[i], files))
      && (keys[i] !in installed && Recoverable(was, keys[i], Held(before, keys[i]), files) ==>
            Recoverable(disk, keys[i], Held(before, keys[i]), files) && PassesFor(trace, |passed|, before, keys[i], files))
    ensures Undoing(before, start, disk, trace, from, keys, i, backups, installed, files, misread, failed || failedNow)
  {
    if AllUndoable(before, start, keys, backups, installed, files, misread) {
      AllUndoneSteps(before, was, disk, keys, i, backups, installed, files, misread, failed, failedNow);
    }
    if CleanStart(before, start, keys, backups, installed, files, misread) {
      CleanSteps(before, was, disk, passed, trace, from, keys, i, backups, installed, files, misread, failed, failedNow);
      if installed == {} && AllRecoverable(start, before, keys, files) {
        PassedOne(was, before, passed, trace, disk, keys, i, files, from);
      }
    }
  }

  /** A target listed once is undone only in its turn. */
  lemma StillUndoable(
    before: Disk, start: Disk, was: Disk, passed: seq<Disk>, from: nat, keys: seq<nat>, i: nat,
    backups: map<nat, Name>, installed: set<nat>, files: Directory, misread: Option<nat>, failed: bool)
    requires i < |keys|
    requires Undoing(before, start, was, passed, from, keys, i + 1, backups, installed, files, misread, failed)
    ensures DistinctKeys(keys) && AllUndoable(before, start, keys, backups, installed, files, misread) ==>
      Undoable(before, was, keys[i], backups, installed, files, misread)
  {
    if DistinctKeys(keys) && AllUndoable(before, start, keys, backups, installed, files, misread) {
      assert keys[i] !in keys[i + 1..] && multiset(keys[i + 1..])[keys[i]] == 0;
      assert keys[i] in keys;
      assert UndoneTimes(
        before, was, keys[i], multiset(keys[i + 1..])[keys[i]], backups, installed, files, misread, failed);
    }
  }

  lemma NoneUndone(
    before: Disk, disk: Disk, trace: seq<Disk>, keys: seq<nat>, backups: map<nat, Name>, installed: set<nat>, files: Directory,
    misread: Option<nat>)
    ensures Undoing(before, disk, disk, trace, |trace|, keys, |keys|, backups, installed, files, misread, false)
  {
  }

  lemma EachUndone(
    before: Disk, disk: Disk, keys: seq<nat>, backups: map<nat, Name>, installed: set<nat>, files: Directory,
    misread: Option<nat>)
    requires AllUndone(before, disk, keys, 0, backups, installed, files, misread, false)
    ensures forall i :: 0 <= i < |keys| ==>
      Held(disk, keys[i])
      == if multiset(keys)[keys[i]] == 1 || keys[i] !in installed then Restored(before, keys[i], files, misread) else None
  {
    assert keys[0..] == keys;
    forall i | 0 <= i < |keys|
      ensures Held(disk, keys[i])
        == if multiset(keys)[keys[i]] == 1 || keys[i] !in installed then Restored(before, keys[i], files, misread) else None
    {
      assert multiset(keys)[keys[i]] > 0;
    }
  }

  lemma DistinctCount(keys: seq<nat>, i: nat)
    requires DistinctKeys(keys) && i < |keys|
    ensures multiset(keys)[keys[i]] == 1
  {
    NoDupCount(keys, keys[i]);
  }
}

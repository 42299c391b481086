/**
 The forward half of the schema swap: move every target aside and its stage into place
 (src/openworkproof/agency_schema_registry.py:679-703).
 */
module SchemaInstall {
  import opened Collections
  import opened SchemaFiles
  import opened SchemaStates

  /** Every recorded backup carries the key of its target. */
  ghost predicate NamedBackups(backups: map<nat, Name>) {
    forall k :: k in backups ==> backups[k].Backup? && backups[k].key == k
  }

  ghost predicate OnlyAdds(had: map<nat, Name>, backups: map<nat, Name>, key: nat) {
    && backups.Keys <= had.Keys + {key}
    && forall k :: k in had ==> k in backups && (k != key ==> backups[k] == had[k])
  }

  ghost predicate NoNewStage(before: Disk, disk: Disk) {
    forall n: Name :: n.Stage? && n !in before ==> n !in disk
  }

  /** A target not yet touched, its stage ready. */
  ghost predicate Untouched(before: Disk, disk: Disk, key: nat, stage: Name, files: Directory, backups: map<nat, Name>) {
    key !in backups && HoldsOld(before, disk, key) && StageReady(disk, key, stage, files)
  }

  /** Since `from`, every state keeps the other targets and leaves this one recoverable. */
  ghost predicate PassesFor(trace: seq<Disk>, from: nat, before: Disk, key: nat, files: Directory) {
    forall i :: from <= i < |trace| ==> Recoverable(trace[i], key, Held(before, key), files)
  }

  /** The three states the backup half can be in. */
  lemma MoveAsideStates(before: Disk, was: Disk, key: nat, backup: Name, files: Directory)
    requires Target(key) in was && backup.Backup? && backup.key == key && backup !in was
    ensures var (probe, aside) := (was[backup := map[]], Renamed(was, Target(key), backup));
      && (forall k :: k != key ==> SameFor(was, probe, k) && SameFor(was, aside, k))
      && Target(key) !in aside
      && (HoldsOld(before, was, key) && BackupsOf(was, key) == {} ==>
            && Recoverable(was, key, Held(before, key), files)
            && Recoverable(probe, key, Held(before, key), files)
            && Recoverable(aside, key, Held(before, key), files)
            && AsideOnly(before, aside, key))
  {
    forall k | k != key
      ensures SameFor(was, Renamed(was, Target(key), backup), k)
    {
      RenameKeepsOthers(was, Target(key), backup, k);
    }
    if HoldsOld(before, was, key) && BackupsOf(was, key) == {} {
      assert Recoverable(was, key, Held(before, key), files);
      ProbeKeepsRecoverable(was, backup, key, Held(before, key), files);
      BackupRenameKeepsRecoverable(was, backup, key, files);
    }
  }

  /** The backup half: an error counts as done only if the old target is gone and its backup is there. */
  method MoveAside(fs: FileSystem, key: nat, files: Directory, ghost before: Disk, backups: map<nat, Name>)
    returns (raised: bool, backups': map<nat, Name>)
    requires NamedBackups(backups) && Target(key) in fs.disk
    modifies fs`disk, fs`trace, fs`faults
    ensures fs.faults >= old(fs.faults) && (raised ==> fs.faults > old(fs.faults))
    ensures NamedBackups(backups') && OnlyAdds(backups, backups', key)
    ensures raised ==> backups' == backups
    ensures !raised ==> Target(key) !in fs.disk
    ensures forall k :: k != key ==> SameFor(old(fs.disk), fs.disk, k)
    ensures forall n: Name :: n.Stage? ==> (n in fs.disk <==> n in old(fs.disk)) && (n in fs.disk ==> fs.disk[n] == old(fs.disk)[n])
    ensures key !in backups && HoldsOld(before, old(fs.disk), key) ==>
      if raised then HoldsOld(before, fs.disk, key) else key in backups' && Vacated(before, fs.disk, key, backups')
    ensures old(fs.trace) <= fs.trace
    ensures forall i, k :: |old(fs.trace)| <= i < |fs.trace| && k != key ==> SameFor(old(fs.disk), fs.trace[i], k)
    ensures HoldsOld(before, old(fs.disk), key) && BackupsOf(old(fs.disk), key) == {} ==>
      && Recoverable(fs.disk, key, Held(before, key), files)
      && PassesFor(fs.trace, |old(fs.trace)|, before, key, files)
      && (!raised ==> AsideOnly(before, fs.disk, key))
  {
    backups' := backups;
    var backup;
    raised, backup := fs.UnusedBackupPath(key);
    MoveAsideStates(before, old(fs.disk), key, backup, files);
    if raised {
      return;
    }
    raised := fs.Rename(Target(key), backup);
    if raised && (Target(key) in fs.disk || backup !in fs.disk) {
      return;
    }
    raised := false;
    backups' := backups'[key := backup];
  }

  /** The rename into place: an error counts as done only if the new files are read back. */
  method MoveIntoPlace(fs: FileSystem, key: nat, stage: Name, files: Directory) returns (raised: bool, ghost misread: bool)
    requires stage.Stage? && stage.key == key && Target(key) !in fs.disk
    modifies fs
    ensures fs.disk == old(fs.disk) || (stage in old(fs.disk) && fs.disk == Renamed(old(fs.disk), stage, Target(key)))
    ensures !raised ==> fs.disk != old(fs.disk)
    ensures StageReady(old(fs.disk), key, stage, files) ==> (fs.disk != old(fs.disk) <==> !raised || misread)
    ensures misread ==> raised && fs.failedReads > old(fs.failedReads)
    ensures fs.failedReads >= old(fs.failedReads) && fs.faults >= old(fs.faults)
    ensures raised && stage in old(fs.disk) ==> fs.faults > old(fs.faults)
    ensures fs.trace == old(fs.trace) + [fs.disk]
  {
    misread := false;
    raised := fs.Rename(stage, Target(key));
    if raised {
      var matches := fs.ReadbackMatches(Target(key), files);
      raised := !matches;
      misread := raised && HoldsNew(fs.disk, key, files);
    }
  }

  /** Moves one target aside and its stage into place. */
  method InstallOne(fs: FileSystem, key: nat, stage: Name, files: Directory, ghost before: Disk, backups: map<nat, Name>)
    returns (raised: bool, backups': map<nat, Name>, ghost misread: bool)
    requires NamedBackups(backups) && stage.Stage? && stage.key == key
    modifies fs
    ensures NamedBackups(backups') && OnlyAdds(backups, backups', key)
    ensures !raised ==> stage !in fs.disk
    ensures NoNewStage(old(fs.disk), fs.disk)
    ensures forall k :: k != key ==> SameFor(old(fs.disk), fs.disk, k)
    ensures Untouched(before, old(fs.disk), key, stage, files, backups) ==>
      if !raised || misread then Installed(before, fs.disk, key, backups', files)
      else (key !in backups' && HoldsOld(before, fs.disk, key)) || Vacated(before, fs.disk, key, backups')
    ensures misread ==> raised && fs.failedReads > old(fs.failedReads)
    ensures fs.failedReads >= old(fs.failedReads) && fs.faults >= old(fs.faults)
    ensures raised && stage in old(fs.disk) ==> fs.faults > old(fs.faults)
    ensures old(fs.trace) <= fs.trace
    ensures forall i, k :: |old(fs.trace)| <= i < |fs.trace| && k != key ==> SameFor(old(fs.disk), fs.trace[i], k)
    ensures Untouched(before, old(fs.disk), key, stage, files, backups) && BackupsOf(old(fs.disk), key) == {} ==>
      && Recoverable(fs.disk, key, Held(before, key), files)
      && PassesFor(fs.trace, |old(fs.trace)|, before, key, files)
      && RollbackPoint(before, fs.disk, key, files)
      && (!raised || misread ==> AsideOnly(before, fs.disk, key))
  {
    ghost var tidy := Untouched(before, fs.disk, key, stage, files, backups) && BackupsOf(fs.disk, key) == {};
    backups', misread := backups, false;
    if Target(key) in fs.disk {
      raised, backups' := MoveAside(fs, key, files, before, backups);
      if raised {
        return;
      }
    }
    ghost var aside, asideTrace := fs.disk, fs.trace;
    if tidy {
      assert AsideOnly(before, aside, key);
      assert Recoverable(aside, key, Held(before, key), files) && PassesFor(asideTrace, |old(fs.trace)|, before, key, files);
    }
    raised, misread := MoveIntoPlace(fs, key, stage, files);
    RenamedOrNot(aside, fs.disk, stage, key);
    if Untouched(before, old(fs.disk), key, stage, files, backups) {
      IntoPlace(before, aside, fs.disk, key, stage, backups', files);
    }
    forall k | k != key
      ensures SameFor(old(fs.disk), fs.disk, k)
    {
      SameForTrans(old(fs.disk), aside, fs.disk, k);
    }
  }

  /** Done or not, the rename into place leaves the target installed or vacated, and safe if it was. */
  lemma IntoPlace(
    before: Disk, aside: Disk, disk: Disk, key: nat, stage: Name, backups: map<nat, Name>, files: Directory)
    requires StageReady(aside, key, stage, files) && Vacated(before, aside, key, backups)
    requires disk == aside || disk == Renamed(aside, stage, Target(key))
    ensures if disk != aside then Installed(before, disk, key, backups, files) else Vacated(before, disk, key, backups)
    ensures AsideOnly(before, aside, key) && Recoverable(aside, key, Held(before, key), files) ==>
      && AsideOnly(before, disk, key) && RollbackPoint(before, disk, key, files)
      && Recoverable(disk, key, Held(before, key), files)
  {
    if disk != aside && AsideOnly(before, aside, key) && Recoverable(aside, key, Held(before, key), files) {
      InstallRenameKeepsRecoverable(aside, stage, key, Held(before, key), files);
      assert BackupsOf(disk, key) == BackupsOf(aside, key);
      AsideCarries(before, aside, disk, key);
    }
  }

  /** The rename into place touches no other target and no backup. */
  lemma RenamedOrNot(was: Disk, disk: Disk, stage: Name, key: nat)
    requires stage.Stage? && stage.key == key
    requires disk == was || (CanRename(was, stage, Target(key)) && disk == Renamed(was, stage, Target(key)))
    ensures forall k :: k != key ==> SameFor(was, disk, k)
    ensures BackupsOf(disk, key) == BackupsOf(was, key)
    ensures forall n :: n in BackupsOf(was, key) ==> n in disk && disk[n] == was[n]
    ensures NoNewStage(was, disk)
  {
    if disk != was {
      forall k | k != key
        ensures SameFor(was, disk, k)
      {
        RenameKeepsOthers(was, stage, Target(key), k);
      }
    }
    assert BackupsOf(disk, key) == BackupsOf(was, key);
  }

  // ----- the loop over all targets -----------------------------------------------------------

  /** Targets before `i` can be undone; the others are as they were on `before`. */
  ghost predicate SwapState(
    before: Disk, disk: Disk, keys: seq<nat>, i: nat, backups: map<nat, Name>, installed: set<nat>, files: Directory,
    misread: Option<nat>)
  {
    && i <= |keys|
    && (forall k :: k in backups || k in installed || misread == Some(k) ==> k in keys[..i])
    && (forall j :: 0 <= j < i ==> Undoable(before, disk, keys[j], backups, installed, files, misread))
    && (forall j :: i <= j < |keys| ==> SameFor(before, disk, keys[j]))
  }

  /** Every target may be rolled back from here, and those installed have their old content aside. */
  ghost predicate AllPoints(
    before: Disk, disk: Disk, keys: seq<nat>, installed: set<nat>, files: Directory, misread: Option<nat>)
  {
    forall j :: 0 <= j < |keys| ==>
      && RollbackPoint(before, disk, keys[j], files)
      && (keys[j] in installed || misread == Some(keys[j]) ==> AsideOnly(before, disk, keys[j]))
  }

  lemma SwapStateSteps(
    before: Disk, was: Disk, disk: Disk, keys: seq<nat>, i: nat,
    had: map<nat, Name>, backups: map<nat, Name>, installed: set<nat>, installed': set<nat>, files: Directory,
    misread: Option<nat>)
    requires DistinctKeys(keys) && i < |keys| && SwapState(before, was, keys, i, had, installed, files, None)
    requires misread in {None, Some(keys[i])}
    requires OnlyAdds(had, backups, keys[i])
    requires installed <= installed' <= installed + {keys[i]}
    requires forall k :: k != keys[i] ==> SameFor(was, disk, k)
    requires Undoable(before, disk, keys[i], backups, installed', files, misread)
    ensures SwapState(before, disk, keys, i + 1, backups, installed', files, misread)
  {
    assert keys[..i + 1] == keys[..i] + [keys[i]];
    forall j | 0 <= j < i
      ensures Undoable(before, disk, keys[j], backups, installed', files, misread)
    {
      assert keys[j] != keys[i];
      EarlierStays(before, was, disk, keys[j], keys[i], had, backups, installed, installed', files, misread);
    }
    forall j | i + 1 <= j < |keys|
      ensures SameFor(before, disk, keys[j])
    {
      assert keys[j] != keys[i];
      SameForTrans(before, was, disk, keys[j]);
    }
  }

  /** What the step for `next` does to an earlier target. */
  lemma EarlierStays(
    before: Disk, was: Disk, disk: Disk, key: nat, next: nat,
    had: map<nat, Name>, backups: map<nat, Name>, installed: set<nat>, installed': set<nat>, files: Directory,
    misread: Option<nat>)
    requires key != next && OnlyAdds(had, backups, next) && misread in {None, Some(next)}
    requires installed <= installed' <= installed + {next} && SameFor(was, disk, key)
    requires Undoable(before, was, key, had, installed, files, None)
    ensures Undoable(before, disk, key, backups, installed', files, misread)
  {
    UndoableCarries(before, was, disk, key, had, installed, files, None);
    assert key in installed' <==> key in installed;
  }

  lemma SwapStateUndoes(
    before: Disk, disk: Disk, keys: seq<nat>, i: nat, backups: map<nat, Name>, installed: set<nat>, files: Directory,
    misread: Option<nat>)
    requires DistinctKeys(keys) && SwapState(before, disk, keys, i, backups, installed, files, misread)
    ensures forall j :: 0 <= j < |keys| ==> Undoable(before, disk, keys[j], backups, installed, files, misread)
  {
    forall j | i <= j < |keys|
      ensures Undoable(before, disk, keys[j], backups, installed, files, misread)
    {
      LaterKey(keys, i, j);
      assert Target(keys[j]).key == keys[j];
    }
  }

  lemma LaterKey(keys: seq<nat>, i: nat, j: nat)
    requires DistinctKeys(keys) && i <= j < |keys|
    ensures keys[j] !in keys[..i]
  {
  }

  lemma NextUntouched(
    before: Disk, disk: Disk, keys: seq<nat>, i: nat, stage: Name, backups: map<nat, Name>, installed: set<nat>, files: Directory)
    requires DistinctKeys(keys) && i < |keys| && SwapState(before, disk, keys, i, backups, installed, files, None)
    requires StageReady(before, keys[i], stage, files)
    ensures Untouched(before, disk, keys[i], stage, files, backups) && keys[i] !in installed
    ensures BackupsOf(disk, keys[i]) == BackupsOf(before, keys[i])
  {
    LaterKey(keys, i, i);
    assert Target(keys[i]).key == keys[i] && stage.key == keys[i];
    assert BackupsOf(disk, keys[i]) == BackupsOf(before, keys[i]);
  }

  lemma PointsStep(
    before: Disk, was: Disk, disk: Disk, keys: seq<nat>, i: nat, installed: set<nat>, installed': set<nat>, files: Directory,
    misread: Option<nat>)
    requires DistinctKeys(keys) && i < |keys| && AllPoints(before, was, keys, installed, files, None)
    requires misread in {None, Some(keys[i])}
    requires installed' <= installed + {keys[i]}
    requires forall k :: k != keys[i] ==> SameFor(was, disk, k)
    requires RollbackPoint(before, disk, keys[i], files)
    requires keys[i] in installed' || misread == Some(keys[i]) ==> AsideOnly(before, disk, keys[i])
    ensures AllPoints(before, disk, keys, installed', files, misread)
  {
    forall j | 0 <= j < |keys| && j != i
      ensures RollbackPoint(before, disk, keys[j], files) && (keys[j] in installed' ==> AsideOnly(before, disk, keys[j]))
    {
      assert keys[j] != keys[i];
      SameForPoint(before, was, disk, keys[j], files);
    }
  }

  lemma FirstPoints(before: Disk, keys: seq<nat>, files: Directory)
    requires forall j :: 0 <= j < |keys| ==> BackupsOf(before, keys[j]) == {}
    ensures AllPoints(before, before, keys, {}, files, None)
  {
  }

  /** The first loop. What it leaves can be undone, if no target is listed twice. */
  method InstallAll(fs: FileSystem, keys: seq<nat>, stages: seq<Name>, files: Directory)
    returns (raised: bool, backups: map<nat, Name>, installed: set<nat>, ghost misread: Option<nat>)
    requires |stages| == |keys|
    requires forall i :: 0 <= i < |keys| ==> StageReady(fs.disk, keys[i], stages[i], files)
    modifies fs
    ensures NamedBackups(backups) && forall k :: k in backups ==> k in keys
    ensures !raised ==> forall j :: 0 <= j < |keys| ==> keys[j] in installed && stages[j] !in fs.disk
    ensures raised && |keys| == 1 ==> installed == {}
    ensures misread.Some? ==> raised && fs.failedReads > old(fs.failedReads)
    ensures fs.failedReads >= old(fs.failedReads) && fs.faults >= old(fs.faults)
    ensures raised && DistinctKeys(keys) ==> fs.faults > old(fs.faults)
    ensures NoNewStage(old(fs.disk), fs.disk)
    ensures forall k :: k !in keys ==> SameFor(old(fs.disk), fs.disk, k)
    ensures old(fs.trace) <= fs.trace
    ensures DistinctKeys(keys) ==>
      forall j :: 0 <= j < |keys| ==> Undoable(old(fs.disk), fs.disk, keys[j], backups, installed, files, misread)
    ensures DistinctKeys(keys) && NoBackups(old(fs.disk), keys) ==>
      && AllPoints(old(fs.disk), fs.disk, keys, installed, files, misread)
      && AllRecoverable(fs.disk, old(fs.disk), keys, files)
      && PassesRecoverable(fs.trace, |old(fs.trace)|, old(fs.disk), keys, files)
  {
    ghost var before, from := fs.disk, |fs.trace|;
    backups, installed, raised, misread := map[], {}, false, None;
    FirstProgress(before, fs.trace, keys, files);
    var i := 0;
    while i < |keys| && !raised
      invariant i <= |keys| && NamedBackups(backups) && forall k :: k in backups ==> k in keys
      invariant !raised ==> forall j :: 0 <= j < i ==> keys[j] in installed && stages[j] !in fs.disk
      invariant NoNewStage(before, fs.disk)
      invariant forall k :: k !in keys ==> SameFor(before, fs.disk, k)
      invariant old(fs.trace) <= fs.trace
      invariant misread.Some? ==> raised && fs.failedReads > old(fs.failedReads)
      invariant fs.failedReads >= old(fs.failedReads) && fs.faults >= old(fs.faults)
      invariant raised && DistinctKeys(keys) ==> fs.faults > old(fs.faults)
      invariant i == 0 || (i == 1 && raised) ==> installed == {}
      invariant Progress(before, fs.disk, fs.trace, from, keys, i, backups, installed, files, misread)
      decreases |keys| - i
    {
      var key := keys[i];
      ghost var was, passed, had, settled := fs.disk, fs.trace, backups, installed;
      ghost var lost;
      raised, backups, lost := InstallOne(fs, key, stages[i], files, before, backups);
      misread := if lost then Some(key) else None;
      if !raised {
        installed := installed + {key};
      }
      ProgressSteps(
        before, was, fs.disk, passed, fs.trace, from, keys, i, stages[i], had, backups, settled, installed, files,
        raised, misread);
      OthersStay(before, was, fs.disk, keys, key);
      i := i + 1;
    }
    if DistinctKeys(keys) {
      SwapStateUndoes(before, fs.disk, keys, i, backups, installed, files, misread);
    }
  }

  /** Where the loop stands: what it has done can be undone, and every state so far is recoverable. */
  ghost predicate Progress(
    before: Disk, disk: Disk, trace: seq<Disk>, from: nat, keys: seq<nat>, i: nat,
    backups: map<nat, Name>, installed: set<nat>, files: Directory, misread: Option<nat>)
  {
    DistinctKeys(keys) ==>
      && SwapState(before, disk, keys, i, backups, installed, files, misread)
      && (NoBackups(before, keys) ==>
            && AllPoints(before, disk, keys, installed, files, misread)
            && AllRecoverable(disk, before, keys, files)
            && PassesRecoverable(trace, from, before, keys, files))
  }

  lemma FirstProgress(before: Disk, trace: seq<Disk>, keys: seq<nat>, files: Directory)
    ensures Progress(before, before, trace, |trace|, keys, 0, map[], {}, files, None)
  {
    if NoBackups(before, keys) {
      FirstPoints(before, keys, files);
    }
  }

  lemma ProgressSteps(
    before: Disk, was: Disk, disk: Disk, passed: seq<Disk>, trace: seq<Disk>, from: nat, keys: seq<nat>, i: nat, stage: Name,
    had: map<nat, Name>, backups: map<nat, Name>, installed: set<nat>, installed': set<nat>, files: Directory,
    raised: bool, misread: Option<nat>)
    requires i < |keys| && from <= |passed| && passed <= trace && StageReady(before, keys[i], stage, files)
    requires Progress(before, was, passed, from, keys, i, had, installed, files, None)
    requires misread in {None, Some(keys[i])} && (misread.Some? ==> raised)
    requires OnlyAdds(had, backups, keys[i])
    requires installed' == if raised then installed else installed + {keys[i]}
    requires forall k :: k != keys[i] ==> SameFor(was, disk, k)
    requires forall m, k :: |passed| <= m < |trace| && k != keys[i] ==> SameFor(was, trace[m], k)
    requires Untouched(before, was, keys[i], stage, files, had) ==>
      if !raised || misread.Some? then Installed(before, disk, keys[i], backups, files)
      else (keys[i] !in backups && HoldsOld(before, disk, keys[i])) || Vacated(before, disk, keys[i], backups)
    requires Untouched(before, was, keys[i], stage, files, had) && BackupsOf(was, keys[i]) == {} ==>
      && Recoverable(disk, keys[i], Held(before, keys[i]), files)
      && PassesFor(trace, |passed|, before, keys[i], files)
      && RollbackPoint(before, disk, keys[i], files)
      && (!raised || misread.Some? ==> AsideOnly(before, disk, keys[i]))
    ensures Progress(before, disk, trace, from, keys, i + 1, backups, installed', files, misread)
  {
    if DistinctKeys(keys) {
      NextUntouched(before, was, keys, i, stage, had, installed, files);
      SwapStateSteps(before, was, disk, keys, i, had, backups, installed, installed', files, misread);
      if NoBackups(before, keys) {
        PointsStep(before, was, disk, keys, i, installed, installed', files, misread);
        PassedOne(was, before, passed, trace, disk, keys, i, files, from);
      }
    }
  }

  ghost predicate NoBackups(disk: Disk, keys: seq<nat>) {
    forall j :: 0 <= j < |keys| ==> BackupsOf(disk, keys[j]) == {}
  }

  lemma OthersStay(before: Disk, was: Disk, disk: Disk, keys: seq<nat>, key: nat)
    requires key in keys
    requires forall k :: k !in keys ==> SameFor(before, was, k)
    requires forall k :: k != key ==> SameFor(was, disk, k)
    ensures forall k :: k !in keys ==> SameFor(before, disk, k)
  {
    forall k | k !in keys
      ensures SameFor(before, disk, k)
    {
      SameForTrans(before, was, disk, k);
    }
  }

  /** Installing one target keeps the crash states of all of them recoverable. */
  lemma PassedOne(
    was: Disk, before: Disk, passed: seq<Disk>, trace: seq<Disk>, now: Disk, keys: seq<nat>, i: nat, files: Directory, from: nat)
    requires DistinctKeys(keys) && i < |keys| && passed <= trace && from <= |passed|
    requires AllRecoverable(was, before, keys, files) && PassesRecoverable(passed, from, before, keys, files)
    requires forall m, k :: |passed| <= m < |trace| && k != keys[i] ==> SameFor(was, trace[m], k)
    requires forall k :: k != keys[i] ==> SameFor(was, now, k)
    requires Recoverable(now, keys[i], Held(before, keys[i]), files)
    requires PassesFor(trace, |passed|, before, keys[i], files)
    ensures AllRecoverable(now, before, keys, files)
    ensures PassesRecoverable(trace, from, before, keys, files)
  {
    forall j | 0 <= j < |keys|
      ensures Recoverable(now, keys[j], Held(before, keys[j]), files)
    {
      if j != i {
        assert keys[j] != keys[i];
        RecoverableCarries(was, now, keys[j], Held(before, keys[j]), files);
      }
    }
    forall m, j | from <= m < |trace| && 0 <= j < |keys|
      ensures Recoverable(trace[m], keys[j], Held(before, keys[j]), files)
    {
      if m < |passed| {
        assert trace[m] == passed[m];
      } else if j != i {
        assert keys[j] != keys[i];
        RecoverableCarries(was, trace[m], keys[j], Held(before, keys[j]), files);
      }
    }
  }
}

/**
 What the schema swap makes of its targets, one predicate a stage, and what a crash in that stage leaves
 (src/openworkproof/agency_schema_registry.py).
 */
module SchemaStates {
  import opened Collections
  import opened SchemaFiles

  ghost predicate DistinctKeys(keys: seq<nat>) {
    forall i, j :: 0 <= i < j < |keys| ==> keys[i] != keys[j]
  }

  /** A target holds exactly what it held on `before`, or is as absent as it was. */
  ghost predicate HoldsOld(before: Disk, disk: Disk, key: nat) {
    Held(disk, key) == Held(before, key)
  }

  ghost predicate HoldsNew(disk: Disk, key: nat, files: Directory) {
    Target(key) in disk && disk[Target(key)] == files
  }

  /** The old content of a target that is moved aside, safe under its backup name. */
  ghost predicate MovedAside(before: Disk, disk: Disk, key: nat, backups: map<nat, Name>) {
    if key in backups then
      && backups[key].Backup? && backups[key].key == key
      && Target(key) in before
      && backups[key] in disk && disk[backups[key]] == before[Target(key)]
    else Target(key) !in before
  }

  ghost predicate Installed(before: Disk, disk: Disk, key: nat, backups: map<nat, Name>, files: Directory) {
    HoldsNew(disk, key, files) && MovedAside(before, disk, key, backups)
  }

  ghost predicate StageReady(disk: Disk, key: nat, stage: Name, files: Directory) {
    stage.Stage? && stage.key == key && stage in disk && disk[stage] == files
  }

  /** A target the swap has touched and not finished: nothing at the target, the old content aside. */
  ghost predicate Vacated(before: Disk, disk: Disk, key: nat, backups: map<nat, Name>) {
    Target(key) !in disk && MovedAside(before, disk, key, backups)
  }

  /**
   What rollback may find of one target. `misread` is a target whose install landed, raised, and was then not
   read back: its new files stand although the swap does not know it.
   */
  ghost predicate Undoable(
    before: Disk, disk: Disk, key: nat, backups: map<nat, Name>, installed: set<nat>, files: Directory, misread: Option<nat>)
  {
    if key in installed || misread == Some(key) then
      Installed(before, disk, key, backups, files) && (misread == Some(key) ==> key !in installed)
    else (key !in backups && HoldsOld(before, disk, key)) || Vacated(before, disk, key, backups)
  }

  /** What undoing leaves: the old content, but the new files where they stand unknown and nothing was before. */
  ghost function Restored(before: Disk, key: nat, files: Directory, misread: Option<nat>): Option<Directory> {
    if misread == Some(key) && Target(key) !in before then Some(files) else Held(before, key)
  }

  /** Neither the target nor any of its stage and backup names differ between two disks. */
  ghost predicate SameFor(a: Disk, b: Disk, key: nat) {
    forall n: Name :: n.key == key ==> (n in a <==> n in b) && (n in a ==> a[n] == b[n])
  }

  lemma RenameKeepsOthers(disk: Disk, source: Name, destination: Name, key: nat)
    requires source in disk && source.key != key && destination.key != key
    ensures SameFor(disk, Renamed(disk, source, destination), key)
  {
  }

  lemma SameForTrans(a: Disk, b: Disk, c: Disk, key: nat)
    requires SameFor(a, b, key) && SameFor(b, c, key)
    ensures SameFor(a, c, key)
  {
  }

  lemma ChangeKeepsOthers(before: Disk, after: Disk, name: Name, key: nat)
    requires OnlyChanges(before, after, name) && name.key != key
    ensures SameFor(before, after, key)
  {
    forall n: Name | n.key == key
      ensures (n in before <==> n in after) && (n in before ==> before[n] == after[n])
    {
      assert n in before - {name} <==> n in before;
      assert n in after - {name} <==> n in after;
      assert n in before ==> (before - {name})[n] == before[n];
      assert n in after ==> (after - {name})[n] == after[n];
    }
  }

  lemma ChangeKeepsName(before: Disk, after: Disk, name: Name, other: Name)
    requires OnlyChanges(before, after, name) && other != name
    ensures (other in before <==> other in after) && (other in before ==> before[other] == after[other])
  {
    assert other in before - {name} <==> other in before;
    assert other in after - {name} <==> other in after;
    assert other in before ==> (before - {name})[other] == before[other];
    assert other in after ==> (after - {name})[other] == after[other];
  }

  // ----- what a crash may leave ---------------------------------------------------------

  function Held(disk: Disk, key: nat): Option<Directory> {
    if Target(key) in disk then Some(disk[Target(key)]) else None
  }

  ghost predicate OneBackup(disk: Disk, key: nat) {
    forall a, b :: a in BackupsOf(disk, key) && b in BackupsOf(disk, key) ==> a == b
  }

  /**
   From such a disk the target can be brought back exactly to `was` or found to hold exactly `files`:
   it holds one of them, or it is missing and its one backup holds the old content.
   */
  ghost predicate Recoverable(disk: Disk, key: nat, was: Option<Directory>, files: Directory) {
    && OneBackup(disk, key)
    && (|| Held(disk, key) == Some(files)
        || (was.Some? && Held(disk, key) == was)
        || (was.None? && Held(disk, key).None? && BackupsOf(disk, key) == {})
        || (was.Some? && Held(disk, key).None? && exists b :: b in BackupsOf(disk, key) && disk[b] == was.value))
  }

  lemma RecoverableCarries(a: Disk, b: Disk, key: nat, was: Option<Directory>, files: Directory)
    requires SameFor(a, b, key) && Recoverable(a, key, was, files)
    ensures Recoverable(b, key, was, files)
  {
    assert Target(key).key == key;
    assert BackupsOf(a, key) == BackupsOf(b, key);
    if exists n :: n in BackupsOf(a, key) && was.Some? && a[n] == was.value {
      var n :| n in BackupsOf(a, key) && was.Some? && a[n] == was.value;
      assert n in BackupsOf(b, key) && b[n] == was.value;
    }
  }

  lemma ProbeKeepsRecoverable(before: Disk, backup: Name, key: nat, was: Option<Directory>, files: Directory)
    requires backup.Backup? && backup.key == key && BackupsOf(before, key) == {} && Target(key) in before
    requires Recoverable(before, key, was, files)
    ensures Recoverable(before[backup := map[]], key, was, files)
  {
    assert BackupsOf(before[backup := map[]], key) == {backup};
  }

  lemma BackupRenameKeepsRecoverable(before: Disk, backup: Name, key: nat, files: Directory)
    requires backup.Backup? && backup.key == key && BackupsOf(before, key) == {} && Target(key) in before
    ensures Recoverable(Renamed(before, Target(key), backup), key, Held(before, key), files)
    ensures BackupsOf(Renamed(before, Target(key), backup), key) == {backup}
  {
    assert BackupsOf(Renamed(before, Target(key), backup), key) == {backup};
  }

  lemma InstallRenameKeepsRecoverable(before: Disk, stage: Name, key: nat, was: Option<Directory>, files: Directory)
    requires StageReady(before, key, stage, files) && OneBackup(before, key)
    ensures Recoverable(Renamed(before, stage, Target(key)), key, was, files)
  {
    assert BackupsOf(Renamed(before, stage, Target(key)), key) == BackupsOf(before, key);
  }

  /** Every state passed through since `from` leaves every one of these targets recoverable. */
  ghost predicate PassesRecoverable(
    trace: seq<Disk>, from: nat, before: Disk, keys: seq<nat>, files: Directory) {
    forall i, j :: from <= i < |trace| && 0 <= j < |keys| ==>
      Recoverable(trace[i], keys[j], Held(before, keys[j]), files)
  }

  ghost predicate AllRecoverable(disk: Disk, before: Disk, keys: seq<nat>, files: Directory) {
    forall j :: 0 <= j < |keys| ==> Recoverable(disk, keys[j], Held(before, keys[j]), files)
  }

  lemma UndoableCarries(
    before: Disk, a: Disk, b: Disk, key: nat, backups: map<nat, Name>, installed: set<nat>, files: Directory,
    misread: Option<nat>)
    requires SameFor(a, b, key) && Undoable(before, a, key, backups, installed, files, misread)
    ensures Undoable(before, b, key, backups, installed, files, misread)
  {
    assert Target(key).key == key;
  }

  /** What a recovery that is not disturbed gives the target. */
  ghost function RecoveredTo(disk: Disk, key: nat): Option<Directory> {
    if Held(disk, key).Some? then Held(disk, key)
    else if BackupsOf(disk, key) == {} then None
    else var b :| b in BackupsOf(disk, key); Some(disk[b])
  }

  /** There is no doubt what to recover: the target stands, or it has at most one backup. */
  ghost predicate Decided(disk: Disk, key: nat) {
    Target(key) in disk || OneBackup(disk, key)
  }

  lemma RecoverableMeansOldOrNew(disk: Disk, key: nat, was: Option<Directory>, files: Directory)
    requires Recoverable(disk, key, was, files)
    ensures RecoveredTo(disk, key) == was || RecoveredTo(disk, key) == Some(files)
  {
  }

  // ----- what a rollback may pass through -----------------------------------------------

  /** The old content of the target, if it had any, is the one backup there is. */
  ghost predicate AsideOnly(before: Disk, disk: Disk, key: nat) {
    if Target(key) in before then exists b :: BackupsOf(disk, key) == {b} && disk[b] == before[Target(key)]
    else BackupsOf(disk, key) == {}
  }

  /** The old content is in place, or it is aside and the target is gone or holds some of the new files. */
  ghost predicate RollbackPoint(before: Disk, disk: Disk, key: nat, files: Directory) {
    || (Target(key) in disk && HoldsOld(before, disk, key))
    || (AsideOnly(before, disk, key) && (Target(key) in disk ==> PartOf(disk[Target(key)], files)))
  }

  lemma AsideCarries(before: Disk, a: Disk, b: Disk, key: nat)
    requires AsideOnly(before, a, key)
    requires BackupsOf(b, key) == BackupsOf(a, key) && forall n :: n in BackupsOf(a, key) ==> a[n] == b[n]
    ensures AsideOnly(before, b, key)
  {
    if Target(key) in before {
      var n :| BackupsOf(a, key) == {n} && a[n] == before[Target(key)];
      assert n in BackupsOf(a, key);
    }
  }

  lemma SameForPoint(before: Disk, a: Disk, b: Disk, key: nat, files: Directory)
    requires SameFor(a, b, key)
    ensures AsideOnly(before, a, key) ==> AsideOnly(before, b, key)
    ensures RollbackPoint(before, a, key, files) ==> RollbackPoint(before, b, key, files)
  {
    assert Target(key).key == key;
    assert BackupsOf(a, key) == BackupsOf(b, key);
    if AsideOnly(before, a, key) {
      AsideCarries(before, a, b, key);
    }
  }

  /** The only contents that survive being taken apart at any point. */
  predicate SafeApart(was: Option<Directory>, files: Directory) {
    files == map[] || (|files| == 1 && was == Some(map[]))
  }

  ghost predicate OldOrNew(before: Disk, disk: Disk, key: nat, files: Directory) {
    RecoveredTo(disk, key) == Held(before, key) || RecoveredTo(disk, key) == Some(files)
  }

  lemma PartSizes(part: Directory, whole: Directory)
    requires PartOf(part, whole)
    ensures |part| <= |whole|
    ensures |part| == |whole| ==> part == whole
    ensures part == map[] <==> |part| == 0
  {
    assert |part| == |part.Keys| && |whole| == |whole.Keys|;
    SubsetSize(part.Keys, whole.Keys);
    if |part| == |whole| {
      SubsetOfSameSize(part.Keys, whole.Keys);
    }
  }

  lemma SubsetSize<T(!new)>(s: set<T>, t: set<T>)
    requires s <= t
    ensures |s| <= |t|
  {
    assert |t - s| == |t| - |s|;
  }

  /** With such contents every point of a rollback is recovered to the old or the new. */
  lemma SafePointRecovers(before: Disk, disk: Disk, key: nat, files: Directory)
    requires RollbackPoint(before, disk, key, files) && SafeApart(Held(before, key), files)
    ensures Decided(disk, key) && OldOrNew(before, disk, key, files)
  {
    if Target(key) in disk && PartOf(disk[Target(key)], files) {
      PartSizes(disk[Target(key)], files);
    }
  }

  /** With any other, a target taken apart passes a state that is recovered to neither. */
  lemma UnsafePassesLoss(before: Disk, disk: Disk, trace: seq<Disk>, from: nat, key: nat, files: Directory)
    requires !SafeApart(Held(before, key), files) && Target(key) !in disk
    requires SizesPassed(trace, from, Target(key), files, disk)
    ensures exists i :: from <= i < |trace| && !OldOrNew(before, trace[i], key, files)
  {
    var name := Target(key);
    assert |files| > 0;
    assert SizePassed(trace, from, name, files, |files| - 1);
    var i :| from <= i < |trace| && name in trace[i] && PartOf(trace[i][name], files) && |trace[i][name]| == |files| - 1;
    if Held(before, key) == Some(trace[i][name]) {
      PartSizes(trace[i][name], files);
      assert SizePassed(trace, from, name, files, |files| - 2);
      var j :| from <= j < |trace| && name in trace[j] && PartOf(trace[j][name], files) && |trace[j][name]| == |files| - 2;
      assert !OldOrNew(before, trace[j], key, files);
    } else {
      assert !OldOrNew(before, trace[i], key, files);
    }
  }

  /**
   Taking an installed target apart, its old content aside: every state on the way is recovered to the old
   content or to the new files exactly when there are no files, or one file over an empty directory.
   */
  lemma TakenApartIff(before: Disk, disk: Disk, key: nat, files: Directory)
    requires HoldsNew(disk, key, files) && AsideOnly(before, disk, key)
    ensures (forall left :: TakenApart(disk, left, Target(key)) ==> OldOrNew(before, left, key, files))
       <==> SafeApart(Held(before, key), files)
  {
    var name := Target(key);
    if SafeApart(Held(before, key), files) {
      forall left | TakenApart(disk, left, name)
        ensures OldOrNew(before, left, key, files)
      {
        ApartIsPoint(before, disk, left, key, files);
        SafePointRecovers(before, left, key, files);
      }
    } else {
      var file :| file in files;
      var most, none := disk[name := files - {file}], disk[name := map[]];
      assert most - {name} == disk - {name} && none - {name} == disk - {name};
      assert TakenApart(disk, most, name) && TakenApart(disk, none, name);
      assert |files - {file}| == |files| - 1 by {
        assert (files - {file}).Keys == files.Keys - {file};
        assert |files - {file}| == |(files - {file}).Keys| && |files| == |files.Keys|;
      }
      assert Held(most, key) == Some(files - {file}) && Held(none, key) == Some(map[]);
      assert !OldOrNew(before, most, key, files) || !OldOrNew(before, none, key, files);
    }
  }

  lemma ApartIsPoint(before: Disk, disk: Disk, left: Disk, key: nat, files: Directory)
    requires HoldsNew(disk, key, files) && AsideOnly(before, disk, key) && TakenApart(disk, left, Target(key))
    ensures RollbackPoint(before, left, key, files) && AsideOnly(before, left, key)
  {
    forall n: Name | n != Target(key)
      ensures (n in disk <==> n in left) && (n in disk ==> disk[n] == left[n])
    {
      ChangeKeepsName(disk, left, Target(key), n);
    }
    assert BackupsOf(left, key) == BackupsOf(disk, key);
    AsideCarries(before, disk, left, key);
  }
}

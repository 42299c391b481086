/**
 The directory operations the agency schema registry builds on
 (src/openworkproof/agency_schema_registry.py). A rename, an unlink or a rmdir may take effect and still
 raise; one that returns has taken effect. Whether a name exists is told truthfully; reading a directory
 back may fail.

 `trace` lists the states the disk passes through, so that what a crash can leave behind can be named. `faults`
 counts the operations that were disturbed, whether or not they took effect; one that is not disturbed raises
 only if it is impossible. `failedReads` counts the readbacks that failed.
 */
module SchemaFiles {
  import opened Collections

  type Filename = string
  type Directory = map<Filename, string>

  /** Sibling directories: a target, and the stage and backup directories whose names carry its key. */
  datatype Name = Target(key: nat) | Stage(key: nat, serial: nat) | Backup(key: nat, serial: nat)

  type Disk = map<Name, Directory>

  predicate CanRename(disk: Disk, source: Name, destination: Name) {
    source in disk && source != destination && (destination in disk ==> disk[destination] == map[])
  }

  function Renamed(disk: Disk, source: Name, destination: Name): Disk
    requires source in disk
  {
    (disk - {source})[destination := disk[source]]
  }

  /** The directory has an entry that is none of these. */
  predicate Foreign(disk: Disk, name: Name, filenames: set<Filename>) {
    name in disk && !(disk[name].Keys <= filenames)
  }

  function BackupsOf(disk: Disk, key: nat): set<Name> {
    set n | n in disk && n.Backup? && n.key == key
  }

  function StagesOf(disk: Disk, key: nat): set<Name> {
    set n | n in disk && n.Stage? && n.key == key
  }

  /** Everything but `name` is as it was. */
  ghost predicate OnlyChanges(before: Disk, after: Disk, name: Name) {
    after - {name} == before - {name}
  }

  /** Some of the files of a directory, unchanged. */
  ghost predicate PartOf(part: Directory, whole: Directory) {
    part.Keys <= whole.Keys && forall f :: f in part ==> part[f] == whole[f]
  }

  /** Of one directory some files may be gone, or all of it; everything else is as it was. */
  ghost predicate TakenApart(before: Disk, disk: Disk, name: Name) {
    && OnlyChanges(before, disk, name)
    && (name in disk ==> name in before && PartOf(disk[name], before[name]))
  }

  ghost function FilesLeft(disk: Disk, name: Name): nat {
    if name in disk then |disk[name]| else 0
  }

  ghost predicate SizePassed(trace: seq<Disk>, from: nat, name: Name, whole: Directory, size: nat) {
    exists i :: from <= i < |trace| && name in trace[i] && PartOf(trace[i][name], whole) && |trace[i][name]| == size
  }

  /** Files go one at a time: every size between the whole and what is left now was passed through. */
  ghost predicate SizesPassed(trace: seq<Disk>, from: nat, name: Name, whole: Directory, disk: Disk) {
    forall size :: FilesLeft(disk, name) <= size < |whole| ==> SizePassed(trace, from, name, whole, size)
  }

  lemma SizePassedLater(trace: seq<Disk>, longer: seq<Disk>, from: nat, name: Name, whole: Directory, size: nat)
    requires trace <= longer && SizePassed(trace, from, name, whole, size)
    ensures SizePassed(longer, from, name, whole, size)
  {
    var i :| from <= i < |trace| && name in trace[i] && PartOf(trace[i][name], whole) && |trace[i][name]| == size;
    assert longer[i] == trace[i];
  }

  /** A removal under way: what is gone, and what was recorded since it began. */
  ghost predicate Removing(before: Disk, disk: Disk, trace: seq<Disk>, from: nat, name: Name) {
    && name in before && from <= |trace|
    && TakenApart(before, disk, name)
    && (forall i :: from <= i < |trace| ==> TakenApart(before, trace[i], name))
    && SizesPassed(trace, from, name, before[name], disk)
  }

  lemma RemovalStep(before: Disk, was: Disk, disk: Disk, trace: seq<Disk>, from: nat, name: Name)
    requires Removing(before, was, trace, from, name) && name in was
    requires TakenApart(before, disk, name)
    requires if name in disk then |was[name]| <= |disk[name]| + 1 else was[name] == map[]
    ensures Removing(before, disk, trace + [disk], from, name)
  {
    SizesGrow(trace, from, name, before[name], was, disk);
  }

  lemma UnlinkStep(before: Disk, was: Disk, disk: Disk, trace: seq<Disk>, from: nat, name: Name, file: Filename)
    requires Removing(before, was, trace, from, name) && name in was && file in was[name]
    requires disk == was || disk == was[name := was[name] - {file}]
    ensures Removing(before, disk, trace + [disk], from, name)
  {
    var left := was[name] - {file};
    assert was[name := left] - {name} == was - {name};
    assert left.Keys == was[name].Keys - {file};
    assert |left| == |left.Keys| && |was[name]| == |was[name].Keys|;
    RemovalStep(before, was, disk, trace, from, name);
  }

  /** One more recorded step that takes at most one file, or the empty directory. */
  lemma SizesGrow(trace: seq<Disk>, from: nat, name: Name, whole: Directory, was: Disk, disk: Disk)
    requires from <= |trace| && name in was && SizesPassed(trace, from, name, whole, was)
    requires name in disk ==> PartOf(disk[name], whole) && |was[name]| <= |disk[name]| + 1
    requires name !in disk ==> was[name] == map[]
    ensures SizesPassed(trace + [disk], from, name, whole, disk)
  {
    forall size | FilesLeft(disk, name) <= size < |whole|
      ensures SizePassed(trace + [disk], from, name, whole, size)
    {
      if FilesLeft(was, name) <= size {
        SizePassedLater(trace, trace + [disk], from, name, whole, size);
      } else {
        assert (trace + [disk])[|trace|] == disk;
      }
    }
  }

  /** A further round takes apart what the earlier ones left. */
  lemma RoundTakesApart(
    before: Disk, was: Disk, disk: Disk, passed: seq<Disk>, trace: seq<Disk>, from: nat, name: Name)
    requires name in before && name in was && from <= |passed| && passed <= trace
    requires TakenApart(before, was, name) && TakenApart(was, disk, name)
    requires forall i :: from <= i < |passed| ==> TakenApart(before, passed[i], name)
    requires forall i :: |passed| <= i < |trace| ==> TakenApart(was, trace[i], name)
    requires SizesPassed(passed, from, name, before[name], was)
    requires SizesPassed(trace, |passed|, name, was[name], disk)
    ensures TakenApart(before, disk, name)
    ensures forall i :: from <= i < |trace| ==> TakenApart(before, trace[i], name)
    ensures SizesPassed(trace, from, name, before[name], disk)
  {
    forall i | from <= i < |trace|
      ensures TakenApart(before, trace[i], name)
    {
      if i < |passed| {
        assert trace[i] == passed[i];
      }
    }
    forall size | FilesLeft(disk, name) <= size < |before[name]|
      ensures SizePassed(trace, from, name, before[name], size)
    {
      if |was[name]| <= size {
        SizePassedLater(passed, trace, from, name, before[name], size);
      } else {
        assert SizePassed(trace, |passed|, name, was[name], size);
        var i :| |passed| <= i < |trace| && name in trace[i] && PartOf(trace[i][name], was[name]) && |trace[i][name]| == size;
        assert PartOf(trace[i][name], before[name]);
      }
    }
  }

  class FileSystem {
    var disk: Disk
    var trace: seq<Disk>
    var faults: nat
    var failedReads: nat

    constructor (initial: Disk)
      ensures disk == initial && trace == [] && faults == 0 && failedReads == 0
    {
      disk := initial;
      trace := [];
      faults, failedReads := 0, 0;
    }

    /** The process dies: the disk stays in one of the states it went through since `from`. */
    method Crash(from: nat, began: Disk)
      requires from <= |trace|
      modifies this`disk, this`trace
      ensures disk == began || exists i :: from <= i < |old(trace)| && disk == old(trace)[i]
      ensures trace == []
    {
      var at: nat := *;
      disk := if from <= at < |trace| then trace[at] else began;
      trace := [];
    }

    /** The operation may be disturbed: then it raises, whatever becomes of it. */
    method Disturb() returns (disturbed: bool)
      modifies this`faults
      ensures faults == old(faults) + if disturbed then 1 else 0
    {
      disturbed := *;
      if disturbed {
        faults := faults + 1;
      }
    }

    /** `raised` and the effect are independent, except that a normal return means the rename landed. */
    method Rename(source: Name, destination: Name) returns (raised: bool)
      modifies this`disk, this`trace, this`faults
      ensures disk == old(disk) || (CanRename(old(disk), source, destination) && disk == Renamed(old(disk), source, destination))
      ensures !raised ==> CanRename(old(disk), source, destination) && disk == Renamed(old(disk), source, destination)
      ensures faults >= old(faults) && (raised <==> faults > old(faults) || !CanRename(old(disk), source, destination))
      ensures trace == old(trace) + [disk]
    {
      var disturbed := Disturb();
      var lands: bool := *;
      raised := disturbed || !CanRename(disk, source, destination);
      if CanRename(disk, source, destination) && (lands || !disturbed) {
        disk := Renamed(disk, source, destination);
      }
      trace := trace + [disk];
    }

    method Unlink(directory: Name, file: Filename) returns (raised: bool)
      modifies this`disk, this`trace, this`faults
      ensures disk == old(disk) || (directory in old(disk) && disk == old(disk)[directory := old(disk)[directory] - {file}])
      ensures !raised ==> directory in old(disk) && disk == old(disk)[directory := old(disk)[directory] - {file}]
      ensures faults >= old(faults)
      ensures raised <==> faults > old(faults) || !(directory in old(disk) && file in old(disk)[directory])
      ensures trace == old(trace) + [disk]
    {
      var disturbed := Disturb();
      var lands: bool := *;
      var possible := directory in disk && file in disk[directory];
      raised := disturbed || !possible;
      if possible && (lands || !disturbed) {
        disk := disk[directory := disk[directory] - {file}];
      }
      trace := trace + [disk];
    }

    method Rmdir(directory: Name) returns (raised: bool)
      modifies this`disk, this`trace, this`faults
      ensures disk == old(disk) || (directory in old(disk) && old(disk)[directory] == map[] && disk == old(disk) - {directory})
      ensures !raised ==> directory in old(disk) && disk == old(disk) - {directory}
      ensures faults >= old(faults)
      ensures raised <==> faults > old(faults) || !(directory in old(disk) && old(disk)[directory] == map[])
      ensures trace == old(trace) + [disk]
    {
      var disturbed := Disturb();
      var lands: bool := *;
      var possible := directory in disk && disk[directory] == map[];
      raised := disturbed || !possible;
      if possible && (lands || !disturbed) {
        disk := disk - {directory};
      }
      trace := trace + [disk];
    }

    method Mkdir(directory: Name) returns (raised: bool)
      requires directory !in disk
      modifies this`disk, this`trace, this`faults
      ensures disk == old(disk) || disk == old(disk)[directory := map[]]
      ensures !raised ==> disk == old(disk)[directory := map[]]
      ensures faults >= old(faults) && (raised <==> faults > old(faults))
      ensures trace == old(trace) + [disk]
    {
      raised := Disturb();
      var lands: bool := *;
      if lands || !raised {
        disk := disk[directory := map[]];
      }
      trace := trace + [disk];
    }

    /** A write may stop part way: the file then holds something else. */
    method WriteBytes(directory: Name, file: Filename, content: string) returns (raised: bool)
      requires directory in disk
      modifies this`disk, this`trace, this`faults
      ensures OnlyChanges(old(disk), disk, directory) && directory in disk
      ensures disk[directory].Keys <= old(disk)[directory].Keys + {file}
      ensures !raised ==> disk == old(disk)[directory := old(disk)[directory][file := content]]
      ensures faults >= old(faults) && (raised <==> faults > old(faults))
      ensures trace == old(trace) + [disk]
    {
      raised := Disturb();
      var written: string := *;
      var lands: bool := *;
      if lands || !raised {
        disk := disk[directory := disk[directory][file := if raised then written else content]];
      }
      trace := trace + [disk];
    }

    /** Whether the directory reads as exactly these files. A read that fails counts as a mismatch. */
    method ReadbackMatches(directory: Name, files: Directory) returns (matches: bool)
      modifies this`failedReads
      ensures failedReads == old(failedReads) || failedReads == old(failedReads) + 1
      ensures matches <==> directory in disk && disk[directory] == files && failedReads == old(failedReads)
    {
      var fails: bool := *;
      if fails {
        failedReads := failedReads + 1;
        return false;
      }
      return directory in disk && disk[directory] == files;
    }

    /** One round of the clean-up: unlink every entry, then the directory itself. */
    method RemoveOnce(directory: Name) returns (raised: bool)
      requires directory in disk
      modifies this`disk, this`trace, this`faults
      ensures TakenApart(old(disk), disk, directory)
      ensures !raised ==> directory !in disk
      ensures faults >= old(faults) && (raised <==> faults > old(faults))
      ensures old(trace) <= trace
      ensures forall i :: |old(trace)| <= i < |trace| ==> TakenApart(old(disk), trace[i], directory)
      ensures SizesPassed(trace, |old(trace)|, directory, old(disk)[directory], disk)
    {
      ghost var before, from := disk, |trace|;
      var remaining := disk[directory].Keys;
      while remaining != {}
        invariant directory in disk && disk[directory].Keys == remaining && faults == old(faults)
        invariant old(trace) <= trace && Removing(before, disk, trace, from, directory)
        decreases remaining
      {
        var file :| file in remaining;
        ghost var was, passed := disk, trace;
        raised := Unlink(directory, file);
        UnlinkStep(before, was, disk, passed, from, directory, file);
        if raised {
          return true;
        }
        remaining := remaining - {file};
      }
      ghost var was, passed := disk, trace;
      raised := Rmdir(directory);
      RemovalStep(before, was, disk, passed, from, directory);
    }

    /** Up to three rounds; an entry that does not belong ends it at once. Nothing else than a fault in each round fails it. */
    method RemoveSchemaDirectory(directory: Name, filenames: set<Filename>) returns (raised: bool)
      modifies this`disk, this`trace, this`faults
      ensures faults >= old(faults)
      ensures raised ==> Foreign(old(disk), directory, filenames) || faults >= old(faults) + 3
      ensures Foreign(old(disk), directory, filenames) ==>
        raised && disk == old(disk) && trace == old(trace) && faults == old(faults)
      ensures TakenApart(old(disk), disk, directory)
      ensures !raised ==> directory !in disk
      ensures directory !in old(disk) ==> !raised && disk == old(disk) && trace == old(trace)
      ensures old(trace) <= trace
      ensures forall i :: |old(trace)| <= i < |trace| ==> TakenApart(old(disk), trace[i], directory)
      ensures directory in old(disk) ==> SizesPassed(trace, |old(trace)|, directory, old(disk)[directory], disk)
    {
      for attempt := 0 to 3
        invariant attempt > 0 ==> directory in old(disk) && !Foreign(old(disk), directory, filenames)
        invariant faults >= old(faults) + attempt
        invariant attempt == 0 ==> disk == old(disk) && trace == old(trace) && faults == old(faults)
        invariant directory !in old(disk) ==> disk == old(disk) && trace == old(trace)
        invariant TakenApart(old(disk), disk, directory)
        invariant old(trace) <= trace
        invariant forall i :: |old(trace)| <= i < |trace| ==> TakenApart(old(disk), trace[i], directory)
        invariant directory in old(disk) ==> SizesPassed(trace, |old(trace)|, directory, old(disk)[directory], disk)
      {
        if directory !in disk {
          return false;
        }
        if !(disk[directory].Keys <= filenames) {
          return true;
        }
        ghost var was, passed := disk, trace;
        raised := RemoveOnce(directory);
        RoundTakesApart(old(disk), was, disk, passed, trace, |old(trace)|, directory);
        if !raised {
          return false;
        }
      }
      return true;
    }

    /** A backup name nothing uses; the probe directory it is taken from may be left behind on an error. */
    method UnusedBackupPath(key: nat) returns (raised: bool, backup: Name)
      modifies this`disk, this`trace, this`faults
      ensures backup.Backup? && backup.key == key
      ensures backup !in old(disk)
      ensures disk == old(disk) || disk == old(disk)[backup := map[]]
      ensures !raised ==> disk == old(disk)
      ensures faults >= old(faults) && (raised <==> faults > old(faults))
      ensures old(trace) <= trace
      ensures forall i :: |old(trace)| <= i < |trace| ==>
        trace[i] == old(disk) || trace[i] == old(disk)[backup := map[]]
    {
      var serial := UnusedSerial(disk, key);
      backup := Backup(key, serial);
      raised := Mkdir(backup);
      if !raised {
        raised := Rmdir(backup);
      }
    }

    method UnusedSerial(names: Disk, key: nat) returns (serial: nat)
      ensures Backup(key, serial) !in names && Stage(key, serial) !in names
    {
      serial := 0;
      var taken := names.Keys;
      while Backup(key, serial) in taken || Stage(key, serial) in taken
        invariant taken <= names.Keys
        invariant forall n :: n in names && n !in taken ==> !n.Target? && n.serial < serial
        decreases taken
      {
        taken := taken - {Backup(key, serial), Stage(key, serial)};
        serial := serial + 1;
      }
    }
  }
}

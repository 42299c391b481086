/**
 The offline agency bundle (src/openworkproof/agency_bundle.py): a snapshot of one ledger written as a
 closed tree of files under a signed manifest, and the verifier that replays it without the ledger.

 Canonical JSON is an injective encoding and SHA-256 is collision free, so a payload stands for its own
 bytes and its own digest. Directory enumeration may list the files in any order.
 */
module AgencyBundle {
  import opened Collections
  import opened AgencyHistory
  import opened AgencyResolver
  import opened AgencyLedger
  import opened AgencySamples

  const MAX_FILES: nat := 4096
  const MAX_FILE_BYTES: nat := 64 * 1024 * 1024
  const MAX_TOTAL_BYTES: nat := 512 * 1024 * 1024

  datatype Kind = Profiles | Transitions | Appeals

  /** `ObjectPath(kind, id)` is agency/<kind>/<id>.json; any other name under that prefix is `StrayPath`. */
  datatype Path =
    | WorkOrderPath
    | ScriptPath
    | ManifestPath
    | ObjectPath(kind: Kind, id: Digest)
    | StrayPath(kind: Kind, text: string)
    | OtherPath(text: string)

  datatype BundleStatus = BundleActive | BundleRevoked | BundleExpired

  datatype Entry = Entry(path: Path, hash: Payload, sizeBytes: nat)

  datatype ManifestBody = ManifestBody(
    workOrderDigest: Digest,
    evaluatedAt: Instant,
    status: BundleStatus,
    currentProfileId: Option<Digest>,
    entries: seq<Entry>)

  datatype Manifest = Manifest(body: ManifestBody, signer: KeyId, signed: ManifestBody)

  datatype Payload =
    | WorkOrderFile(workOrder: WorkOrder)
    | VerifyScript
    | ProfileFile(profile: Profile)
    | TransitionFile(transition: Transition)
    | AppealFile(appeal: Appeal)
    | ManifestFile(manifest: Manifest)
    | OtherBytes(text: string)

  datatype File = File(path: Path, payload: Payload, executable: bool)

  datatype BundleError =
    | TooManyFiles
    | FileTooLarge
    | TotalTooLarge
    | ManifestMissing
    | ManifestInvalid
    | FileSetNotExact
    | EntryIntegrity
    | RequiredFileMissing
    | PathNotAllowed
    | ScriptInvalid
    | WorkOrderInvalid
    | WorkOrderDiverges
    | SignatureInvalid
    | StrayObjectFile
    | ObjectMalformed
    | ObjectNameMismatch
    | ObjectInvalid
    | AppealInconsistent
    | HistoryUnresolvable(error: HistoryError)
    | StatusDiverges

  datatype Verified = Verified(
    workOrderDigest: Digest,
    evaluatedAt: Instant,
    status: BundleStatus,
    currentProfileId: Option<Digest>,
    appealCount: nat)

  /** What the model leaves to the host: identity checks of a work order, and the size of an encoding. */
  datatype Host = Host(authentic: WorkOrder -> bool, size: Payload -> nat)

  // ----- the re-derived status -------------------------------------------------

  function DeriveStatus(
    workOrder: WorkOrder, profiles: seq<Profile>, transitions: seq<Transition>, evaluatedAt: Instant
  ): Result<(BundleStatus, Option<Digest>), BundleError> {
    match ResolveStructure(workOrder, profiles, transitions)
    case Failure(error) => Failure(HistoryUnresolvable(error))
    case Success(resolved) =>
      if resolved.status == RevokedStatus || resolved.current.None? then Success((BundleRevoked, None))
      else
        var current := resolved.current.value;
        if current.validFrom <= evaluatedAt <= current.expiresAt then Success((BundleActive, Some(current.id)))
        else Success((BundleExpired, Some(current.id)))
  }

  // ----- reading a tree ----------------------------------------------------------

  function TotalBytes(tree: seq<File>, size: Payload -> nat): nat {
    if tree == [] then 0 else size(tree[0].payload) + TotalBytes(tree[1..], size)
  }

  /** A directory never lists one path twice. */
  ghost predicate IsTree(tree: seq<File>) {
    forall i, j :: 0 <= i < j < |tree| ==> tree[i].path != tree[j].path
  }

  predicate Has(tree: seq<File>, path: Path) {
    exists f :: f in tree && f.path == path
  }

  function At(tree: seq<File>, path: Path): (f: File)
    requires Has(tree, path)
    ensures f in tree && f.path == path
  {
    if tree[0].path == path then tree[0] else At(tree[1..], path)
  }

  predicate PathAllowed(path: Path) {
    path in {WorkOrderPath, ScriptPath} || path.ObjectPath? || path.StrayPath?
  }

  predicate ManifestWellFormed(body: ManifestBody) {
    && body.entries != []
    && (forall i, j | 0 <= i < j < |body.entries| :: body.entries[i].path != body.entries[j].path)
    && (body.currentProfileId.None? <==> body.status == BundleRevoked)
  }

  function FilePaths(tree: seq<File>): set<Path> {
    set f | f in tree && f.path != ManifestPath :: f.path
  }

  function EntryPaths(entries: seq<Entry>): set<Path> {
    set e | e in entries :: e.path
  }

  function ScanTree(host: Host, tree: seq<File>): Option<BundleError> {
    if |tree| > MAX_FILES then Some(TooManyFiles)
    else if exists f :: f in tree && host.size(f.payload) > MAX_FILE_BYTES then Some(FileTooLarge)
    else if TotalBytes(tree, host.size) > MAX_TOTAL_BYTES then Some(TotalTooLarge)
    else None
  }

  function LoadManifest(host: Host, tree: seq<File>): Result<Manifest, BundleError> {
    if ScanTree(host, tree).Some? then Failure(ScanTree(host, tree).value)
    else if !Has(tree, ManifestPath) then Failure(ManifestMissing)
    else if !At(tree, ManifestPath).payload.ManifestFile? then Failure(ManifestInvalid)
    else
      var manifest := At(tree, ManifestPath).payload.manifest;
      if !ManifestWellFormed(manifest.body) then Failure(ManifestInvalid)
      else if FilePaths(tree) != EntryPaths(manifest.body.entries)
      then Failure(FileSetNotExact)
      else if exists e :: e in manifest.body.entries
                          && !(Has(tree, e.path) && At(tree, e.path).payload == e.hash
                               && host.size(At(tree, e.path).payload) == e.sizeBytes)
      then Failure(EntryIntegrity)
      else if !Has(tree, WorkOrderPath) || !Has(tree, ScriptPath) then Failure(RequiredFileMissing)
      else if exists f :: f in tree && f.path != ManifestPath && !PathAllowed(f.path) then Failure(PathNotAllowed)
      else if At(tree, ScriptPath).payload != VerifyScript || !At(tree, ScriptPath).executable then Failure(ScriptInvalid)
      else Success(manifest)
  }

  function LoadWorkOrder(host: Host, tree: seq<File>): Result<WorkOrder, BundleError> {
    if !Has(tree, WorkOrderPath) || !At(tree, WorkOrderPath).payload.WorkOrderFile? then Failure(WorkOrderInvalid)
    else
      var workOrder := At(tree, WorkOrderPath).payload.workOrder;
      if host.authentic(workOrder) then Success(workOrder) else Failure(WorkOrderInvalid)
  }

  predicate ManifestSigned(manifest: Manifest, workOrder: WorkOrder) {
    var binding := UniqueBinding(workOrder, Sidecar);
    && binding.Some? && binding.value.decodable
    && manifest.signer == binding.value.keyId
    && manifest.signed == manifest.body
  }

  /** How one kind of object is read: parsed from a payload, named by its id, verified. */
  datatype Reader<!T(==)> = Reader(kind: Kind, parse: Payload -> Option<T>, id: T -> Digest, verify: T -> bool)

  function ObjectError<T(==)>(reader: Reader<T>, file: File): Option<BundleError> {
    if file.path == StrayPath(reader.kind, if file.path.StrayPath? then file.path.text else "") then Some(StrayObjectFile)
    else if file.path.ObjectPath? && file.path.kind == reader.kind then
      var parsed := reader.parse(file.payload);
      if parsed.None? then Some(ObjectMalformed)
      else if reader.id(parsed.value) != file.path.id then Some(ObjectNameMismatch)
      else if !reader.verify(parsed.value) then Some(ObjectInvalid)
      else None
    else None
  }

  predicate OfKind(file: File, kind: Kind) {
    file.path.ObjectPath? && file.path.kind == kind
  }

  function LoadObjects<T(==)>(reader: Reader<T>, tree: seq<File>): Result<seq<T>, BundleError> {
    if tree == [] then Success([])
    else
      var n := |tree| - 1;
      var before :- LoadObjects(reader, tree[..n]);
      if ObjectError(reader, tree[n]).Some? then Failure(ObjectError(reader, tree[n]).value)
      else if OfKind(tree[n], reader.kind) then Success(before + [reader.parse(tree[n].payload).value])
      else Success(before)
  }

  function ProfileReader(workOrder: WorkOrder): Reader<Profile> {
    Reader(Profiles,
           (payload: Payload) => if payload.ProfileFile? then Some(payload.profile) else None,
           (p: Profile) => p.id,
           (p: Profile) => VerifyProfile(p, workOrder))
  }

  function TransitionReader(workOrder: WorkOrder): Reader<Transition> {
    Reader(Transitions,
           (payload: Payload) => if payload.TransitionFile? then Some(payload.transition) else None,
           (t: Transition) => t.id,
           (t: Transition) => VerifyTransition(t, workOrder))
  }

  function AppealReader(workOrder: WorkOrder): Reader<Appeal> {
    Reader(Appeals,
           (payload: Payload) => if payload.AppealFile? then Some(payload.appeal) else None,
           (a: Appeal) => a.id,
           (a: Appeal) => VerifyAppeal(a, workOrder))
  }

  /** The loop of the object loader, over the files in the order the directory lists them. */
  method LoadAgencyObjects<T(==)>(reader: Reader<T>, tree: seq<File>) returns (r: Result<seq<T>, BundleError>)
    ensures r == LoadObjects(reader, tree)
  {
    var objects: seq<T> := [];
    for i := 0 to |tree|
      invariant LoadObjects(reader, tree[..i]) == Success(objects)
    {
      assert tree[..i + 1][..i] == tree[..i];
      var error := ObjectError(reader, tree[i]);
      if error.Some? {
        LoadPrefixFails(reader, tree, i + 1);
        return Failure(error.value);
      }
      if OfKind(tree[i], reader.kind) {
        objects := objects + [reader.parse(tree[i].payload).value];
      }
    }
    assert tree[..|tree|] == tree;
    return Success(objects);
  }

  lemma {:induction false} LoadPrefixFails<T>(reader: Reader<T>, tree: seq<File>, n: nat)
    requires n <= |tree| && LoadObjects(reader, tree[..n]).Failure?
    ensures LoadObjects(reader, tree) == LoadObjects(reader, tree[..n])
    decreases |tree|
  {
    if n < |tree| {
      var m := |tree| - 1;
      assert tree[..m][..n] == tree[..n];
      LoadPrefixFails(reader, tree[..m], n);
    } else {
      assert tree[..n] == tree;
    }
  }

  /** Replays a bundle from copied bytes, with no ledger. */
  function VerifyBundle(host: Host, tree: seq<File>): Result<Verified, BundleError> {
    var manifest :- LoadManifest(host, tree);
    var workOrder :- LoadWorkOrder(host, tree);
    if manifest.body.workOrderDigest != workOrder.digest then Failure(WorkOrderDiverges)
    else if !ManifestSigned(manifest, workOrder) then Failure(SignatureInvalid)
    else
      var profiles :- LoadObjects(ProfileReader(workOrder), tree);
      var transitions :- LoadObjects(TransitionReader(workOrder), tree);
      var appeals :- LoadObjects(AppealReader(workOrder), tree);
      if exists a :: a in appeals && !exists p :: p in profiles && p.id == a.profileId && p.digest == a.profileDigest
      then Failure(AppealInconsistent)
      else
        var derived :- DeriveStatus(workOrder, profiles, transitions, manifest.body.evaluatedAt);
        if (manifest.body.status, manifest.body.currentProfileId) != derived then Failure(StatusDiverges)
        else Success(Verified(workOrder.digest, manifest.body.evaluatedAt, derived.0, derived.1, |appeals|))
  }

  // ----- writing a snapshot --------------------------------------------------------

  datatype Snapshot = Snapshot(ledger: Ledger, evaluatedAt: Instant, status: BundleStatus, currentProfileId: Option<Digest>)

  /** What an export reads from a ledger; it fails when the history does not resolve. */
  function ReadSnapshot(ledger: Ledger, evaluatedAt: Instant): Result<Snapshot, BundleError> {
    var derived :- DeriveStatus(ledger.workOrder, ledger.profiles, ledger.transitions, evaluatedAt);
    Success(Snapshot(ledger, evaluatedAt, derived.0, derived.1))
  }

  function ProfileFiles(rows: seq<Profile>): (files: seq<File>)
    ensures |files| == |rows|
    ensures forall i :: 0 <= i < |files| ==> files[i] == File(ObjectPath(Profiles, rows[i].id), ProfileFile(rows[i]), false)
  {
    seq(|rows|, i requires 0 <= i < |rows| => File(ObjectPath(Profiles, rows[i].id), ProfileFile(rows[i]), false))
  }

  function TransitionFiles(rows: seq<Transition>): (files: seq<File>)
    ensures |files| == |rows|
    ensures forall i :: 0 <= i < |files| ==>
      files[i] == File(ObjectPath(Transitions, rows[i].id), TransitionFile(rows[i]), false)
  {
    seq(|rows|, i requires 0 <= i < |rows| => File(ObjectPath(Transitions, rows[i].id), TransitionFile(rows[i]), false))
  }

  function AppealFiles(rows: seq<Appeal>): (files: seq<File>)
    ensures |files| == |rows|
    ensures forall i :: 0 <= i < |files| ==> files[i] == File(ObjectPath(Appeals, rows[i].id), AppealFile(rows[i]), false)
  {
    seq(|rows|, i requires 0 <= i < |rows| => File(ObjectPath(Appeals, rows[i].id), AppealFile(rows[i]), false))
  }

  function SnapshotFiles(snapshot: Snapshot): seq<File> {
    [File(WorkOrderPath, WorkOrderFile(snapshot.ledger.workOrder), false)]
    + ProfileFiles(snapshot.ledger.profiles)
    + TransitionFiles(snapshot.ledger.transitions)
    + AppealFiles(snapshot.ledger.appeals)
    + [File(ScriptPath, VerifyScript, true)]
  }

  function Entries(host: Host, files: seq<File>): (entries: seq<Entry>)
    ensures |entries| == |files|
    ensures forall i :: 0 <= i < |files| ==>
      entries[i] == Entry(files[i].path, files[i].payload, host.size(files[i].payload))
  {
    seq(|files|, i requires 0 <= i < |files| => Entry(files[i].path, files[i].payload, host.size(files[i].payload)))
  }

  function ComposeManifest(host: Host, snapshot: Snapshot, files: seq<File>, key: KeyId): Result<Manifest, BundleError> {
    if |files| > MAX_FILES then Failure(TooManyFiles)
    else if exists f :: f in files && host.size(f.payload) > MAX_FILE_BYTES then Failure(FileTooLarge)
    else if TotalBytes(files, host.size) > MAX_TOTAL_BYTES then Failure(TotalTooLarge)
    else
      var body := ManifestBody(snapshot.ledger.workOrder.digest, snapshot.evaluatedAt, snapshot.status,
                               snapshot.currentProfileId, Entries(host, files));
      Success(Manifest(body, key, body))
  }

  /** The snapshot writer: refuses a key that is not the Sidecar's before it writes anything. */
  function WriteBundle(host: Host, snapshot: Snapshot, key: KeyId): Result<seq<File>, BundleError> {
    var binding := UniqueBinding(snapshot.ledger.workOrder, Sidecar);
    if binding.None? || !binding.value.decodable || binding.value.keyId != key then Failure(SignatureInvalid)
    else
      var files := SnapshotFiles(snapshot);
      var manifest :- ComposeManifest(host, snapshot, files, key);
      Success(files + [File(ManifestPath, ManifestFile(manifest), false)])
  }

  // ----- enumeration order ----------------------------------------------------------

  lemma {:induction false} AtIs(tree: seq<File>, file: File)
    requires IsTree(tree) && file in tree
    ensures Has(tree, file.path) && At(tree, file.path) == file
  {
    var i :| 0 <= i < |tree| && tree[i] == file;
    var found := At(tree, file.path);
    var j :| 0 <= j < |tree| && tree[j] == found;
    assert i == j;
  }

  lemma {:induction false} BytesWithout(tree: seq<File>, size: Payload -> nat, i: nat)
    requires i < |tree|
    ensures TotalBytes(tree, size) == size(tree[i].payload) + TotalBytes(tree[..i] + tree[i + 1..], size)
    decreases |tree|
  {
    if i > 0 {
      BytesWithout(tree[1..], size, i - 1);
      assert tree[1..][..i - 1] + tree[1..][i..] == (tree[..i] + tree[i + 1..])[1..];
    } else {
      assert tree[..0] + tree[1..] == tree[1..];
    }
  }

  lemma {:induction false} BytesIgnoreOrder(s: seq<File>, t: seq<File>, size: Payload -> nat)
    requires multiset(s) == multiset(t)
    ensures TotalBytes(s, size) == TotalBytes(t, size) && |s| == |t|
    decreases |s|
  {
    assert |multiset(s)| == |s| && |multiset(t)| == |t|;
    if s != [] {
      var i := MatchHead(s, t);
      BytesIgnoreOrder(s[1..], t[..i] + t[i + 1..], size);
      BytesWithout(t, size, i);
    }
  }

  // ----- loading what was written -----------------------------------------------------

  lemma LoadedAnew<T(!new)>(reader: Reader<T>, tree: seq<File>)
    requires forall f :: f in tree ==> ObjectError(reader, f).None?
    requires tree != [] && IsTree(tree) && OfKind(tree[|tree| - 1], reader.kind)
    ensures forall f :: f in tree[..|tree| - 1] && OfKind(f, reader.kind) ==>
      reader.parse(f.payload) != reader.parse(tree[|tree| - 1].payload)
  {
    forall f | f in tree[..|tree| - 1] && OfKind(f, reader.kind)
      ensures reader.parse(f.payload) != reader.parse(tree[|tree| - 1].payload)
    {
      assert f in tree && tree[|tree| - 1] in tree && f.path != tree[|tree| - 1].path;
    }
  }

  lemma {:induction false} LoadFacts<T(!new)>(reader: Reader<T>, tree: seq<File>)
    requires forall f :: f in tree ==> ObjectError(reader, f).None?
    ensures LoadObjects(reader, tree).Success?
    ensures forall x :: x in LoadObjects(reader, tree).value <==>
      exists f :: f in tree && OfKind(f, reader.kind) && reader.parse(f.payload) == Some(x)
    ensures IsTree(tree) ==> NoDup(LoadObjects(reader, tree).value)
  {
    if tree != [] {
      var n := |tree| - 1;
      assert tree == tree[..n] + [tree[n]];
      assert tree[n] in tree && forall f :: f in tree[..n] ==> f in tree;
      LoadFacts(reader, tree[..n]);
      if IsTree(tree) && OfKind(tree[n], reader.kind) {
        LoadedAnew(reader, tree);
      }
    }
  }

  lemma {:induction false} BytesAppend(tree: seq<File>, file: File, size: Payload -> nat)
    ensures TotalBytes(tree + [file], size) == TotalBytes(tree, size) + size(file.payload)
  {
    if tree != [] {
      assert (tree + [file])[1..] == tree[1..] + [file];
      BytesAppend(tree[1..], file, size);
    }
  }

  /** The files of a snapshot, one case a kind. */
  ghost predicate SnapshotFile(snapshot: Snapshot, file: File) {
    match file.path
    case WorkOrderPath => file == File(WorkOrderPath, WorkOrderFile(snapshot.ledger.workOrder), false)
    case ScriptPath => file == File(ScriptPath, VerifyScript, true)
    case ObjectPath(Profiles, id) =>
      file.payload.ProfileFile? && !file.executable
      && file.payload.profile in snapshot.ledger.profiles && file.payload.profile.id == id
    case ObjectPath(Transitions, id) =>
      file.payload.TransitionFile? && !file.executable
      && file.payload.transition in snapshot.ledger.transitions && file.payload.transition.id == id
    case ObjectPath(Appeals, id) =>
      file.payload.AppealFile? && !file.executable
      && file.payload.appeal in snapshot.ledger.appeals && file.payload.appeal.id == id
    case _ => false
  }

  lemma SnapshotFilesMembers(snapshot: Snapshot, file: File)
    ensures file in SnapshotFiles(snapshot) <==> SnapshotFile(snapshot, file)
  {
    var ps, ts, aps := ProfileFiles(snapshot.ledger.profiles),
      TransitionFiles(snapshot.ledger.transitions), AppealFiles(snapshot.ledger.appeals);
    assert file in SnapshotFiles(snapshot) <==>
      file == File(WorkOrderPath, WorkOrderFile(snapshot.ledger.workOrder), false)
      || file in ps || file in ts || file in aps || file == File(ScriptPath, VerifyScript, true);
    if SnapshotFile(snapshot, file) && file.path.ObjectPath? {
      match file.path.kind {
        case Profiles =>
          var i :| 0 <= i < |snapshot.ledger.profiles| && snapshot.ledger.profiles[i] == file.payload.profile;
          assert ps[i] == file;
        case Transitions =>
          var i :| 0 <= i < |snapshot.ledger.transitions| && snapshot.ledger.transitions[i] == file.payload.transition;
          assert ts[i] == file;
        case Appeals =>
          var i :| 0 <= i < |snapshot.ledger.appeals| && snapshot.ledger.appeals[i] == file.payload.appeal;
          assert aps[i] == file;
      }
    }
  }

  /** Every reader finds in the tree exactly the rows of its table, whatever the order. */
  lemma ReadersFindRows(snapshot: Snapshot, tree: seq<File>, manifest: File)
    requires Sound(snapshot.ledger) && IsTree(tree) && manifest.path == ManifestPath
    requires forall f :: f in tree <==> SnapshotFile(snapshot, f) || f == manifest
    ensures var ledger := snapshot.ledger;
      var ps := LoadObjects(ProfileReader(ledger.workOrder), tree);
      ps.Success? && NoDup(ps.value) && forall x :: x in ps.value <==> x in ledger.profiles
    ensures var ledger := snapshot.ledger;
      var ts := LoadObjects(TransitionReader(ledger.workOrder), tree);
      ts.Success? && NoDup(ts.value) && forall x :: x in ts.value <==> x in ledger.transitions
    ensures var ledger := snapshot.ledger;
      var aps := LoadObjects(AppealReader(ledger.workOrder), tree);
      aps.Success? && NoDup(aps.value) && forall x :: x in aps.value <==> x in ledger.appeals
  {
    var ledger := snapshot.ledger;
    LoadFacts(ProfileReader(ledger.workOrder), tree);
    forall p | p in ledger.profiles
      ensures p in LoadObjects(ProfileReader(ledger.workOrder), tree).value
    {
      assert SnapshotFile(snapshot, File(ObjectPath(Profiles, p.id), ProfileFile(p), false));
    }
    LoadFacts(TransitionReader(ledger.workOrder), tree);
    forall t | t in ledger.transitions
      ensures t in LoadObjects(TransitionReader(ledger.workOrder), tree).value
    {
      assert SnapshotFile(snapshot, File(ObjectPath(Transitions, t.id), TransitionFile(t), false));
    }
    LoadFacts(AppealReader(ledger.workOrder), tree);
    forall a | a in ledger.appeals
      ensures a in LoadObjects(AppealReader(ledger.workOrder), tree).value
    {
      assert SnapshotFile(snapshot, File(ObjectPath(Appeals, a.id), AppealFile(a), false));
    }
  }

  lemma OrderedRowsNoDup<T(!new)>(rows: seq<T>, id: T -> nat)
    requires OrderedById(rows, id)
    ensures NoDup(rows)
  {
    forall i, j | 0 <= i < j < |rows|
      ensures rows[i] != rows[j]
    {
      assert id(rows[i]) < id(rows[j]);
    }
  }

  /** What the loaders read back derives the very status the snapshot records. */
  lemma ReplayAgrees(snapshot: Snapshot, tree: seq<File>, manifest: File, evaluatedAt: Instant)
    requires Sound(snapshot.ledger) && IsTree(tree) && manifest.path == ManifestPath
    requires forall f :: f in tree <==> SnapshotFile(snapshot, f) || f == manifest
    requires DeriveStatus(snapshot.ledger.workOrder, snapshot.ledger.profiles, snapshot.ledger.transitions, evaluatedAt).Success?
    ensures var ledger := snapshot.ledger;
      var ps := LoadObjects(ProfileReader(ledger.workOrder), tree);
      var ts := LoadObjects(TransitionReader(ledger.workOrder), tree);
      var aps := LoadObjects(AppealReader(ledger.workOrder), tree);
      && ps.Success? && ts.Success? && aps.Success?
      && DeriveStatus(ledger.workOrder, ps.value, ts.value, evaluatedAt)
         == DeriveStatus(ledger.workOrder, ledger.profiles, ledger.transitions, evaluatedAt)
      && |aps.value| == |ledger.appeals|
  {
    var ledger := snapshot.ledger;
    ReadersFindRows(snapshot, tree, manifest);
    OrderedRowsNoDup(ledger.profiles, PROFILE_KEY);
    OrderedRowsNoDup(ledger.transitions, TRANSITION_KEY);
    OrderedRowsNoDup(ledger.appeals, APPEAL_KEY);
    var ps := LoadObjects(ProfileReader(ledger.workOrder), tree).value;
    var ts := LoadObjects(TransitionReader(ledger.workOrder), tree).value;
    var aps := LoadObjects(AppealReader(ledger.workOrder), tree).value;
    SameElements(ps, ledger.profiles);
    SameElements(ts, ledger.transitions);
    SameElements(aps, ledger.appeals);
    assert |multiset(aps)| == |aps| && |multiset(ledger.appeals)| == |ledger.appeals|;
    ResolutionIgnoresOrder(ledger.workOrder, ledger.profiles, ledger.transitions, ps, ts);
  }

  // ----- the written tree --------------------------------------------------------------

  lemma JoinTrees(s: seq<File>, t: seq<File>)
    requires IsTree(s) && IsTree(t)
    requires forall f, g :: f in s && g in t ==> f.path != g.path
    ensures IsTree(s + t)
  {
    forall i, j | 0 <= i < j < |s + t|
      ensures (s + t)[i].path != (s + t)[j].path
    {
      if i < |s| <= j {
        assert s[i] in s && t[j - |s|] in t;
      }
    }
  }

  lemma SnapshotIsTree(snapshot: Snapshot)
    requires Sound(snapshot.ledger)
    ensures IsTree(SnapshotFiles(snapshot))
  {
    var ledger := snapshot.ledger;
    var first := [File(WorkOrderPath, WorkOrderFile(ledger.workOrder), false)];
    var ps, ts, aps := ProfileFiles(ledger.profiles), TransitionFiles(ledger.transitions), AppealFiles(ledger.appeals);
    assert IsTree(ps) by {
      forall i, j | 0 <= i < j < |ps| ensures ps[i].path != ps[j].path {
        assert PROFILE_KEY(ledger.profiles[i]) < PROFILE_KEY(ledger.profiles[j]);
      }
    }
    assert IsTree(ts) by {
      forall i, j | 0 <= i < j < |ts| ensures ts[i].path != ts[j].path {
        assert TRANSITION_KEY(ledger.transitions[i]) < TRANSITION_KEY(ledger.transitions[j]);
      }
    }
    assert IsTree(aps) by {
      forall i, j | 0 <= i < j < |aps| ensures aps[i].path != aps[j].path {
        assert APPEAL_KEY(ledger.appeals[i]) < APPEAL_KEY(ledger.appeals[j]);
      }
    }
    JoinTrees(first, ps);
    JoinTrees(first + ps, ts);
    JoinTrees(first + ps + ts, aps);
    JoinTrees(first + ps + ts + aps, [File(ScriptPath, VerifyScript, true)]);
  }

  /** A rearranged tree holds the same files, one a path. */
  lemma ListingOfTree(written: seq<File>, tree: seq<File>)
    requires IsTree(written) && multiset(written) == multiset(tree)
    ensures IsTree(tree) && forall f :: f in tree <==> f in written
  {
    forall f
      ensures f in tree <==> f in written
    {
      SameMembers(written, tree, f);
    }
    assert NoDup(written);
    NoDupTransfers(written, tree);
    forall i, j | 0 <= i < j < |tree|
      ensures tree[i].path != tree[j].path
    {
      assert tree[i] in tree && tree[j] in tree;
      var m :| 0 <= m < |written| && written[m] == tree[i];
      var n :| 0 <= n < |written| && written[n] == tree[j];
      assert m != n;
    }
  }

  /** The manifest of a written bundle loads exactly when the tree with the manifest in it scans. */
  lemma WrittenManifestLoads(
    host: Host, snapshot: Snapshot, manifest: Manifest, files: seq<File>, tree: seq<File>)
    requires files == SnapshotFiles(snapshot) && IsTree(tree)
    requires IsTree(files)
    requires manifest.body.entries == Entries(host, files)
    requires manifest.body.currentProfileId.None? <==> manifest.body.status == BundleRevoked
    requires forall f :: f in tree <==> f in files || f == File(ManifestPath, ManifestFile(manifest), false)
    ensures ScanTree(host, tree).None? ==> LoadManifest(host, tree) == Success(manifest)
    ensures ScanTree(host, tree).Some? ==> LoadManifest(host, tree).Failure?
    ensures LoadWorkOrder(host, tree)
         == if host.authentic(snapshot.ledger.workOrder) then Success(snapshot.ledger.workOrder) else Failure(WorkOrderInvalid)
  {
    forall f
      ensures f in files <==> SnapshotFile(snapshot, f)
    {
      SnapshotFilesMembers(snapshot, f);
    }
    var wo := File(WorkOrderPath, WorkOrderFile(snapshot.ledger.workOrder), false);
    var script := File(ScriptPath, VerifyScript, true);
    assert SnapshotFile(snapshot, wo) && SnapshotFile(snapshot, script);
    AtIs(tree, File(ManifestPath, ManifestFile(manifest), false));
    AtIs(tree, wo);
    AtIs(tree, script);
    EntriesMatch(host, files, tree, manifest.body.entries);
    assert manifest.body.entries[0].path == files[0].path;
  }

  lemma EntriesMatch(host: Host, files: seq<File>, tree: seq<File>, entries: seq<Entry>)
    requires entries == Entries(host, files) && IsTree(tree)
    requires forall f :: f in files ==> f in tree && f.path != ManifestPath
    requires forall f :: f in tree ==> f in files || f.path == ManifestPath
    ensures FilePaths(tree) == EntryPaths(entries)
    ensures forall e :: e in entries ==> Has(tree, e.path) && At(tree, e.path).payload == e.hash
                                         && host.size(At(tree, e.path).payload) == e.sizeBytes
  {
    forall f | f in files
      ensures Entry(f.path, f.payload, host.size(f.payload)) in entries
    {
      var i :| 0 <= i < |files| && files[i] == f;
      assert entries[i] == Entry(f.path, f.payload, host.size(f.payload));
    }
    forall e | e in entries
      ensures exists f :: f in files && e == Entry(f.path, f.payload, host.size(f.payload))
      ensures Has(tree, e.path) && At(tree, e.path).payload == e.hash
              && host.size(At(tree, e.path).payload) == e.sizeBytes
    {
      var i :| 0 <= i < |entries| && entries[i] == e;
      assert files[i] in files;
      AtIs(tree, files[i]);
    }
  }

  /** The limits the reader applies to the whole tree, the manifest included. */
  predicate FitsReader(host: Host, files: seq<File>, manifest: Manifest) {
    && |files| + 1 <= MAX_FILES
    && host.size(ManifestFile(manifest)) <= MAX_FILE_BYTES
    && TotalBytes(files, host.size) + host.size(ManifestFile(manifest)) <= MAX_TOTAL_BYTES
  }

  lemma ScanIffFits(host: Host, snapshot: Snapshot, manifest: Manifest, written: seq<File>, tree: seq<File>, key: KeyId)
    requires ComposeManifest(host, snapshot, SnapshotFiles(snapshot), key) == Success(manifest)
    requires written == SnapshotFiles(snapshot) + [File(ManifestPath, ManifestFile(manifest), false)]
    requires multiset(written) == multiset(tree) && forall f :: f in tree <==> f in written
    ensures ScanTree(host, tree).None? <==> FitsReader(host, SnapshotFiles(snapshot), manifest)
  {
    var files := SnapshotFiles(snapshot);
    BytesIgnoreOrder(written, tree, host.size);
    BytesAppend(files, File(ManifestPath, ManifestFile(manifest), false), host.size);
    assert File(ManifestPath, ManifestFile(manifest), false) in written;
    assert forall f :: f in written <==> f in files || f == File(ManifestPath, ManifestFile(manifest), false);
  }

  /**
   Round trip. A bundle written from a sound ledger whose history resolves is verified, in every order
   its files may be listed, exactly when it also fits the reader's limits; verification then returns the
   exported status, current profile and number of appeals. The writer does not count the manifest, the
   reader does, so a bundle of exactly the maximal number of files is written and never verified.
   */
  lemma BundleRoundTrip(host: Host, ledger: Ledger, evaluatedAt: Instant, key: KeyId, written: seq<File>, tree: seq<File>)
    requires Sound(ledger) && host.authentic(ledger.workOrder)
    requires ReadSnapshot(ledger, evaluatedAt).Success?
    requires WriteBundle(host, ReadSnapshot(ledger, evaluatedAt).value, key) == Success(written)
    requires multiset(written) == multiset(tree)
    ensures var snapshot := ReadSnapshot(ledger, evaluatedAt).value;
      var manifest := ComposeManifest(host, snapshot, SnapshotFiles(snapshot), key).value;
      if FitsReader(host, SnapshotFiles(snapshot), manifest)
      then VerifyBundle(host, tree)
        == Success(Verified(ledger.workOrder.digest, evaluatedAt, snapshot.status, snapshot.currentProfileId, |ledger.appeals|))
      else VerifyBundle(host, tree).Failure?
  {
    var snapshot := ReadSnapshot(ledger, evaluatedAt).value;
    var files := SnapshotFiles(snapshot);
    var manifest := ComposeManifest(host, snapshot, files, key).value;
    var manifestFile := File(ManifestPath, ManifestFile(manifest), false);
    forall f
      ensures f in files <==> SnapshotFile(snapshot, f)
    {
      SnapshotFilesMembers(snapshot, f);
    }
    SnapshotIsTree(snapshot);
    JoinTrees(files, [manifestFile]);
    ListingOfTree(written, tree);
    ScanIffFits(host, snapshot, manifest, written, tree, key);
    WrittenManifestLoads(host, snapshot, manifest, files, tree);
    if ScanTree(host, tree).None? {
      ReplayAgrees(snapshot, tree, manifestFile, evaluatedAt);
      ReadersFindRows(snapshot, tree, manifestFile);
      var aps := LoadObjects(AppealReader(ledger.workOrder), tree).value;
      var ps := LoadObjects(ProfileReader(ledger.workOrder), tree).value;
      forall a | a in aps
        ensures exists p :: p in ps && p.id == a.profileId && p.digest == a.profileDigest
      {
        assert Appealed(ledger, a);
      }
    }
  }

  /** So for every ledger that any run of commits reaches. */
  lemma ReachableBundleRoundTrip(
    host: Host, workOrder: WorkOrder, operations: seq<Operation>, evaluatedAt: Instant, key: KeyId,
    written: seq<File>, tree: seq<File>)
    requires host.authentic(workOrder)
    requires ReadSnapshot(Run(EmptyLedger(workOrder), operations), evaluatedAt).Success?
    requires WriteBundle(host, ReadSnapshot(Run(EmptyLedger(workOrder), operations), evaluatedAt).value, key) == Success(written)
    requires multiset(written) == multiset(tree)
    ensures var ledger := Run(EmptyLedger(workOrder), operations);
      var snapshot := ReadSnapshot(ledger, evaluatedAt).value;
      var manifest := ComposeManifest(host, snapshot, SnapshotFiles(snapshot), key).value;
      if FitsReader(host, SnapshotFiles(snapshot), manifest)
      then VerifyBundle(host, tree)
        == Success(Verified(workOrder.digest, evaluatedAt, snapshot.status, snapshot.currentProfileId, |ledger.appeals|))
      else VerifyBundle(host, tree).Failure?
  {
    EmptyIsSound(workOrder);
    RunKeepsSound(EmptyLedger(workOrder), operations);
    RunExtends(EmptyLedger(workOrder), operations);
    BundleRoundTrip(host, Run(EmptyLedger(workOrder), operations), evaluatedAt, key, written, tree);
  }

  datatype ExportError = Unwritten(error: BundleError) | Unverified(error: BundleError) | Diverged

  /** The export: it verifies what it wrote before it publishes it. */
  function ExportBundle(host: Host, snapshot: Snapshot, key: KeyId): Result<seq<File>, ExportError> {
    match WriteBundle(host, snapshot, key)
    case Failure(error) => Failure(Unwritten(error))
    case Success(written) =>
      match VerifyBundle(host, written)
      case Failure(error) => Failure(Unverified(error))
      case Success(verified) =>
        if verified.workOrderDigest != snapshot.ledger.workOrder.digest || verified.status != snapshot.status
           || verified.currentProfileId != snapshot.currentProfileId
        then Failure(Diverged)
        else Success(written)
  }

  /**
   For every ledger a run reaches, an export goes through exactly when its snapshot is written and fits the
   reader, it never diverges from its own snapshot, and what is published verifies in any enumeration.
   */
  lemma ExportsIffFits(
    host: Host, workOrder: WorkOrder, operations: seq<Operation>, evaluatedAt: Instant, key: KeyId, tree: seq<File>)
    requires host.authentic(workOrder)
    requires ReadSnapshot(Run(EmptyLedger(workOrder), operations), evaluatedAt).Success?
    ensures var snapshot := ReadSnapshot(Run(EmptyLedger(workOrder), operations), evaluatedAt).value;
      var exported := ExportBundle(host, snapshot, key);
      && (exported.Success? <==>
            && WriteBundle(host, snapshot, key).Success?
            && FitsReader(host, SnapshotFiles(snapshot), ComposeManifest(host, snapshot, SnapshotFiles(snapshot), key).value))
      && exported != Failure(Diverged)
      && (exported.Success? && multiset(exported.value) == multiset(tree) ==> VerifyBundle(host, tree).Success?)
  {
    var snapshot := ReadSnapshot(Run(EmptyLedger(workOrder), operations), evaluatedAt).value;
    if WriteBundle(host, snapshot, key).Success? {
      var written := WriteBundle(host, snapshot, key).value;
      RunExtends(EmptyLedger(workOrder), operations);
      ReachableBundleRoundTrip(host, workOrder, operations, evaluatedAt, key, written, written);
      if multiset(written) == multiset(tree) {
        ReachableBundleRoundTrip(host, workOrder, operations, evaluatedAt, key, written, tree);
      }
    }
  }

  /** The writer's file limit is one too generous: a bundle it accepts at the limit never verifies. */
  lemma FullBundleNeverVerifies(
    host: Host, ledger: Ledger, evaluatedAt: Instant, key: KeyId, written: seq<File>, tree: seq<File>)
    requires Sound(ledger) && host.authentic(ledger.workOrder)
    requires ReadSnapshot(ledger, evaluatedAt).Success?
    requires WriteBundle(host, ReadSnapshot(ledger, evaluatedAt).value, key) == Success(written)
    requires multiset(written) == multiset(tree)
    requires |ledger.profiles| + |ledger.transitions| + |ledger.appeals| + 2 == MAX_FILES
    ensures VerifyBundle(host, tree).Failure?
  {
    BundleRoundTrip(host, ledger, evaluatedAt, key, written, tree);
  }

  const UNIT: Payload -> nat := (_: Payload) => 1

  lemma {:induction false} UnitBytes(tree: seq<File>)
    ensures TotalBytes(tree, UNIT) == |tree|
  {
    if tree != [] {
      UnitBytes(tree[1..]);
    }
  }

  lemma SampleIsSound(n: nat)
    ensures Sound(Ledger(SampleWorkOrder(), [SampleProfile(7)], [], SampleAppeals(n)))
  {
    var ledger := Ledger(SampleWorkOrder(), [SampleProfile(7)], [], SampleAppeals(n));
    SampleBindings(SampleWorkOrder());
    forall a | a in ledger.appeals
      ensures VerifyAppeal(a, ledger.workOrder) && Appealed(ledger, a)
    {
      SampleAppealVerifies(a);
      assert SampleProfile(7) in ledger.profiles;
    }
  }

  lemma SampleResolves()
    ensures DeriveStatus(SampleWorkOrder(), [SampleProfile(7)], [], 0) == Success((BundleActive, Some(7)))
  {
    SampleBindings(SampleWorkOrder());
    assert VerifyProfile(SampleProfile(7), SampleWorkOrder());
    PathResolves(SampleWorkOrder(), [SampleProfile(7)], [], [SampleProfile(7)], []);
  }

  /** A run of commits reaches a ledger at the limit: one active profile under 4093 appeals. */
  lemma FullBundleExists()
    returns (host: Host, operations: seq<Operation>, ledger: Ledger, written: seq<File>)
    ensures ledger == Run(EmptyLedger(SampleWorkOrder()), operations) && host.authentic(ledger.workOrder)
    ensures ReadSnapshot(ledger, 0).Success?
    ensures WriteBundle(host, ReadSnapshot(ledger, 0).value, 3) == Success(written)
    ensures VerifyBundle(host, written).Failure?
  {
    host := Host((_: WorkOrder) => true, UNIT);
    operations := AppealCommits(MAX_FILES - 3);
    ledger := Run(EmptyLedger(SampleWorkOrder()), operations);
    AppealsAreCommitted(MAX_FILES - 3);
    SampleBindings(SampleWorkOrder());
    SampleIsSound(MAX_FILES - 3);
    SampleResolves();
    var snapshot := ReadSnapshot(ledger, 0).value;
    UnitHostWrites(host, snapshot);
    written := WriteBundle(host, snapshot, 3).value;
    FullBundleNeverVerifies(host, ledger, 0, 3, written, written);
  }

  lemma UnitHostWrites(host: Host, snapshot: Snapshot)
    requires host.size == UNIT
    requires UniqueBinding(snapshot.ledger.workOrder, Sidecar) == Some(KeyBinding(Sidecar, "sidecar", 3, true))
    requires |SnapshotFiles(snapshot)| <= MAX_FILES
    ensures WriteBundle(host, snapshot, 3).Success?
  {
    UnitBytes(SnapshotFiles(snapshot));
  }

  /** A manifest fixes every payload: two trees that load under one manifest hold the same files. */
  lemma ManifestFixesFiles(host: Host, s: seq<File>, t: seq<File>, manifest: Manifest, path: Path)
    requires LoadManifest(host, s) == Success(manifest) && LoadManifest(host, t) == Success(manifest)
    requires path != ManifestPath && Has(s, path)
    ensures Has(t, path) && At(t, path).payload == At(s, path).payload
  {
    var file := At(s, path);
    assert path in FilePaths(s);
    assert path in EntryPaths(manifest.body.entries);
    var e :| e in manifest.body.entries && e.path == path;
    assert Has(s, e.path) && At(s, e.path).payload == e.hash;
    assert Has(t, e.path) && At(t, e.path).payload == e.hash;
  }

  /** A derived status speaks about one simple path through the given objects. */
  lemma StatusMeansPath(
    workOrder: WorkOrder, profiles: seq<Profile>, transitions: seq<Transition>, evaluatedAt: Instant,
    status: BundleStatus, current: Option<Digest>)
    returns (path: seq<Profile>, edges: seq<Transition>)
    requires DeriveStatus(workOrder, profiles, transitions, evaluatedAt) == Success((status, current))
    ensures FormsPath(workOrder, profiles, transitions, path, edges)
    ensures status == BundleRevoked <==> |edges| == |path|
    ensures status != BundleRevoked ==> current == Some(path[|path| - 1].id)
    ensures status == BundleActive <==>
      |edges| < |path| && path[|path| - 1].validFrom <= evaluatedAt <= path[|path| - 1].expiresAt
  {
    path, edges := ResolvedHistoryIsPath(workOrder, profiles, transitions);
  }
}

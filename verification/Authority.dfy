/**
 External authority checkpoints: committed one revision at a time
 (src/openworkproof/binding_transactions.py), validated as a chain and evaluated as of a decision
 (src/openworkproof/authority.py). A signature is the key that made it and the digest it covers.
 */
module Authority {
  import opened Collections
  import opened BindingCommit

  datatype Checkpoint = Checkpoint(
    id: Digest,
    digest: Digest,
    namespace: string,
    subjectId: string,
    revision: nat,
    predecessor: Option<Digest>,
    effectiveAt: nat,
    expiresAt: nat,
    signer: nat,
    signed: Digest)

  datatype Row = Row(checkpoint: Checkpoint, committedAt: nat)

  /** Revisions 1, 2, 3, ... once each, every checkpoint naming the digest of the one before. */
  ghost predicate Rung(chain: seq<Checkpoint>, i: int) {
    && 0 <= i < |chain|
    && chain[i].revision == i + 1
    && chain[i].predecessor == if i == 0 then None else Some(chain[i - 1].digest)
  }

  ghost predicate Ladder(chain: seq<Checkpoint>) {
    forall i {:trigger Rung(chain, i)} :: 0 <= i < |chain| ==> Rung(chain, i)
  }

  // ----- committing ------------------------------------------------------------------

  predicate WellFormed(c: Checkpoint) {
    && c.revision >= 1
    && (c.revision == 1 <==> c.predecessor.None?)
    && c.effectiveAt < c.expiresAt
  }

  predicate Belongs(c: Checkpoint, namespace: string, subjectId: string) {
    c.namespace == namespace && c.subjectId == subjectId
  }

  function FindRevision(table: seq<Row>, namespace: string, subjectId: string, revision: int): Option<Row> {
    if table == [] then None
    else if Belongs(table[0].checkpoint, namespace, subjectId) && table[0].checkpoint.revision == revision then Some(table[0])
    else FindRevision(table[1..], namespace, subjectId, revision)
  }

  function StageCheckpoint(c: Checkpoint, at: nat, table: seq<Row>): StageResult<seq<Row>, Row> {
    var fork := FindRevision(table, c.namespace, c.subjectId, c.revision);
    var predecessor := FindRevision(table, c.namespace, c.subjectId, c.revision - 1);
    if exists r :: r in table && r.checkpoint.id == c.id then
      if exists r :: r in table && r.checkpoint == c then StageCommitted(Row(c, at)) else StageTransactionError
    else if fork.Some? then StageTransactionError
    else if c.revision == 1 then
      if c.predecessor.Some? then StageTransactionError else Staged(table + [Row(c, at)], Row(c, at))
    else if predecessor.None? then StageTransactionError
    else if c.predecessor != Some(predecessor.value.checkpoint.digest) then StageTransactionError
    else if predecessor.value.committedAt > at then StageTransactionError
    else Staged(table + [Row(c, at)], Row(c, at))
  }

  predicate CheckpointReadback(table: seq<Row>, row: Row) {
    row in table
  }

  predicate CheckpointPresent(table: seq<Row>, row: Row) {
    exists r :: r in table && r.checkpoint == row.checkpoint
  }

  function CommitCheckpointAttempt(table: seq<Row>, c: Checkpoint, at: nat, env: Environment, fault: Fault)
    : (seq<Row>, Outcome<Row>)
  {
    if !WellFormed(c) then (table, InputError)
    else Attempt(table, (t: seq<Row>) => StageCheckpoint(c, at, t), CheckpointReadback, env, fault)
  }

  lemma CheckpointStageFaithful(table: seq<Row>, c: Checkpoint, at: nat)
    ensures FaithfulStage(table, (t: seq<Row>) => StageCheckpoint(c, at, t), CheckpointReadback, CheckpointPresent)
  {
    assert Row(c, at) in table ==> Row(c, at).checkpoint.id == c.id;
    assert Row(c, at) in table + [Row(c, at)];
  }

  method CommitAuthorityCheckpoint(file: LedgerFile<seq<Row>>, c: Checkpoint, at: nat, env: Environment, fault: Fault)
    returns (outcome: Outcome<Row>)
    requires CommitIsHonest(env)
    modifies file
    ensures (file.durable, outcome) == CommitCheckpointAttempt(old(file.durable), c, at, env, fault)
    ensures outcome.Returned? ==> Row(c, at) in file.durable
    ensures outcome.CommittedError? ==> exists r :: r in file.durable && r.checkpoint == c
    ensures outcome.InputError? || outcome.TransactionError? ==> file.durable == old(file.durable)
  {
    if !WellFormed(c) {
      return InputError;
    }
    var stage := (t: seq<Row>) => StageCheckpoint(c, at, t);
    CheckpointStageFaithful(file.durable, c, at);
    OutcomeIsTruth(file.durable, stage, CheckpointReadback, CheckpointPresent, env, fault);
    outcome := file.CommitWithReadback(stage, CheckpointReadback, env, fault);
  }

  // ----- one authority subject ----------------------------------------------------------

  /** The checkpoints of one subject, in commit order. */
  function OfSubject(table: seq<Row>, namespace: string, subjectId: string): seq<Checkpoint> {
    if table == [] then []
    else
      var n := |table| - 1;
      OfSubject(table[..n], namespace, subjectId)
      + if Belongs(table[n].checkpoint, namespace, subjectId) then [table[n].checkpoint] else []
  }

  function InsertByRevision(c: Checkpoint, sorted: seq<Checkpoint>): seq<Checkpoint> {
    if sorted == [] || sorted[|sorted| - 1].revision <= c.revision then sorted + [c]
    else InsertByRevision(c, sorted[..|sorted| - 1]) + [sorted[|sorted| - 1]]
  }

  /** Stable sort by revision, as ORDER BY and sorted() do. */
  function SortByRevision(chain: seq<Checkpoint>): seq<Checkpoint> {
    if chain == [] then []
    else InsertByRevision(chain[|chain| - 1], SortByRevision(chain[..|chain| - 1]))
  }

  lemma {:induction false} SortOfSorted(chain: seq<Checkpoint>)
    requires forall i :: 0 < i < |chain| ==> chain[i - 1].revision <= chain[i].revision
    ensures SortByRevision(chain) == chain
  {
    if chain != [] {
      var n := |chain| - 1;
      SortOfSorted(chain[..n]);
      assert chain[..n] + [chain[n]] == chain;
    }
  }

  function LoadAuthorityChain(table: seq<Row>, namespace: string, subjectId: string): seq<Checkpoint> {
    SortByRevision(OfSubject(table, namespace, subjectId))
  }

  lemma {:induction false} FindRevisionFacts(table: seq<Row>, namespace: string, subjectId: string, revision: int)
    ensures var found := FindRevision(table, namespace, subjectId, revision);
      if found.Some?
      then found.value in table && Belongs(found.value.checkpoint, namespace, subjectId)
           && found.value.checkpoint.revision == revision
      else forall r :: r in table && Belongs(r.checkpoint, namespace, subjectId) ==> r.checkpoint.revision != revision
  {
    if table != [] {
      FindRevisionFacts(table[1..], namespace, subjectId, revision);
      assert table == [table[0]] + table[1..];
    }
  }

  lemma {:induction false} OfSubjectMembers(table: seq<Row>, namespace: string, subjectId: string)
    ensures forall c :: c in OfSubject(table, namespace, subjectId) <==>
      exists r :: r in table && r.checkpoint == c && Belongs(c, namespace, subjectId)
  {
    if table != [] {
      var n := |table| - 1;
      OfSubjectMembers(table[..n], namespace, subjectId);
      assert table == table[..n] + [table[n]];
    }
  }

  /** What every run keeps: each subject's checkpoints climb one rung at a time. */
  ghost predicate AllLadders(table: seq<Row>) {
    forall namespace, subjectId :: Ladder(OfSubject(table, namespace, subjectId))
  }

  lemma StageClimbs(table: seq<Row>, c: Checkpoint, at: nat)
    requires AllLadders(table) && WellFormed(c) && StageCheckpoint(c, at, table).Staged?
    ensures AllLadders(table + [Row(c, at)])
  {
    var longer := table + [Row(c, at)];
    assert longer[..|table|] == table;
    forall namespace, subjectId
      ensures Ladder(OfSubject(longer, namespace, subjectId))
    {
      var before := OfSubject(table, namespace, subjectId);
      if Belongs(c, namespace, subjectId) {
        NextRung(table, c, at, before);
        var after := before + [c];
        assert OfSubject(longer, namespace, subjectId) == after;
        forall i | 0 <= i < |after|
          ensures Rung(after, i)
        {
          assert i < |before| ==> Rung(before, i);
        }
      } else {
        assert OfSubject(longer, namespace, subjectId) == before;
      }
    }
  }

  lemma LadderHasRevision(chain: seq<Checkpoint>, revision: nat)
    requires Ladder(chain)
    ensures 1 <= revision <= |chain| ==> exists i :: 0 <= i < |chain| && chain[i].revision == revision
  {
    if 1 <= revision <= |chain| {
      assert Rung(chain, revision - 1);
    }
  }

  lemma NextRung(table: seq<Row>, c: Checkpoint, at: nat, before: seq<Checkpoint>)
    requires before == OfSubject(table, c.namespace, c.subjectId) && Ladder(before)
    requires WellFormed(c) && StageCheckpoint(c, at, table).Staged?
    ensures Rung(before + [c], |before|)
  {
    var n := |before|;
    FindRevisionFacts(table, c.namespace, c.subjectId, c.revision);
    FindRevisionFacts(table, c.namespace, c.subjectId, c.revision - 1);
    OfSubjectMembers(table, c.namespace, c.subjectId);
    forall i | 0 <= i < n
      ensures before[i].revision != c.revision
    {
      assert before[i] in before;
    }
    LadderHasRevision(before, c.revision);
    if c.revision > 1 {
      var predecessor := FindRevision(table, c.namespace, c.subjectId, c.revision - 1).value.checkpoint;
      assert predecessor in before;
      var i :| 0 <= i < n && before[i] == predecessor;
      assert Rung(before, i);
    }
  }

  // ----- exactly when a checkpoint is committed --------------------------------------

  lemma {:induction false} RepeatedRow(table: seq<Row>, i: nat, j: nat)
    requires i < j < |table| && table[i].checkpoint == table[j].checkpoint
    ensures var c := table[i].checkpoint; !NoDup(OfSubject(table, c.namespace, c.subjectId))
    decreases |table|
  {
    var n, c := |table| - 1, table[i].checkpoint;
    var before := OfSubject(table[..n], c.namespace, c.subjectId);
    if j < n {
      RepeatedRow(table[..n], i, j);
      var p, q :| 0 <= p < q < |before| && before[p] == before[q];
      var after := OfSubject(table, c.namespace, c.subjectId);
      assert after[p] == after[q];
    } else {
      OfSubjectMembers(table[..n], c.namespace, c.subjectId);
      assert table[..n][i] in table[..n];
      var p :| 0 <= p < |before| && before[p] == c;
      var after := OfSubject(table, c.namespace, c.subjectId);
      assert after[p] == after[|before|];
    }
  }

  lemma OneRowEach(table: seq<Row>, r: Row, q: Row)
    requires AllLadders(table) && r in table && q in table && r.checkpoint == q.checkpoint
    ensures r == q
  {
    var i :| 0 <= i < |table| && table[i] == r;
    var j :| 0 <= j < |table| && table[j] == q;
    var chain := OfSubject(table, r.checkpoint.namespace, r.checkpoint.subjectId);
    assert NoDup(chain) by {
      forall p, s | 0 <= p < s < |chain|
        ensures chain[p] != chain[s]
      {
        assert Rung(chain, p) && Rung(chain, s);
      }
    }
    if i < j {
      RepeatedRow(table, i, j);
    } else if j < i {
      RepeatedRow(table, j, i);
    }
  }

  /** The checkpoint is new, is the next rung of its subject's ladder, and is not earlier than the one below. */
  ghost predicate NextUp(table: seq<Row>, c: Checkpoint, at: nat) {
    var before := OfSubject(table, c.namespace, c.subjectId);
    && (forall r :: r in table ==> r.checkpoint.id != c.id)
    && Rung(before + [c], |before|)
    && (before != [] ==> exists r :: r in table && r.checkpoint == before[|before| - 1] && r.committedAt <= at)
  }

  lemma CheckpointStagedIff(table: seq<Row>, c: Checkpoint, at: nat)
    requires AllLadders(table) && WellFormed(c)
    ensures StageCheckpoint(c, at, table).Staged? <==> NextUp(table, c, at)
  {
    var before := OfSubject(table, c.namespace, c.subjectId);
    assert Ladder(before);
    FindRevisionFacts(table, c.namespace, c.subjectId, c.revision);
    FindRevisionFacts(table, c.namespace, c.subjectId, c.revision - 1);
    OfSubjectMembers(table, c.namespace, c.subjectId);
    if StageCheckpoint(c, at, table).Staged? {
      NextRung(table, c, at, before);
      if before != [] {
        RungBelow(table, c, before);
      }
    }
    if NextUp(table, c, at) {
      NothingThere(table, c, before);
      if before != [] {
        RungBelow(table, c, before);
        var r :| r in table && r.checkpoint == before[|before| - 1] && r.committedAt <= at;
        OneRowEach(table, r, FindRevision(table, c.namespace, c.subjectId, c.revision - 1).value);
      }
    }
  }

  lemma NothingThere(table: seq<Row>, c: Checkpoint, before: seq<Checkpoint>)
    requires before == OfSubject(table, c.namespace, c.subjectId) && Ladder(before) && Rung(before + [c], |before|)
    ensures FindRevision(table, c.namespace, c.subjectId, c.revision).None?
  {
    FindRevisionFacts(table, c.namespace, c.subjectId, c.revision);
    OfSubjectMembers(table, c.namespace, c.subjectId);
    forall r | r in table && Belongs(r.checkpoint, c.namespace, c.subjectId)
      ensures r.checkpoint.revision != c.revision
    {
      assert r.checkpoint in before;
      var i :| 0 <= i < |before| && before[i] == r.checkpoint;
      assert Rung(before, i);
    }
  }

  /** What is found one revision below the next rung is the top of the ladder. */
  lemma RungBelow(table: seq<Row>, c: Checkpoint, before: seq<Checkpoint>)
    requires before == OfSubject(table, c.namespace, c.subjectId) && Ladder(before) && before != []
    requires Rung(before + [c], |before|)
    ensures var found := FindRevision(table, c.namespace, c.subjectId, c.revision - 1);
      found.Some? && found.value in table && found.value.checkpoint == before[|before| - 1]
  {
    FindRevisionFacts(table, c.namespace, c.subjectId, c.revision - 1);
    OfSubjectMembers(table, c.namespace, c.subjectId);
    var top := before[|before| - 1];
    assert Rung(before, |before| - 1) && top in before;
    var found := FindRevision(table, c.namespace, c.subjectId, c.revision - 1);
    assert found.value.checkpoint in before;
    var i :| 0 <= i < |before| && before[i] == found.value.checkpoint;
    assert Rung(before, i);
  }

  /** A checkpoint is committed and returned exactly when it is the next one up and nothing goes wrong. */
  lemma CheckpointReturnedIff(table: seq<Row>, c: Checkpoint, at: nat, env: Environment, fault: Fault)
    requires AllLadders(table) && CommitIsHonest(env)
    ensures var (after, outcome) := CommitCheckpointAttempt(table, c, at, env, fault);
      && (outcome.Returned? <==> Undisturbed(env, fault) && WellFormed(c) && NextUp(table, c, at))
      && (outcome.Returned? ==> outcome.value == Row(c, at) && after == table + [Row(c, at)])
  {
    if WellFormed(c) {
      CheckpointStageFaithful(table, c, at);
      ReturnedIff(table, (t: seq<Row>) => StageCheckpoint(c, at, t), CheckpointReadback, CheckpointPresent, env, fault);
      CheckpointStagedIff(table, c, at);
    }
  }

  datatype Commit = Commit(checkpoint: Checkpoint, at: nat, env: Environment, fault: Fault)

  function Run(table: seq<Row>, commits: seq<Commit>): seq<Row>
    decreases |commits|
  {
    if commits == [] then table
    else Run(CommitCheckpointAttempt(table, commits[0].checkpoint, commits[0].at, commits[0].env, commits[0].fault).0,
             commits[1..])
  }

  lemma {:induction false} RunClimbs(table: seq<Row>, commits: seq<Commit>)
    requires AllLadders(table) && forall c :: c in commits ==> CommitIsHonest(c.env)
    ensures AllLadders(Run(table, commits))
    decreases |commits|
  {
    if commits != [] {
      var c := commits[0];
      assert c in commits;
      var next := CommitCheckpointAttempt(table, c.checkpoint, c.at, c.env, c.fault).0;
      if WellFormed(c.checkpoint) {
        CheckpointStageFaithful(table, c.checkpoint, c.at);
        OutcomeIsTruth(table, (t: seq<Row>) => StageCheckpoint(c.checkpoint, c.at, t), CheckpointReadback, CheckpointPresent, c.env, c.fault);
        if next != table {
          StageClimbs(table, c.checkpoint, c.at);
        }
      }
      RunClimbs(next, commits[1..]);
    }
  }

  lemma LadderIsSorted(chain: seq<Checkpoint>)
    requires Ladder(chain)
    ensures SortByRevision(chain) == chain
  {
    forall i | 0 < i < |chain|
      ensures chain[i - 1].revision <= chain[i].revision
    {
      assert Rung(chain, i) && Rung(chain, i - 1);
    }
    SortOfSorted(chain);
  }

  // ----- validating a supplied chain --------------------------------------------------------

  datatype Status = Current | Stale | Forked | Rollback | Missing | Unavailable | Invalid

  datatype Verdict = Verdict(status: Status, head: Option<Checkpoint>, forkDigest: Option<Digest>)

  predicate SignedFor(c: Checkpoint, namespace: string, subjectId: string, key: nat) {
    Belongs(c, namespace, subjectId) && c.signer == key && c.signed == c.digest
  }

  predicate ForksAt(chain: seq<Checkpoint>, i: nat)
    requires i < |chain|
  {
    exists c :: c in chain && c.revision == chain[i].revision && c.digest != chain[i].digest
  }

  /** The first checkpoint whose revision another digest also claims. */
  function FirstFork(chain: seq<Checkpoint>, from: nat): Option<Checkpoint>
    requires from <= |chain|
    decreases |chain| - from
  {
    if from == |chain| then None
    else if ForksAt(chain, from) then Some(chain[from])
    else FirstFork(chain, from + 1)
  }

  predicate FallsBack(chain: seq<Checkpoint>) {
    exists i :: 0 < i < |chain| && chain[i].revision < chain[i - 1].revision
  }

  /** The sequence check, on the sorted chain. */
  function Climb(sorted: seq<Checkpoint>, previous: Option<Checkpoint>): Status {
    if sorted == [] then Current
    else
      var c := sorted[0];
      match previous
      case None =>
        if c.revision != 1 || c.predecessor.Some? then Invalid else Climb(sorted[1..], Some(c))
      case Some(p) =>
        if c.revision < p.revision then Rollback
        else if c.revision != p.revision + 1 then Invalid
        else if c.predecessor != Some(p.digest) then Invalid
        else Climb(sorted[1..], Some(c))
  }

  function ValidateChain(chain: seq<Checkpoint>, namespace: string, subjectId: string, key: Option<nat>): Verdict {
    if chain == [] then Verdict(Missing, None, None)
    else if key.None? then Verdict(Invalid, None, None)
    else if exists c :: c in chain && !SignedFor(c, namespace, subjectId, key.value) then Verdict(Invalid, None, None)
    else if FirstFork(chain, 0).Some? then Verdict(Forked, None, Some(FirstFork(chain, 0).value.digest))
    else if FallsBack(chain) then Verdict(Rollback, None, None)
    else
      var status := Climb(SortByRevision(chain), None);
      if status == Current then Verdict(Current, Some(chain[|chain| - 1]), None) else Verdict(status, None, None)
  }

  method ValidateAuthorityChain(chain: seq<Checkpoint>, namespace: string, subjectId: string, key: Option<nat>)
    returns (v: Verdict)
    ensures v == ValidateChain(chain, namespace, subjectId, key)
  {
    if chain == [] {
      return Verdict(Missing, None, None);
    }
    if key.None? {
      return Verdict(Invalid, None, None);
    }
    for i := 0 to |chain|
      invariant forall k :: 0 <= k < i ==> SignedFor(chain[k], namespace, subjectId, key.value)
    {
      if !SignedFor(chain[i], namespace, subjectId, key.value) {
        assert chain[i] in chain;
        return Verdict(Invalid, None, None);
      }
    }
    for i := 0 to |chain|
      invariant FirstFork(chain, 0) == FirstFork(chain, i)
    {
      if ForksAt(chain, i) {
        return Verdict(Forked, None, Some(chain[i].digest));
      }
    }
    for i := 1 to |chain|
      invariant forall k :: 0 < k < i ==> chain[k].revision >= chain[k - 1].revision
    {
      if chain[i].revision < chain[i - 1].revision {
        return Verdict(Rollback, None, None);
      }
    }
    var sorted := SortByRevision(chain);
    var previous: Option<Checkpoint> := None;
    for i := 0 to |sorted|
      invariant Climb(sorted, None) == Climb(sorted[i..], previous)
    {
      var c := sorted[i];
      assert sorted[i..][1..] == sorted[i + 1..];
      if previous.None? {
        if c.revision != 1 || c.predecessor.Some? {
          return Verdict(Invalid, None, None);
        }
      } else if c.revision < previous.value.revision {
        return Verdict(Rollback, None, None);
      } else if c.revision != previous.value.revision + 1 || c.predecessor != Some(previous.value.digest) {
        return Verdict(Invalid, None, None);
      }
      previous := Some(c);
    }
    return Verdict(Current, Some(chain[|chain| - 1]), None);
  }

  lemma {:induction false} ClimbFrom(chain: seq<Checkpoint>, from: nat)
    requires from <= |chain|
    requires forall i :: 0 <= i < from ==> Rung(chain, i)
    ensures Climb(chain[from..], if from == 0 then None else Some(chain[from - 1])) == Current <==> Ladder(chain)
    decreases |chain| - from
  {
    if from < |chain| {
      assert chain[from..][1..] == chain[from + 1..];
      assert from > 0 ==> Rung(chain, from - 1);
      if Rung(chain, from) {
        ClimbFrom(chain, from + 1);
      }
    }
  }

  lemma {:induction false} LadderHasNoFork(chain: seq<Checkpoint>, from: nat)
    requires Ladder(chain) && from <= |chain|
    ensures FirstFork(chain, from).None?
    decreases |chain| - from
  {
    if from < |chain| {
      forall c | c in chain && c.revision == chain[from].revision
        ensures c == chain[from]
      {
        var i :| 0 <= i < |chain| && chain[i] == c;
        assert Rung(chain, i) && Rung(chain, from);
      }
      LadderHasNoFork(chain, from + 1);
    }
  }

  /** A chain is current exactly when every checkpoint is signed for the subject and they climb in order. */
  lemma CurrentIffLadder(chain: seq<Checkpoint>, namespace: string, subjectId: string, key: Option<nat>)
    ensures ValidateChain(chain, namespace, subjectId, key).status == Current <==>
      && chain != [] && key.Some?
      && (forall c :: c in chain ==> SignedFor(c, namespace, subjectId, key.value))
      && Ladder(chain)
    ensures ValidateChain(chain, namespace, subjectId, key).status == Current ==>
      ValidateChain(chain, namespace, subjectId, key).head == Some(chain[|chain| - 1])
  {
    OrderedIffLadder(chain);
  }

  /** What the fork, order and sequence checks come to together. */
  lemma OrderedIffLadder(chain: seq<Checkpoint>)
    ensures FirstFork(chain, 0).None? && !FallsBack(chain) && Climb(SortByRevision(chain), None) == Current <==> Ladder(chain)
  {
    if Ladder(chain) {
      LadderHasNoFork(chain, 0);
      LadderRises(chain);
    }
    if !FallsBack(chain) {
      SortedClimb(chain);
    }
  }

  lemma SortedClimb(chain: seq<Checkpoint>)
    requires !FallsBack(chain)
    ensures Climb(SortByRevision(chain), None) == Current <==> Ladder(chain)
  {
    SortOfSorted(chain);
    assert chain[0..] == chain;
    ClimbFrom(chain, 0);
  }

  lemma LadderRises(chain: seq<Checkpoint>)
    requires Ladder(chain)
    ensures !FallsBack(chain)
  {
    forall i | 0 < i < |chain|
      ensures chain[i].revision >= chain[i - 1].revision
    {
      assert Rung(chain, i) && Rung(chain, i - 1);
    }
  }

  // ----- which status -------------------------------------------------------------------------

  /** Checkpoint `i` is the first whose revision a checkpoint of another digest also has. */
  ghost predicate FirstForkAt(chain: seq<Checkpoint>, i: int) {
    && 0 <= i < |chain| && ForksAt(chain, i)
    && forall k :: 0 <= k < i ==> !ForksAt(chain, k)
  }

  ghost predicate Forks(chain: seq<Checkpoint>) {
    exists i, j :: 0 <= i < |chain| && 0 <= j < |chain|
                   && chain[i].revision == chain[j].revision && chain[i].digest != chain[j].digest
  }

  lemma {:induction false} FirstForkIs(chain: seq<Checkpoint>, from: nat) returns (at: nat)
    requires from <= |chain| && forall k :: 0 <= k < from ==> !ForksAt(chain, k)
    ensures FirstFork(chain, from).Some? <==> Forks(chain)
    ensures Forks(chain) ==> FirstForkAt(chain, at) && FirstFork(chain, from) == Some(chain[at])
    decreases |chain| - from
  {
    at := from;
    if from == |chain| {
      forall i, j | 0 <= i < |chain| && 0 <= j < |chain| && chain[i].revision == chain[j].revision
        ensures chain[i].digest == chain[j].digest
      {
        assert !ForksAt(chain, i) && chain[j] in chain;
      }
    } else if ForksAt(chain, from) {
      var c :| c in chain && c.revision == chain[from].revision && c.digest != chain[from].digest;
      var j :| 0 <= j < |chain| && chain[j] == c;
      assert Forks(chain);
    } else {
      at := FirstForkIs(chain, from + 1);
    }
  }

  lemma {:induction false} RisingNeverFallsBack(sorted: seq<Checkpoint>, previous: Option<Checkpoint>)
    requires forall i :: 0 < i < |sorted| ==> sorted[i - 1].revision <= sorted[i].revision
    requires sorted != [] && previous.Some? ==> previous.value.revision <= sorted[0].revision
    ensures Climb(sorted, previous) != Rollback
  {
    if sorted != [] {
      RisingNeverFallsBack(sorted[1..], Some(sorted[0]));
    }
  }

  /** What is wrong with a supplied chain first: a signature, a fork, a step back, or a rung out of place. */
  lemma StatusIs(chain: seq<Checkpoint>, namespace: string, subjectId: string, key: nat)
    requires chain != []
    ensures var verdict := ValidateChain(chain, namespace, subjectId, Some(key));
      if exists c :: c in chain && !SignedFor(c, namespace, subjectId, key) then verdict == Verdict(Invalid, None, None)
      else if Forks(chain) then exists i :: FirstForkAt(chain, i) && verdict == Verdict(Forked, None, Some(chain[i].digest))
      else if FallsBack(chain) then verdict == Verdict(Rollback, None, None)
      else if !Ladder(chain) then verdict == Verdict(Invalid, None, None)
      else verdict == Verdict(Current, Some(chain[|chain| - 1]), None)
  {
    var at := FirstForkIs(chain, 0);
    OrderedIffLadder(chain);
    if !FallsBack(chain) {
      SortOfSorted(chain);
      RisingNeverFallsBack(chain, None);
      ClimbStatuses(chain, None);
    }
  }

  /** Whatever was committed for a subject loads as a current chain headed by its highest revision. */
  lemma CommittedChainIsCurrent(commits: seq<Commit>, namespace: string, subjectId: string, key: nat)
    requires forall c :: c in commits ==> CommitIsHonest(c.env)
    requires var chain := LoadAuthorityChain(Run([], commits), namespace, subjectId);
      chain != [] && forall c :: c in chain ==> c.signer == key && c.signed == c.digest
    ensures var chain := LoadAuthorityChain(Run([], commits), namespace, subjectId);
      && Ladder(chain)
      && ValidateChain(chain, namespace, subjectId, Some(key)) == Verdict(Current, Some(chain[|chain| - 1]), None)
      && chain[|chain| - 1].revision == |chain|
  {
    RunClimbs([], commits);
    LoadedIsCurrent(Run([], commits), namespace, subjectId, key);
  }

  lemma LoadedIsCurrent(table: seq<Row>, namespace: string, subjectId: string, key: nat)
    requires AllLadders(table)
    requires var chain := LoadAuthorityChain(table, namespace, subjectId);
      chain != [] && forall c :: c in chain ==> c.signer == key && c.signed == c.digest
    ensures var chain := LoadAuthorityChain(table, namespace, subjectId);
      && Ladder(chain)
      && ValidateChain(chain, namespace, subjectId, Some(key)) == Verdict(Current, Some(chain[|chain| - 1]), None)
      && chain[|chain| - 1].revision == |chain|
  {
    var chain := OfSubject(table, namespace, subjectId);
    LadderIsSorted(chain);
    OfSubjectMembers(table, namespace, subjectId);
    CurrentIffLadder(chain, namespace, subjectId, Some(key));
    assert Rung(chain, |chain| - 1);
  }

  /** The status of the authority at the time of the action. */
  function EvaluateStatus(
    chain: seq<Checkpoint>, namespace: string, subjectId: string, key: Option<nat>, occurredAt: nat, resolverUnavailable: bool
  ): (Status, Option<Digest>) {
    if resolverUnavailable then (Unavailable, None)
    else
      var verdict := ValidateChain(chain, namespace, subjectId, key);
      if verdict.status == Rollback && chain != [] then (Rollback, Some(chain[|chain| - 1].digest))
      else if verdict.status != Current then (verdict.status, verdict.forkDigest)
      else if verdict.head.None? then (Missing, None)
      else if verdict.head.value.effectiveAt <= occurredAt < verdict.head.value.expiresAt then
        (Current, Some(verdict.head.value.digest))
      else (Stale, Some(verdict.head.value.digest))
  }

  lemma {:induction false} ClimbStatuses(sorted: seq<Checkpoint>, previous: Option<Checkpoint>)
    ensures Climb(sorted, previous) in {Current, Rollback, Invalid}
  {
    if sorted != [] {
      ClimbStatuses(sorted[1..], Some(sorted[0]));
    }
  }
}

/**
 Binding decisions (src/openworkproof/binding_transactions.py): each commit checks its references, may
 supersede one earlier decision, and may also start a new root. The store is therefore a forest of
 chains, and the current-decision loader works exactly on a forest of one.
 Rows stand in commit order.
 */
module BindingDecisions {
  import opened Collections
  import opened BindingCommit

  datatype Receipt = Receipt(id: Digest, digest: Digest)

  datatype Verdict = BOUND | UNBOUND | INDETERMINATE

  datatype AuthorityStatus = NotRequired | CurrentAuthority | StaleAuthority | ForkedAuthority | MissingAuthority | UnavailableAuthority

  /** Reason codes, in the order their texts sort. */
  datatype Reason =
    | ActionArgumentsMismatch
    | ActionDigestMismatch
    | ActionMappingRejected
    | ActionOutsideApprovedScope
    | ActionSideEffectUndeclared
    | AdapterProfileDigestMismatch
    | AlternativeWorkOrderDetected
    | AuthorityCheckpointMissing
    | AuthorityCheckpointSignatureInvalid
    | AuthorityCheckpointStale
    | AuthorityForkDetected
    | AuthorityRollbackDetected
    | EvaluatorVersionDrift
    | EvidenceIncomplete
    | IndependenceUnproven
    | JudgmentArtifactMissing
    | JudgmentDigestMismatch
    | JudgmentDispositionDigestMismatch
    | JudgmentExpired
    | JudgmentFactsDigestMismatch
    | JudgmentSignatureInvalid
    | JudgmentSuperseded
    | ReplayDiverged
    | ReplayUnavailable
    | UnsignedMetadataReference
    | VerificationNotCurrent

  datatype Decision = Decision(
    id: Digest,
    digest: Digest,
    workOrderDigest: Digest,
    judgmentDigest: Digest,
    manifestDigest: Digest,
    verification: Reference,
    receipts: seq<Receipt>,
    verdict: Verdict,
    reasons: seq<Reason>,
    authority: AuthorityStatus,
    checkpointDigest: Option<Digest>,
    supersedes: Option<Reference>,
    decidedAt: nat,
    nonce: Digest)

  datatype BoundManifest = BoundManifest(
    id: Digest, workOrderDigest: Digest, digest: Digest, judgment: Reference, adapterProfileDigest: Digest,
    createdAt: nat, expiresAt: nat)

  datatype BoundJudgment = BoundJudgment(
    id: Digest, digest: Digest, namespace: string, subjectId: string, validFrom: nat, expiresAt: nat)

  datatype VerificationVerdict = VERIFIED | REFUTED | UNKNOWN

  datatype Assurance = Standard | HighRisk

  datatype Verification = Verification(
    id: Digest, digest: Digest, workOrderDigest: Digest, profileDigest: Digest,
    verdict: VerificationVerdict, assurance: Assurance, decidedAt: nat)

  /** The committed rows a decision refers to: three tables by digest, receipts by id. */
  datatype References = References(
    judgments: map<Digest, BoundJudgment>,
    manifests: map<Digest, BoundManifest>,
    verifications: map<Digest, Verification>,
    receipts: map<Digest, Digest>)

  datatype Row = Row(decision: Decision, committedAt: nat)

  datatype Supersession = Supersession(child: Digest, parent: Digest, parentDigest: Digest)

  datatype Store = Store(
    workOrderDigest: Digest,
    references: References,
    rows: seq<Row>,
    supersessions: seq<Supersession>)

  // ----- one commit --------------------------------------------------------------------

  /** The consistency checks against the referenced rows; input errors are missing rows. */
  function ReferenceFault(references: References, workOrderDigest: Digest, d: Decision): Option<StageResult<Store, Row>> {
    if d.judgmentDigest !in references.judgments || d.manifestDigest !in references.manifests
       || d.verification.digest !in references.verifications then Some(StageInputError)
    else
      var judgment := references.judgments[d.judgmentDigest];
      var manifest := references.manifests[d.manifestDigest];
      var verification := references.verifications[d.verification.digest];
      if manifest.judgment != Reference(judgment.id, judgment.digest) then Some(StageTransactionError)
      else if verification.workOrderDigest != workOrderDigest then Some(StageTransactionError)
      else if verification.profileDigest != manifest.adapterProfileDigest then Some(StageTransactionError)
      else if verification.verdict != VERIFIED then Some(StageTransactionError)
      else if d.verification != Reference(verification.id, verification.digest) then Some(StageTransactionError)
      else if !(judgment.validFrom <= d.decidedAt < judgment.expiresAt) then Some(StageTransactionError)
      else if !(manifest.createdAt <= d.decidedAt < manifest.expiresAt) then Some(StageTransactionError)
      else if verification.decidedAt > d.decidedAt then Some(StageTransactionError)
      else if exists r :: r in d.receipts && !(r.id in references.receipts && references.receipts[r.id] == r.digest)
      then Some(StageTransactionError)
      else None
  }

  function Find(rows: seq<Row>, id: Digest): Option<Row> {
    if rows == [] then None
    else if rows[0].decision.id == id then Some(rows[0])
    else Find(rows[1..], id)
  }

  predicate IsParent(supersessions: seq<Supersession>, id: Digest) {
    exists s :: s in supersessions && s.parent == id
  }

  predicate ParentRefuses(store: Store, d: Decision, at: nat)
    requires d.supersedes.Some?
  {
    var parent := Find(store.rows, d.supersedes.value.id);
    || parent.None?
    || parent.value.decision.digest != d.supersedes.value.digest
    || parent.value.committedAt > at
    || IsParent(store.supersessions, parent.value.decision.id)
  }

  function Inserted(store: Store, row: Row): Store {
    store.(
      rows := store.rows + [row],
      supersessions := store.supersessions
        + match row.decision.supersedes
          case None => []
          case Some(parent) => [Supersession(row.decision.id, parent.id, parent.digest)])
  }

  function StageDecision(d: Decision, at: nat, store: Store): StageResult<Store, Row> {
    var existing := Find(store.rows, d.id);
    var row := Row(d, at);
    if store.workOrderDigest != d.workOrderDigest then StageTransactionError
    else if existing.Some? then
      if existing.value.decision == d then StageCommitted(row) else StageTransactionError
    else if exists r :: r in store.rows && r.decision.nonce == d.nonce then StageTransactionError
    else if ReferenceFault(store.references, store.workOrderDigest, d).Some? then
      ReferenceFault(store.references, store.workOrderDigest, d).value
    else if d.supersedes.Some? && ParentRefuses(store, d, at) then StageTransactionError
    else Staged(Inserted(store, row), row)
  }

  predicate DecisionReadback(store: Store, row: Row) {
    Find(store.rows, row.decision.id) == Some(row)
  }

  predicate DecisionPresent(store: Store, row: Row) {
    exists r :: r in store.rows && r.decision == row.decision
  }

  function CommitDecisionAttempt(store: Store, d: Decision, at: nat, env: Environment, fault: Fault): (Store, Outcome<Row>) {
    Attempt(store, (s: Store) => StageDecision(d, at, s), DecisionReadback, env, fault)
  }

  // ----- forests -------------------------------------------------------------------------

  ghost predicate FollowsParent(chain: seq<Row>, i: int) {
    && 0 <= i < |chain| - 1
    && chain[i + 1].decision.supersedes == Some(Reference(chain[i].decision.id, chain[i].decision.digest))
    && chain[i].committedAt <= chain[i + 1].committedAt
  }

  ghost predicate IsChain(chain: seq<Row>) {
    && chain != []
    && chain[0].decision.supersedes == None
    && (forall i {:trigger FollowsParent(chain, i)} :: 0 <= i < |chain| - 1 ==> FollowsParent(chain, i))
  }

  ghost predicate Place(chains: seq<seq<Row>>, r: Row, c: int, i: int) {
    0 <= c < |chains| && 0 <= i < |chains[c]| && chains[c][i] == r
  }

  ghost predicate InForest(chains: seq<seq<Row>>, r: Row) {
    exists c, i :: Place(chains, r, c, i)
  }

  /** No decision id stands in two places. */
  ghost predicate OnePlaceEach(chains: seq<seq<Row>>) {
    forall r, q, c, i, d, j ::
      Place(chains, r, c, i) && Place(chains, q, d, j) && r.decision.id == q.decision.id ==> c == d && i == j
  }

  ghost predicate LinkPlace(chains: seq<seq<Row>>, s: Supersession, c: int, i: int) {
    && 0 <= c < |chains| && 0 <= i < |chains[c]| - 1
    && s == Supersession(chains[c][i + 1].decision.id, chains[c][i].decision.id, chains[c][i].decision.digest)
  }

  ghost predicate IsLink(chains: seq<seq<Row>>, s: Supersession) {
    exists c, i :: LinkPlace(chains, s, c, i)
  }

  /** The store is the disjoint union of these chains, and the supersession table is their links. */
  ghost predicate FormsForest(store: Store, chains: seq<seq<Row>>) {
    && (forall c :: 0 <= c < |chains| ==> IsChain(chains[c]))
    && OnePlaceEach(chains)
    && (forall r :: r in store.rows <==> InForest(chains, r))
    && (forall s :: s in store.supersessions <==> IsLink(chains, s))
    && (forall i, j :: 0 <= i < j < |store.rows| ==> store.rows[i].decision.id != store.rows[j].decision.id)
    && |store.rows| == |store.supersessions| + |chains|
  }

  lemma {:induction false} FindIs(rows: seq<Row>, id: Digest)
    ensures Find(rows, id).Some? <==> exists r :: r in rows && r.decision.id == id
    ensures Find(rows, id).Some? ==> Find(rows, id).value in rows && Find(rows, id).value.decision.id == id
    ensures forall more :: Find(rows, id).Some? ==> Find(rows + more, id) == Find(rows, id)
    ensures forall more :: Find(rows, id).None? ==> Find(rows + more, id) == Find(more, id)
  {
    if rows != [] {
      FindIs(rows[1..], id);
      assert rows == [rows[0]] + rows[1..];
      forall more
        ensures (rows + more)[1..] == rows[1..] + more
      {
      }
    } else {
      forall more: seq<Row>
        ensures rows + more == more
      {
      }
    }
  }

  // ----- a commit grows the forest ---------------------------------------------------------

  /** A decision that supersedes nothing starts a chain of its own. */
  lemma RootStartsChain(store: Store, chains: seq<seq<Row>>, row: Row)
    requires FormsForest(store, chains) && row.decision.supersedes == None
    requires forall r :: r in store.rows ==> r.decision.id != row.decision.id
    ensures FormsForest(Inserted(store, row), chains + [[row]])
  {
    var after, grown := Inserted(store, row), chains + [[row]];
    var n := |chains|;
    forall r, c, i
      ensures Place(grown, r, c, i) <==> Place(chains, r, c, i) || (r == row && c == n && i == 0)
    {
    }
    forall s, c, i
      ensures LinkPlace(grown, s, c, i) <==> LinkPlace(chains, s, c, i)
    {
    }
    forall r
      ensures InForest(grown, r) <==> InForest(chains, r) || r == row
    {
      if r == row {
        assert Place(grown, row, n, 0);
      } else if InForest(chains, r) {
        var c, i :| Place(chains, r, c, i);
        assert Place(grown, r, c, i);
      }
    }
    RowsOfGrown(store, chains, grown, row, n, 0);
  }

  /** The two facts about rows that any one-row growth keeps. */
  lemma RowsOfGrown(store: Store, chains: seq<seq<Row>>, grown: seq<seq<Row>>, row: Row, n: int, m: int)
    requires FormsForest(store, chains)
    requires forall r :: r in store.rows ==> r.decision.id != row.decision.id
    requires forall r, c, i :: Place(grown, r, c, i) <==> Place(chains, r, c, i) || (r == row && c == n && i == m)
    requires forall r :: InForest(grown, r) <==> InForest(chains, r) || r == row
    ensures OnePlaceEach(grown)
    ensures forall r :: r in store.rows + [row] <==> InForest(grown, r)
    ensures forall i, j :: 0 <= i < j < |store.rows + [row]| ==>
      (store.rows + [row])[i].decision.id != (store.rows + [row])[j].decision.id
  {
    forall r, c, i | Place(chains, r, c, i)
      ensures r.decision.id != row.decision.id
    {
      assert InForest(chains, r);
    }
    forall i | 0 <= i < |store.rows|
      ensures store.rows[i].decision.id != row.decision.id
    {
      assert store.rows[i] in store.rows;
    }
  }

  /** The unsuperseded decisions are exactly the ends of the chains. */
  lemma UnsupersededIsEnd(store: Store, chains: seq<seq<Row>>, r: Row, c: nat, i: nat)
    requires FormsForest(store, chains) && Place(chains, r, c, i)
    ensures IsParent(store.supersessions, r.decision.id) <==> i < |chains[c]| - 1
  {
    if i < |chains[c]| - 1 {
      var s := Supersession(chains[c][i + 1].decision.id, r.decision.id, r.decision.digest);
      assert LinkPlace(chains, s, c, i);
      assert IsLink(chains, s);
    }
    forall s | s in store.supersessions && s.parent == r.decision.id
      ensures i < |chains[c]| - 1
    {
      assert IsLink(chains, s);
      var d, j :| LinkPlace(chains, s, d, j);
      assert Place(chains, chains[d][j], d, j);
    }
  }

  /** A decision that supersedes an unsuperseded one extends that one's chain. */
  lemma SuccessorExtendsChain(store: Store, chains: seq<seq<Row>>, row: Row, parent: Row) returns (grown: seq<seq<Row>>)
    requires FormsForest(store, chains) && parent in store.rows
    requires row.decision.supersedes == Some(Reference(parent.decision.id, parent.decision.digest))
    requires parent.committedAt <= row.committedAt
    requires !IsParent(store.supersessions, parent.decision.id)
    requires forall r :: r in store.rows ==> r.decision.id != row.decision.id
    ensures FormsForest(Inserted(store, row), grown) && |grown| == |chains|
  {
    assert InForest(chains, parent);
    var c, i :| Place(chains, parent, c, i);
    UnsupersededIsEnd(store, chains, parent, c, i);
    var m := |chains[c]|;
    grown := chains[c := chains[c] + [row]];
    var link := Supersession(row.decision.id, parent.decision.id, parent.decision.digest);
    forall k | 0 <= k < |grown[c]| - 1
      ensures FollowsParent(grown[c], k)
    {
      assert k < m - 1 ==> FollowsParent(chains[c], k);
    }
    forall r, d, j
      ensures Place(grown, r, d, j) <==> Place(chains, r, d, j) || (r == row && d == c && j == m)
    {
    }
    forall r
      ensures InForest(grown, r) <==> InForest(chains, r) || r == row
    {
      if r == row {
        assert Place(grown, row, c, m);
      } else if InForest(chains, r) {
        var d, j :| Place(chains, r, d, j);
        assert Place(grown, r, d, j);
      }
    }
    RowsOfGrown(store, chains, grown, row, c, m);
    forall s
      ensures IsLink(grown, s) <==> IsLink(chains, s) || s == link
    {
      LinksOfGrown(chains, grown, row, c, s);
    }
    assert forall s :: s in store.supersessions + [link] <==> s in store.supersessions || s == link;
  }

  lemma LinksOfGrown(chains: seq<seq<Row>>, grown: seq<seq<Row>>, row: Row, c: nat, s: Supersession)
    requires c < |chains| && chains[c] != [] && grown == chains[c := chains[c] + [row]]
    ensures var parent := chains[c][|chains[c]| - 1];
      IsLink(grown, s) <==> IsLink(chains, s) || s == Supersession(row.decision.id, parent.decision.id, parent.decision.digest)
  {
    var m := |chains[c]|;
    var link := Supersession(row.decision.id, chains[c][m - 1].decision.id, chains[c][m - 1].decision.digest);
    assert LinkPlace(grown, link, c, m - 1);
    if IsLink(chains, s) {
      var d, j :| LinkPlace(chains, s, d, j);
      assert LinkPlace(grown, s, d, j);
    }
    if IsLink(grown, s) && s != link {
      var d, j :| LinkPlace(grown, s, d, j);
      assert LinkPlace(chains, s, d, j);
    }
  }

  lemma StageGrowsForest(store: Store, chains: seq<seq<Row>>, d: Decision, at: nat) returns (grown: seq<seq<Row>>)
    requires FormsForest(store, chains) && StageDecision(d, at, store).Staged?
    ensures FormsForest(StageDecision(d, at, store).store, grown)
    ensures |grown| == |chains| + if d.supersedes.None? then 1 else 0
  {
    FindIs(store.rows, d.id);
    match d.supersedes {
      case None =>
        RootStartsChain(store, chains, Row(d, at));
        grown := chains + [[Row(d, at)]];
      case Some(reference) =>
        FindIs(store.rows, reference.id);
        grown := SuccessorExtendsChain(store, chains, Row(d, at), Find(store.rows, reference.id).value);
    }
  }

  lemma DecisionStageFaithful(store: Store, d: Decision, at: nat)
    ensures FaithfulStage(store, (s: Store) => StageDecision(d, at, s), DecisionReadback, DecisionPresent)
  {
    FindIs(store.rows, d.id);
  }

  /** The rows a decision refers to are there, agree with each other and with it, and are not later than it. */
  ghost predicate ReferencesHold(store: Store, d: Decision) {
    var known := store.references;
    && d.judgmentDigest in known.judgments && d.manifestDigest in known.manifests
    && d.verification.digest in known.verifications
    && var (judgment, manifest, verification) :=
         (known.judgments[d.judgmentDigest], known.manifests[d.manifestDigest], known.verifications[d.verification.digest]);
    && manifest.judgment.id == judgment.id && manifest.judgment.digest == judgment.digest
    && d.verification.id == verification.id && d.verification.digest == verification.digest
    && verification.verdict == VERIFIED
    && verification.workOrderDigest == store.workOrderDigest
    && verification.profileDigest == manifest.adapterProfileDigest
    && judgment.validFrom <= d.decidedAt < judgment.expiresAt
    && manifest.createdAt <= d.decidedAt < manifest.expiresAt
    && verification.decidedAt <= d.decidedAt
    && (forall r :: r in d.receipts ==> r.id in known.receipts && known.receipts[r.id] == r.digest)
  }

  /** A missing row is an input error, any disagreement a transaction error. */
  lemma ReferenceFaultIff(store: Store, d: Decision)
    ensures ReferenceFault(store.references, store.workOrderDigest, d).None? <==> ReferencesHold(store, d)
    ensures ReferenceFault(store.references, store.workOrderDigest, d) == Some(StageInputError) <==>
      || d.judgmentDigest !in store.references.judgments || d.manifestDigest !in store.references.manifests
      || d.verification.digest !in store.references.verifications
    ensures ReferenceFault(store.references, store.workOrderDigest, d) in {None, Some(StageInputError), Some(StageTransactionError)}
  {
  }

  ghost predicate FreshDecision(store: Store, id: Digest, nonce: Digest) {
    forall r :: r in store.rows ==> r.decision.id != id && r.decision.nonce != nonce
  }

  /** The reference names the end of one of the chains, committed no later than `at`. */
  ghost predicate NamesEnd(chains: seq<seq<Row>>, reference: Reference, at: nat)
  {
    exists c :: 0 <= c < |chains| && EndIs(chains[c], reference, at)
  }

  ghost predicate EndIs(chain: seq<Row>, reference: Reference, at: nat)
  {
    && chain != []
    && var end := chain[|chain| - 1];
    && reference == Reference(end.decision.id, end.decision.digest)
    && end.committedAt <= at
  }

  lemma AcceptedParentIsEnd(store: Store, chains: seq<seq<Row>>, d: Decision, at: nat)
    requires FormsForest(store, chains) && d.supersedes.Some?
    ensures !ParentRefuses(store, d, at) <==> NamesEnd(chains, d.supersedes.value, at)
  {
    var reference := d.supersedes.value;
    FindIs(store.rows, reference.id);
    if !ParentRefuses(store, d, at) {
      var parent := Find(store.rows, reference.id).value;
      assert InForest(chains, parent);
      var c, i :| Place(chains, parent, c, i);
      UnsupersededIsEnd(store, chains, parent, c, i);
      assert EndIs(chains[c], reference, at);
    }
    if NamesEnd(chains, reference, at) {
      var c :| 0 <= c < |chains| && EndIs(chains[c], reference, at);
      EndIsFound(store, chains, c);
    }
  }

  /** The end of a chain is found by its id, and no supersession names it as parent. */
  lemma EndIsFound(store: Store, chains: seq<seq<Row>>, c: nat)
    requires FormsForest(store, chains) && c < |chains|
    ensures var end := chains[c][|chains[c]| - 1];
      Find(store.rows, end.decision.id) == Some(end) && !IsParent(store.supersessions, end.decision.id)
  {
    var i := |chains[c]| - 1;
    var end := chains[c][i];
    FindIs(store.rows, end.decision.id);
    assert Place(chains, end, c, i);
    assert InForest(chains, end) && end in store.rows;
    var found := Find(store.rows, end.decision.id).value;
    assert InForest(chains, found);
    var d, j :| Place(chains, found, d, j);
    UnsupersededIsEnd(store, chains, end, c, i);
  }

  /** A decision is staged exactly when it is new, its references hold, and it supersedes nothing or the end of a chain. */
  lemma DecisionStagedIff(store: Store, chains: seq<seq<Row>>, d: Decision, at: nat)
    requires FormsForest(store, chains)
    ensures StageDecision(d, at, store).Staged? <==>
      && store.workOrderDigest == d.workOrderDigest && FreshDecision(store, d.id, d.nonce)
      && ReferencesHold(store, d)
      && (d.supersedes.Some? ==> NamesEnd(chains, d.supersedes.value, at))
  {
    FindIs(store.rows, d.id);
    ReferenceFaultIff(store, d);
    if d.supersedes.Some? {
      AcceptedParentIsEnd(store, chains, d, at);
    }
  }

  /** The same for an attempt: it returns exactly then, if nothing goes wrong, and the decision is the one new row. */
  lemma DecisionReturnedIff(store: Store, chains: seq<seq<Row>>, d: Decision, at: nat, env: Environment, fault: Fault)
    requires FormsForest(store, chains) && CommitIsHonest(env)
    ensures var (after, outcome) := CommitDecisionAttempt(store, d, at, env, fault);
      && (outcome.Returned? <==>
            && Undisturbed(env, fault)
            && store.workOrderDigest == d.workOrderDigest && FreshDecision(store, d.id, d.nonce)
            && ReferencesHold(store, d)
            && (d.supersedes.Some? ==> NamesEnd(chains, d.supersedes.value, at)))
      && (outcome.Returned? ==>
            outcome.value == Row(d, at) && after == Inserted(store, Row(d, at)) && after.rows == store.rows + [Row(d, at)])
  {
    DecisionStageFaithful(store, d, at);
    ReturnedIff(store, (s: Store) => StageDecision(d, at, s), DecisionReadback, DecisionPresent, env, fault);
    DecisionStagedIff(store, chains, d, at);
  }

  method CommitBindingDecision(file: LedgerFile<Store>, d: Decision, at: nat, env: Environment, fault: Fault)
    returns (outcome: Outcome<Row>)
    requires CommitIsHonest(env)
    modifies file
    ensures (file.durable, outcome) == CommitDecisionAttempt(old(file.durable), d, at, env, fault)
    ensures outcome.Returned? ==> Find(file.durable.rows, d.id) == Some(Row(d, at))
    ensures outcome.CommittedError? ==> exists r :: r in file.durable.rows && r.decision == d
    ensures outcome.InputError? || outcome.TransactionError? ==> file.durable == old(file.durable)
    ensures old(file.durable.rows) <= file.durable.rows
  {
    var stage := (s: Store) => StageDecision(d, at, s);
    DecisionStageFaithful(file.durable, d, at);
    OutcomeIsTruth(file.durable, stage, DecisionReadback, DecisionPresent, env, fault);
    FindIs(file.durable.rows, d.id);
    outcome := file.CommitWithReadback(stage, DecisionReadback, env, fault);
  }

  // ----- every run -----------------------------------------------------------------------------

  datatype Event =
    | Commit(decision: Decision, at: nat, env: Environment, fault: Fault)
    | ReferencesGrow(references: References)

  function Next(store: Store, event: Event): Store {
    match event
    case Commit(d, at, env, fault) => CommitDecisionAttempt(store, d, at, env, fault).0
    case ReferencesGrow(references) => store.(references := references)
  }

  function Run(store: Store, events: seq<Event>): Store
    decreases |events|
  {
    if events == [] then store else Run(Next(store, events[0]), events[1..])
  }

  /** No attempt, failed or not, merges two chains or reorders commit times. */
  lemma {:induction false} RunKeepsForest(store: Store, chains: seq<seq<Row>>, events: seq<Event>)
    returns (grown: seq<seq<Row>>)
    requires FormsForest(store, chains)
    requires forall e :: e in events && e.Commit? ==> CommitIsHonest(e.env)
    ensures FormsForest(Run(store, events), grown)
    decreases |events|
  {
    grown := chains;
    if events != [] {
      var e := events[0];
      assert e in events;
      var next := Next(store, e);
      if e.Commit? {
        DecisionStageFaithful(store, e.decision, e.at);
        OutcomeIsTruth(store, (s: Store) => StageDecision(e.decision, e.at, s), DecisionReadback, DecisionPresent, e.env, e.fault);
        if next != store {
          grown := StageGrowsForest(store, chains, e.decision, e.at);
        }
      }
      grown := RunKeepsForest(next, grown, events[1..]);
    }
  }

  lemma EmptyStoreIsForest(store: Store)
    requires store.rows == [] && store.supersessions == []
    ensures FormsForest(store, [])
  {
    assert forall r :: !InForest([], r);
    assert forall s :: !IsLink([], s);
  }

  /** Every store a run reaches from an empty one is a forest. */
  lemma ReachableStoreIsForest(store: Store, events: seq<Event>) returns (chains: seq<seq<Row>>)
    requires store.rows == [] && store.supersessions == []
    requires forall e :: e in events && e.Commit? ==> CommitIsHonest(e.env)
    ensures FormsForest(Run(store, events), chains)
  {
    EmptyStoreIsForest(store);
    chains := RunKeepsForest(store, [], events);
  }

  // ----- the current decision ----------------------------------------------------------------------

  function Heads(rows: seq<Row>, supersessions: seq<Supersession>): seq<Row> {
    if rows == [] then []
    else
      var n := |rows| - 1;
      Heads(rows[..n], supersessions) + if IsParent(supersessions, rows[n].decision.id) then [] else [rows[n]]
  }

  function RootRows(rows: seq<Row>): seq<Row> {
    if rows == [] then []
    else
      var n := |rows| - 1;
      RootRows(rows[..n]) + if rows[n].decision.supersedes.None? then [rows[n]] else []
  }

  datatype LoadError = WrongWorkOrder | NotOneHead

  function LoadCurrent(store: Store, workOrderDigest: Digest): Result<Decision, LoadError> {
    if store.workOrderDigest != workOrderDigest then Failure(WrongWorkOrder)
    else
      var heads := Heads(store.rows, store.supersessions);
      if |heads| != 1 then Failure(NotOneHead) else Success(heads[0].decision)
  }

  /** The outer join of the loader: one pass over the decisions, keeping those no supersession names as parent. */
  method LoadCurrentBindingDecision(store: Store, workOrderDigest: Digest) returns (r: Result<Decision, LoadError>)
    ensures r == LoadCurrent(store, workOrderDigest)
  {
    if store.workOrderDigest != workOrderDigest {
      return Failure(WrongWorkOrder);
    }
    var heads: seq<Row> := [];
    for i := 0 to |store.rows|
      invariant heads == Heads(store.rows[..i], store.supersessions)
    {
      assert store.rows[..i + 1][..i] == store.rows[..i];
      var superseded := false;
      for j := 0 to |store.supersessions|
        invariant superseded <==> exists k :: 0 <= k < j && store.supersessions[k].parent == store.rows[i].decision.id
      {
        if store.supersessions[j].parent == store.rows[i].decision.id {
          superseded := true;
        }
      }
      assert superseded <==> IsParent(store.supersessions, store.rows[i].decision.id) by {
        if IsParent(store.supersessions, store.rows[i].decision.id) {
          var s :| s in store.supersessions && s.parent == store.rows[i].decision.id;
          var k :| 0 <= k < |store.supersessions| && store.supersessions[k] == s;
        }
      }
      if !superseded {
        heads := heads + [store.rows[i]];
      }
    }
    assert store.rows[..|store.rows|] == store.rows;
    return if |heads| != 1 then Failure(NotOneHead) else Success(heads[0].decision);
  }

  lemma {:induction false} HeadsMembers(rows: seq<Row>, supersessions: seq<Supersession>)
    ensures forall r :: r in Heads(rows, supersessions) <==> r in rows && !IsParent(supersessions, r.decision.id)
    ensures NoDup(rows) ==> NoDup(Heads(rows, supersessions))
  {
    if rows != [] {
      var n := |rows| - 1;
      HeadsMembers(rows[..n], supersessions);
      assert rows == rows[..n] + [rows[n]];
    }
  }

  lemma {:induction false} RootRowsMembers(rows: seq<Row>)
    ensures forall r :: r in RootRows(rows) <==> r in rows && r.decision.supersedes.None?
    ensures NoDup(rows) ==> NoDup(RootRows(rows))
  {
    if rows != [] {
      var n := |rows| - 1;
      RootRowsMembers(rows[..n]);
      assert rows == rows[..n] + [rows[n]];
    }
  }

  function Ends(chains: seq<seq<Row>>): (ends: seq<Row>)
    requires forall c :: 0 <= c < |chains| ==> chains[c] != []
    ensures |ends| == |chains|
    ensures forall c :: 0 <= c < |chains| ==> ends[c] == chains[c][|chains[c]| - 1]
  {
    seq(|chains|, c requires 0 <= c < |chains| => chains[c][|chains[c]| - 1])
  }

  function Starts(chains: seq<seq<Row>>): (starts: seq<Row>)
    requires forall c :: 0 <= c < |chains| ==> chains[c] != []
    ensures |starts| == |chains|
    ensures forall c :: 0 <= c < |chains| ==> starts[c] == chains[c][0]
  {
    seq(|chains|, c requires 0 <= c < |chains| => chains[c][0])
  }

  lemma HeadsAreEnds(store: Store, chains: seq<seq<Row>>)
    requires FormsForest(store, chains)
    ensures multiset(Heads(store.rows, store.supersessions)) == multiset(Ends(chains))
  {
    var heads, ends := Heads(store.rows, store.supersessions), Ends(chains);
    HeadsMembers(store.rows, store.supersessions);
    forall c, d | 0 <= c < d < |ends|
      ensures ends[c] != ends[d]
    {
      assert Place(chains, ends[c], c, |chains[c]| - 1) && Place(chains, ends[d], d, |chains[d]| - 1);
    }
    forall r
      ensures r in heads <==> r in ends
    {
      if r in heads {
        assert InForest(chains, r);
        var c, i :| Place(chains, r, c, i);
        UnsupersededIsEnd(store, chains, r, c, i);
        assert ends[c] == r;
      }
      if r in ends {
        var c :| 0 <= c < |ends| && ends[c] == r;
        assert Place(chains, r, c, |chains[c]| - 1);
        UnsupersededIsEnd(store, chains, r, c, |chains[c]| - 1);
        assert InForest(chains, r);
      }
    }
    assert NoDup(store.rows);
    SameElements(heads, ends);
  }

  lemma RootsAreStarts(store: Store, chains: seq<seq<Row>>)
    requires FormsForest(store, chains)
    ensures multiset(RootRows(store.rows)) == multiset(Starts(chains))
  {
    var roots, starts := RootRows(store.rows), Starts(chains);
    RootRowsMembers(store.rows);
    forall c, d | 0 <= c < d < |starts|
      ensures starts[c] != starts[d]
    {
      assert Place(chains, starts[c], c, 0) && Place(chains, starts[d], d, 0);
    }
    forall r
      ensures r in roots <==> r in starts
    {
      if r in roots {
        assert InForest(chains, r);
        var c, i :| Place(chains, r, c, i);
        assert IsChain(chains[c]);
        assert i > 0 ==> FollowsParent(chains[c], i - 1);
        assert starts[c] == r;
      }
      if r in starts {
        var c :| 0 <= c < |starts| && starts[c] == r;
        assert Place(chains, r, c, 0) && IsChain(chains[c]);
        assert InForest(chains, r);
      }
    }
    assert NoDup(store.rows);
    SameElements(roots, starts);
  }

  /** Heads, roots and chains are equally many: decisions minus supersessions. */
  lemma HeadsCountRoots(store: Store, chains: seq<seq<Row>>)
    requires FormsForest(store, chains)
    ensures |Heads(store.rows, store.supersessions)| == |RootRows(store.rows)| == |chains|
         == |store.rows| - |store.supersessions|
  {
    HeadsAreEnds(store, chains);
    RootsAreStarts(store, chains);
    assert |multiset(Heads(store.rows, store.supersessions))| == |multiset(Ends(chains))|;
    assert |multiset(RootRows(store.rows))| == |multiset(Starts(chains))|;
  }

  /**
   The loader succeeds exactly when one root was ever committed; it then returns the end of the one chain,
   which holds every decision.
   */
  lemma CurrentIffOneRoot(store: Store, chains: seq<seq<Row>>)
    requires FormsForest(store, chains)
    ensures LoadCurrent(store, store.workOrderDigest).Success? <==> |RootRows(store.rows)| == 1
    ensures |RootRows(store.rows)| == 1 ==>
      && |chains| == 1
      && LoadCurrent(store, store.workOrderDigest) == Success(chains[0][|chains[0]| - 1].decision)
      && forall r :: r in store.rows <==> r in chains[0]
  {
    HeadsCountRoots(store, chains);
    if |chains| == 1 {
      HeadsAreEnds(store, chains);
      var heads := Heads(store.rows, store.supersessions);
      SameMembers(heads, Ends(chains), heads[0]);
      assert heads[0] in heads;
      assert Ends(chains) == [chains[0][|chains[0]| - 1]];
      forall r
        ensures r in store.rows <==> r in chains[0]
      {
        if r in store.rows {
          var c, i :| Place(chains, r, c, i);
        }
        if r in chains[0] {
          var i :| 0 <= i < |chains[0]| && chains[0][i] == r;
          assert Place(chains, r, 0, i);
          assert InForest(chains, r);
        }
      }
    }
  }

  /**
   Over any run from an empty store: the heads number decisions minus supersessions, and the loader succeeds
   exactly when one root was ever committed, returning the end of the one chain there is.
   */
  lemma ReachableCurrentIffOneRoot(store: Store, events: seq<Event>) returns (chains: seq<seq<Row>>)
    requires store.rows == [] && store.supersessions == []
    requires forall e :: e in events && e.Commit? ==> CommitIsHonest(e.env)
    ensures var after := Run(store, events);
      && FormsForest(after, chains)
      && |Heads(after.rows, after.supersessions)| == |after.rows| - |after.supersessions|
      && (LoadCurrent(after, after.workOrderDigest).Success? <==> |RootRows(after.rows)| == 1)
      && (|RootRows(after.rows)| == 1 ==>
            |chains| == 1 && LoadCurrent(after, after.workOrderDigest) == Success(chains[0][|chains[0]| - 1].decision))
  {
    chains := ReachableStoreIsForest(store, events);
    HeadsCountRoots(Run(store, events), chains);
    CurrentIffOneRoot(Run(store, events), chains);
  }
}

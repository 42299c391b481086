/**
 Composing a binding decision from signed inputs (src/openworkproof/binding.py), the validator every
 decision object must pass (src/openworkproof/models.py), and how both relate to the checks made when
 the decision is committed.
 */
module DecisionComposition {
  import opened Collections
  import opened BindingCommit
  import Authority
  import opened BindingDecisions

  const UNBOUND_REASONS: set<Reason> := {
    JudgmentDigestMismatch, JudgmentFactsDigestMismatch, JudgmentDispositionDigestMismatch,
    JudgmentSuperseded, AdapterProfileDigestMismatch, ActionDigestMismatch,
    ActionArgumentsMismatch, ActionMappingRejected, ActionOutsideApprovedScope,
    ActionSideEffectUndeclared, ReplayDiverged, AuthorityCheckpointStale,
    AuthorityForkDetected, AuthorityRollbackDetected, AlternativeWorkOrderDetected}

  const INDETERMINATE_REASONS: set<Reason> := {
    JudgmentArtifactMissing, ReplayUnavailable, EvaluatorVersionDrift,
    AuthorityCheckpointMissing, AlternativeWorkOrderDetected, UnsignedMetadataReference,
    EvidenceIncomplete, VerificationNotCurrent, IndependenceUnproven}

  const CHECKPOINT_FAILURES: set<Reason> := {
    AuthorityCheckpointMissing, AuthorityCheckpointStale, AuthorityCheckpointSignatureInvalid,
    AuthorityForkDetected, AuthorityRollbackDetected}

  /** An execution receipt as the composer sees it: the manifest its signed request names, if it is a bound one. */
  datatype Execution = Execution(id: Digest, digest: Digest, boundKind: bool, claims: Option<Reference>)

  datatype Replay = Replay(outcome: Verdict, reasons: seq<Reason>, digest: Digest)

  datatype Request = Request(decidedAt: nat, nonce: Digest, causalParents: seq<Digest>, supersedes: Option<Reference>)

  datatype Inputs = Inputs(
    judgment: BoundJudgment,
    manifest: BoundManifest,
    verification: Verification,
    executions: seq<Execution>,
    replay: Replay,
    checkpoint: Option<Authority.Checkpoint>,
    request: Request,
    chain: seq<Authority.Checkpoint>,
    authorityKey: Option<nat>,
    resolverUnavailable: bool)

  datatype Finding = Finding(verdict: Verdict, reasons: seq<Reason>, authority: AuthorityStatus, checkpointDigest: Option<Digest>)

  function Plain(verdict: Verdict, reason: Reason): Finding {
    Finding(verdict, [reason], NotRequired, None)
  }

  // ----- the composer ------------------------------------------------------------------

  /** The first execution that is not a bound one, or that names another manifest, decides. */
  function ExecutionFinding(executions: seq<Execution>, manifest: BoundManifest): Option<Finding> {
    if executions == [] then None
    else if !executions[0].boundKind || executions[0].claims.None? then
      Some(Plain(INDETERMINATE, UnsignedMetadataReference))
    else if executions[0].claims != Some(Reference(manifest.id, manifest.digest)) then
      Some(Plain(UNBOUND, ActionDigestMismatch))
    else ExecutionFinding(executions[1..], manifest)
  }

  predicate AllowedReasons(verdict: Verdict, reasons: seq<Reason>) {
    forall r :: r in reasons ==> r in (if verdict == UNBOUND then UNBOUND_REASONS else INDETERMINATE_REASONS)
  }

  function AuthorityFinding(inputs: Inputs): Finding {
    if inputs.chain == [] then Finding(INDETERMINATE, [AuthorityCheckpointMissing], MissingAuthority, None)
    else if inputs.authorityKey.None? then Finding(INDETERMINATE, [ReplayUnavailable], UnavailableAuthority, None)
    else
      var (status, digest) := Authority.EvaluateStatus(
        inputs.chain, inputs.judgment.namespace, inputs.judgment.subjectId, inputs.authorityKey,
        inputs.request.decidedAt, inputs.resolverUnavailable);
      match status
      case Current => Finding(BOUND, [], CurrentAuthority, digest)
      case Stale => Finding(UNBOUND, [AuthorityCheckpointStale], StaleAuthority, digest)
      case Rollback => Finding(UNBOUND, [AuthorityRollbackDetected], StaleAuthority, digest)
      case Forked => Finding(UNBOUND, [AuthorityForkDetected], ForkedAuthority, digest)
      case Unavailable => Finding(INDETERMINATE, [ReplayUnavailable], UnavailableAuthority, None)
      case _ => Finding(INDETERMINATE, [AuthorityCheckpointMissing], MissingAuthority, None)
  }

  /** Everything that is checked before the replay verdict is looked at. */
  function EvidenceFinding(inputs: Inputs): Option<Finding> {
    var v, m, j, at := inputs.verification, inputs.manifest, inputs.judgment, inputs.request.decidedAt;
    if v.verdict != VERIFIED then Some(Plain(INDETERMINATE, VerificationNotCurrent))
    else if v.workOrderDigest != m.workOrderDigest then
      Some(if v.assurance == HighRisk then Plain(UNBOUND, AlternativeWorkOrderDetected)
           else Plain(INDETERMINATE, VerificationNotCurrent))
    else if v.profileDigest != m.adapterProfileDigest then Some(Plain(UNBOUND, AdapterProfileDigestMismatch))
    else if m.judgment != Reference(j.id, j.digest) then Some(Plain(UNBOUND, JudgmentDigestMismatch))
    else if !(j.validFrom <= at < j.expiresAt) then Some(Plain(INDETERMINATE, VerificationNotCurrent))
    else if !(m.createdAt <= at < m.expiresAt) then Some(Plain(INDETERMINATE, VerificationNotCurrent))
    else ExecutionFinding(inputs.executions, m)
  }

  function Decide(inputs: Inputs): Finding {
    var evidence := EvidenceFinding(inputs);
    if evidence.Some? then evidence.value
    else if inputs.replay.outcome != BOUND then
      if AllowedReasons(inputs.replay.outcome, inputs.replay.reasons)
      then Finding(inputs.replay.outcome, inputs.replay.reasons, NotRequired, None)
      else Plain(INDETERMINATE, EvidenceIncomplete)
    else if inputs.replay.reasons != [] then Plain(INDETERMINATE, ReplayUnavailable)
    else if inputs.verification.assurance == HighRisk then AuthorityFinding(inputs)
    else if inputs.checkpoint.Some? || inputs.chain != [] then
      Finding(INDETERMINATE, [AuthorityCheckpointMissing], MissingAuthority, None)
    else Finding(BOUND, [], NotRequired, None)
  }

  function InsertReceipt(r: Receipt, sorted: seq<Receipt>): seq<Receipt> {
    if sorted == [] || r.id <= sorted[0].id then [r] + sorted
    else [sorted[0]] + InsertReceipt(r, sorted[1..])
  }

  function SortedReceipts(executions: seq<Execution>): seq<Receipt> {
    if executions == [] then []
    else InsertReceipt(Receipt(executions[0].id, executions[0].digest), SortedReceipts(executions[1..]))
  }

  /** The decision object a finding is written into; its id and digest are hashes of the content. */
  function Draft(inputs: Inputs, finding: Finding, id: Digest, digest: Digest): Decision {
    Decision(
      id, digest, inputs.manifest.workOrderDigest, inputs.judgment.digest, inputs.manifest.digest,
      Reference(inputs.verification.id, inputs.verification.digest), SortedReceipts(inputs.executions),
      finding.verdict, finding.reasons, finding.authority, finding.checkpointDigest,
      inputs.request.supersedes, inputs.request.decidedAt, inputs.request.nonce)
  }

  // ----- the validator of decision objects --------------------------------------------------

  /** The place of a code in the order of the codes' texts. */
  function Rank(reason: Reason): nat {
    match reason
    case ActionArgumentsMismatch => 0
    case ActionDigestMismatch => 1
    case ActionMappingRejected => 2
    case ActionOutsideApprovedScope => 3
    case ActionSideEffectUndeclared => 4
    case AdapterProfileDigestMismatch => 5
    case AlternativeWorkOrderDetected => 6
    case AuthorityCheckpointMissing => 7
    case AuthorityCheckpointSignatureInvalid => 8
    case AuthorityCheckpointStale => 9
    case AuthorityForkDetected => 10
    case AuthorityRollbackDetected => 11
    case EvaluatorVersionDrift => 12
    case EvidenceIncomplete => 13
    case IndependenceUnproven => 14
    case JudgmentArtifactMissing => 15
    case JudgmentDigestMismatch => 16
    case JudgmentDispositionDigestMismatch => 17
    case JudgmentExpired => 18
    case JudgmentFactsDigestMismatch => 19
    case JudgmentSignatureInvalid => 20
    case JudgmentSuperseded => 21
    case ReplayDiverged => 22
    case ReplayUnavailable => 23
    case UnsignedMetadataReference => 24
    case VerificationNotCurrent => 25
  }

  predicate SortedUnique(reasons: seq<Reason>) {
    forall i :: 0 < i < |reasons| ==> Rank(reasons[i - 1]) < Rank(reasons[i])
  }

  predicate ReceiptsValid(receipts: seq<Receipt>) {
    && receipts != []
    && StrictReceipts(receipts)
  }

  predicate StrictReceipts(receipts: seq<Receipt>) {
    forall i, j :: 0 <= i < j < |receipts| ==>
      receipts[i].id < receipts[j].id && receipts[i].digest != receipts[j].digest
  }

  predicate ReasonsValid(verdict: Verdict, reasons: seq<Reason>, authority: AuthorityStatus) {
    && SortedUnique(reasons)
    && (if verdict == BOUND then reasons == [] && authority in {NotRequired, CurrentAuthority}
        else reasons != [] && AllowedReasons(verdict, reasons))
  }

  function Failures(reasons: seq<Reason>): set<Reason> {
    set r | r in reasons && r in CHECKPOINT_FAILURES
  }

  predicate AuthorityValid(reasons: seq<Reason>, authority: AuthorityStatus, checkpointDigest: Option<Digest>) {
    var failures := Failures(reasons);
    match authority
    case NotRequired => checkpointDigest.None? && failures == {}
    case CurrentAuthority => checkpointDigest.Some? && failures == {}
    case MissingAuthority => checkpointDigest.None? && failures == {AuthorityCheckpointMissing}
    case StaleAuthority =>
      var stale := {AuthorityCheckpointStale, AuthorityRollbackDetected};
      checkpointDigest.Some? && failures * stale != {} && failures <= stale
    case ForkedAuthority => checkpointDigest.Some? && failures == {AuthorityForkDetected}
    case UnavailableAuthority => checkpointDigest.None? && ReplayUnavailable in reasons && failures == {}
  }

  predicate FindingValid(f: Finding) {
    ReasonsValid(f.verdict, f.reasons, f.authority) && AuthorityValid(f.reasons, f.authority, f.checkpointDigest)
  }

  datatype CompositionError = MalformedDecision

  function Compose(inputs: Inputs, id: Digest, digest: Digest): Result<Decision, CompositionError> {
    var finding := Decide(inputs);
    var expectedParents := if inputs.request.supersedes.Some? then [inputs.request.supersedes.value.id] else [];
    if ReceiptsValid(SortedReceipts(inputs.executions)) && FindingValid(finding)
       && inputs.request.causalParents == expectedParents
    then Success(Draft(inputs, finding, id, digest))
    else Failure(MalformedDecision)
  }

  // ----- when composing yields an object ------------------------------------------------------

  /** The composer passes the replay's own reasons on exactly here. */
  predicate CopiesReplayReasons(inputs: Inputs) {
    EvidenceFinding(inputs).None? && inputs.replay.outcome != BOUND
    && AllowedReasons(inputs.replay.outcome, inputs.replay.reasons)
  }

  predicate DistinctExecutions(executions: seq<Execution>) {
    forall i, j :: 0 <= i < j < |executions| ==>
      executions[i].id != executions[j].id && executions[i].digest != executions[j].digest
  }

  lemma {:induction false} InsertReceiptMembers(r: Receipt, sorted: seq<Receipt>)
    ensures forall x :: x in InsertReceipt(r, sorted) <==> x == r || x in sorted
    ensures |InsertReceipt(r, sorted)| == |sorted| + 1
  {
    if !(sorted == [] || r.id <= sorted[0].id) {
      InsertReceiptMembers(r, sorted[1..]);
      assert sorted == [sorted[0]] + sorted[1..];
    }
  }

  ghost predicate Ascending(receipts: seq<Receipt>) {
    forall i, j :: 0 <= i < j < |receipts| ==> receipts[i].id <= receipts[j].id
  }

  lemma {:induction false} InsertReceiptAscends(r: Receipt, sorted: seq<Receipt>)
    requires Ascending(sorted)
    ensures Ascending(InsertReceipt(r, sorted))
  {
    if !(sorted == [] || r.id <= sorted[0].id) {
      InsertReceiptAscends(r, sorted[1..]);
      InsertReceiptMembers(r, sorted[1..]);
      var rest := InsertReceipt(r, sorted[1..]);
      forall j | 0 <= j < |rest|
        ensures sorted[0].id <= rest[j].id
      {
        assert rest[j] in rest;
      }
    }
  }

  lemma {:induction false} SortedReceiptsFacts(executions: seq<Execution>)
    ensures Ascending(SortedReceipts(executions)) && |SortedReceipts(executions)| == |executions|
    ensures forall x :: x in SortedReceipts(executions) <==>
      exists e :: e in executions && x == Receipt(e.id, e.digest)
  {
    if executions != [] {
      var first := Receipt(executions[0].id, executions[0].digest);
      SortedReceiptsFacts(executions[1..]);
      InsertReceiptAscends(first, SortedReceipts(executions[1..]));
      InsertReceiptMembers(first, SortedReceipts(executions[1..]));
      assert executions == [executions[0]] + executions[1..];
    }
  }

  lemma {:induction false} SortedReceiptsDistinct(executions: seq<Execution>)
    requires DistinctExecutions(executions)
    ensures StrictReceipts(SortedReceipts(executions))
  {
    if executions != [] {
      var first := Receipt(executions[0].id, executions[0].digest);
      var rest := SortedReceipts(executions[1..]);
      SortedReceiptsDistinct(executions[1..]);
      SortedReceiptsFacts(executions[1..]);
      forall x | x in rest
        ensures x.id != first.id && x.digest != first.digest
      {
        var e :| e in executions[1..] && x == Receipt(e.id, e.digest);
        var k :| 0 <= k < |executions| - 1 && executions[1..][k] == e;
        assert executions[k + 1] == e;
      }
      InsertKeepsDistinct(first, rest);
    }
  }

  lemma {:induction false} InsertKeepsDistinct(r: Receipt, sorted: seq<Receipt>)
    requires StrictReceipts(sorted)
    requires forall x :: x in sorted ==> x.id != r.id && x.digest != r.digest
    ensures StrictReceipts(InsertReceipt(r, sorted))
  {
    if sorted == [] || r.id <= sorted[0].id {
      forall j | 0 <= j < |sorted|
        ensures r.id < sorted[j].id && r.digest != sorted[j].digest
      {
        assert sorted[j] in sorted && sorted[0] in sorted;
      }
    } else {
      InsertKeepsDistinct(r, sorted[1..]);
      InsertReceiptMembers(r, sorted[1..]);
      var rest := InsertReceipt(r, sorted[1..]);
      assert sorted[0] in sorted;
      forall j | 0 <= j < |rest|
        ensures sorted[0].id < rest[j].id && sorted[0].digest != rest[j].digest
      {
        assert rest[j] in rest;
        if rest[j] != r {
          var k :| 0 <= k < |sorted| - 1 && sorted[1..][k] == rest[j];
          assert sorted[k + 1] == rest[j];
        }
      }
    }
  }

  lemma SingleReason(reason: Reason)
    ensures Failures([reason]) == if reason in CHECKPOINT_FAILURES then {reason} else {}
  {
  }

  lemma PlainValid(verdict: Verdict, reason: Reason)
    requires verdict != BOUND && AllowedReasons(verdict, [reason]) && reason !in CHECKPOINT_FAILURES
    ensures FindingValid(Plain(verdict, reason))
  {
    SingleReason(reason);
  }

  lemma EvidenceFindingValid(inputs: Inputs)
    requires EvidenceFinding(inputs).Some?
    ensures FindingValid(EvidenceFinding(inputs).value)
  {
    ExecutionFindingValid(inputs.executions, inputs.manifest);
    PlainValid(INDETERMINATE, VerificationNotCurrent);
    PlainValid(INDETERMINATE, UnsignedMetadataReference);
    PlainValid(UNBOUND, AlternativeWorkOrderDetected);
    PlainValid(UNBOUND, AdapterProfileDigestMismatch);
    PlainValid(UNBOUND, JudgmentDigestMismatch);
    PlainValid(UNBOUND, ActionDigestMismatch);
  }

  lemma StaleReason(reason: Reason)
    requires reason in {AuthorityCheckpointStale, AuthorityRollbackDetected}
    ensures var stale := {AuthorityCheckpointStale, AuthorityRollbackDetected};
      Failures([reason]) * stale != {} && Failures([reason]) <= stale
  {
    SingleReason(reason);
    assert reason in Failures([reason]) * {AuthorityCheckpointStale, AuthorityRollbackDetected};
  }

  lemma AuthorityFindingValid(inputs: Inputs)
    ensures FindingValid(AuthorityFinding(inputs))
  {
    if inputs.chain != [] && inputs.authorityKey.Some? {
      EvaluatedDigest(inputs);
    }
    SingleReason(AuthorityCheckpointMissing);
    StaleReason(AuthorityCheckpointStale);
    StaleReason(AuthorityRollbackDetected);
    SingleReason(AuthorityForkDetected);
    SingleReason(ReplayUnavailable);
    assert Failures([]) == {};
  }

  /** Every finding the composer makes up itself passes the validator. */
  lemma OwnFindingsValid(inputs: Inputs)
    requires !CopiesReplayReasons(inputs)
    ensures FindingValid(Decide(inputs))
  {
    if EvidenceFinding(inputs).Some? {
      EvidenceFindingValid(inputs);
    } else {
      PlainValid(INDETERMINATE, EvidenceIncomplete);
      PlainValid(INDETERMINATE, ReplayUnavailable);
      AuthorityFindingValid(inputs);
      SingleReason(AuthorityCheckpointMissing);
      assert Failures([]) == {};
    }
  }

  lemma {:induction false} ExecutionFindingValid(executions: seq<Execution>, manifest: BoundManifest)
    ensures var f := ExecutionFinding(executions, manifest);
      f.Some? ==> f.value in {Plain(INDETERMINATE, UnsignedMetadataReference), Plain(UNBOUND, ActionDigestMismatch)}
    ensures ExecutionFinding(executions, manifest).None? <==>
      forall e :: e in executions ==> e.boundKind && e.claims == Some(Reference(manifest.id, manifest.digest))
  {
    if executions != [] {
      ExecutionFindingValid(executions[1..], manifest);
      assert executions == [executions[0]] + executions[1..];
    }
  }

  lemma EvaluatedDigest(inputs: Inputs)
    requires inputs.chain != []
    ensures var (status, digest) := Authority.EvaluateStatus(
        inputs.chain, inputs.judgment.namespace, inputs.judgment.subjectId, inputs.authorityKey,
        inputs.request.decidedAt, inputs.resolverUnavailable);
      status in {Authority.Current, Authority.Stale, Authority.Rollback, Authority.Forked} ==> digest.Some?
  {
    Authority.CurrentIffLadder(inputs.chain, inputs.judgment.namespace, inputs.judgment.subjectId, inputs.authorityKey);
    Authority.ClimbStatuses(Authority.SortByRevision(inputs.chain), None);
  }

  lemma StrictTail(first: Receipt, rest: seq<Receipt>)
    requires StrictReceipts([first] + rest)
    ensures StrictReceipts(rest)
    ensures forall x :: x in rest ==> first.id < x.id && first.digest != x.digest
  {
    var all := [first] + rest;
    forall i, j | 0 <= i < j < |rest|
      ensures rest[i].id < rest[j].id && rest[i].digest != rest[j].digest
    {
      assert all[i + 1] == rest[i] && all[j + 1] == rest[j];
    }
    forall x | x in rest
      ensures first.id < x.id && first.digest != x.digest
    {
      var k :| 0 <= k < |rest| && rest[k] == x;
      assert all[k + 1] == x && all[0] == first;
    }
  }

  lemma StrictCons(first: Receipt, rest: seq<Receipt>)
    requires StrictReceipts(rest)
    requires forall x :: x in rest ==> first.id < x.id && first.digest != x.digest
    ensures StrictReceipts([first] + rest)
  {
  }

  lemma {:induction false} StrictAfterInsert(r: Receipt, sorted: seq<Receipt>)
    requires StrictReceipts(InsertReceipt(r, sorted))
    ensures StrictReceipts(sorted)
    ensures forall x :: x in sorted ==> x.id != r.id && x.digest != r.digest
  {
    if sorted == [] || r.id <= sorted[0].id {
      StrictTail(r, sorted);
    } else {
      var rest := InsertReceipt(r, sorted[1..]);
      StrictTail(sorted[0], rest);
      StrictAfterInsert(r, sorted[1..]);
      InsertReceiptMembers(r, sorted[1..]);
      StrictCons(sorted[0], sorted[1..]);
      assert sorted == [sorted[0]] + sorted[1..];
    }
  }

  lemma {:induction false} StrictMeansDistinct(executions: seq<Execution>)
    requires StrictReceipts(SortedReceipts(executions))
    ensures DistinctExecutions(executions)
  {
    if executions != [] {
      var first := Receipt(executions[0].id, executions[0].digest);
      StrictAfterInsert(first, SortedReceipts(executions[1..]));
      StrictMeansDistinct(executions[1..]);
      SortedReceiptsFacts(executions[1..]);
      forall j | 0 < j < |executions|
        ensures executions[j].id != first.id && executions[j].digest != first.digest
      {
        assert executions[j] == executions[1..][j - 1];
        assert Receipt(executions[j].id, executions[j].digest) in SortedReceipts(executions[1..]);
      }
    }
  }

  /** Replay reasons the decision object can carry without an authority status of its own. */
  predicate UsableReplayReasons(reasons: seq<Reason>) {
    reasons != [] && SortedUnique(reasons) && Failures(reasons) == {}
  }

  /**
   The composer yields an object exactly when the executions are present and distinct, the causal parents
   repeat the superseded decision, and replay reasons, where it copies them, are usable. A replay that is
   unbound without a reason, or for a checkpoint reason, makes it fail instead of failing closed.
   */
  lemma ComposesIff(inputs: Inputs, id: Digest, digest: Digest)
    ensures Compose(inputs, id, digest).Success? <==>
      && inputs.executions != [] && DistinctExecutions(inputs.executions)
      && inputs.request.causalParents
         == (if inputs.request.supersedes.Some? then [inputs.request.supersedes.value.id] else [])
      && (CopiesReplayReasons(inputs) ==> UsableReplayReasons(inputs.replay.reasons))
  {
    SortedReceiptsFacts(inputs.executions);
    if DistinctExecutions(inputs.executions) {
      SortedReceiptsDistinct(inputs.executions);
    }
    if StrictReceipts(SortedReceipts(inputs.executions)) {
      StrictMeansDistinct(inputs.executions);
    }
    if !CopiesReplayReasons(inputs) {
      OwnFindingsValid(inputs);
    }
  }

  /** Such a replay exists. */
  lemma CheckpointReasonBreaksComposition(inputs: Inputs, id: Digest, digest: Digest)
    requires EvidenceFinding(inputs).None?
    requires inputs.replay.outcome == UNBOUND && inputs.replay.reasons == [AuthorityCheckpointStale]
    ensures Compose(inputs, id, digest).Failure?
  {
    SingleReason(AuthorityCheckpointStale);
    assert CopiesReplayReasons(inputs);
    ComposesIff(inputs, id, digest);
  }

  // ----- what BOUND means ----------------------------------------------------------------------

  /** Digests agree, everything is in its window, and every execution names the manifest. */
  ghost predicate EvidenceHolds(inputs: Inputs) {
    var v, m, j, at := inputs.verification, inputs.manifest, inputs.judgment, inputs.request.decidedAt;
    && v.verdict == VERIFIED && v.workOrderDigest == m.workOrderDigest && v.profileDigest == m.adapterProfileDigest
    && m.judgment == Reference(j.id, j.digest)
    && j.validFrom <= at < j.expiresAt && m.createdAt <= at < m.expiresAt
    && (forall e :: e in inputs.executions ==> e.boundKind && e.claims == Some(Reference(m.id, m.digest)))
    && inputs.replay.outcome == BOUND && inputs.replay.reasons == []
  }

  /** A signed ladder for the judgment's subject whose last checkpoint is in force when the decision is made. */
  ghost predicate AuthorityHolds(inputs: Inputs) {
    && inputs.chain != [] && inputs.authorityKey.Some? && !inputs.resolverUnavailable
    && (forall c :: c in inputs.chain ==>
          Authority.SignedFor(c, inputs.judgment.namespace, inputs.judgment.subjectId, inputs.authorityKey.value))
    && Authority.Ladder(inputs.chain)
    && var head := inputs.chain[|inputs.chain| - 1];
       head.effectiveAt <= inputs.request.decidedAt < head.expiresAt
  }

  lemma AuthorityFindingBoundIff(inputs: Inputs)
    ensures AuthorityFinding(inputs).verdict == BOUND <==> AuthorityHolds(inputs)
    ensures AuthorityHolds(inputs) ==>
      AuthorityFinding(inputs) == Finding(BOUND, [], CurrentAuthority, Some(inputs.chain[|inputs.chain| - 1].digest))
  {
    Authority.CurrentIffLadder(inputs.chain, inputs.judgment.namespace, inputs.judgment.subjectId, inputs.authorityKey);
  }

  /** A decision is BOUND exactly when all evidence holds and, at high risk, a current authority stands behind it. */
  lemma BoundIff(inputs: Inputs, id: Digest, digest: Digest)
    requires Compose(inputs, id, digest).Success?
    ensures Compose(inputs, id, digest).value.verdict == BOUND <==>
      && EvidenceHolds(inputs)
      && if inputs.verification.assurance == HighRisk then AuthorityHolds(inputs)
         else inputs.checkpoint.None? && inputs.chain == []
    ensures Compose(inputs, id, digest).value.verdict == BOUND && inputs.verification.assurance == HighRisk ==>
      Compose(inputs, id, digest).value.checkpointDigest == Some(inputs.chain[|inputs.chain| - 1].digest)
  {
    ExecutionFindingValid(inputs.executions, inputs.manifest);
    AuthorityFindingBoundIff(inputs);
  }

  // ----- which finding a decision reports -----------------------------------------------------

  /** What the composer looks at. */
  datatype Check =
    | VerificationVerified
    | SameWorkOrder
    | SameProfile
    | JudgmentNamed
    | JudgmentInForce
    | ManifestInForce
    | ExecutionsBound
    | ReplayBound
    | ReplaySilent
    | AuthorityStands

  /** In this order. */
  function Order(check: Check): nat {
    match check
    case VerificationVerified => 0
    case SameWorkOrder => 1
    case SameProfile => 2
    case JudgmentNamed => 3
    case JudgmentInForce => 4
    case ManifestInForce => 5
    case ExecutionsBound => 6
    case ReplayBound => 7
    case ReplaySilent => 8
    case AuthorityStands => 9
  }

  ghost predicate Passes(inputs: Inputs, check: Check) {
    var v, m, j, at := inputs.verification, inputs.manifest, inputs.judgment, inputs.request.decidedAt;
    match check
    case VerificationVerified => v.verdict == VERIFIED
    case SameWorkOrder => v.workOrderDigest == m.workOrderDigest
    case SameProfile => v.profileDigest == m.adapterProfileDigest
    case JudgmentNamed => m.judgment.id == j.id && m.judgment.digest == j.digest
    case JudgmentInForce => j.validFrom <= at < j.expiresAt
    case ManifestInForce => m.createdAt <= at < m.expiresAt
    case ExecutionsBound => forall i :: 0 <= i < |inputs.executions| ==> ClaimsManifest(inputs.executions[i], m)
    case ReplayBound => inputs.replay.outcome == BOUND
    case ReplaySilent => inputs.replay.reasons == []
    case AuthorityStands =>
      if v.assurance == HighRisk then AuthorityHolds(inputs) else inputs.checkpoint.None? && inputs.chain == []
  }

  ghost predicate ClaimsManifest(e: Execution, m: BoundManifest) {
    e.boundKind && e.claims == Some(Reference(m.id, m.digest))
  }

  /** Execution `i` is the first that does not claim the manifest. */
  ghost predicate FirstUnclaimed(executions: seq<Execution>, m: BoundManifest, i: int) {
    && 0 <= i < |executions| && !ClaimsManifest(executions[i], m)
    && forall k :: 0 <= k < i ==> ClaimsManifest(executions[k], m)
  }

  lemma {:induction false} ExecutionFindingIs(executions: seq<Execution>, m: BoundManifest, i: nat)
    requires FirstUnclaimed(executions, m, i)
    ensures ExecutionFinding(executions, m)
         == Some(if !executions[i].boundKind || executions[i].claims.None? then Plain(INDETERMINATE, UnsignedMetadataReference)
                 else Plain(UNBOUND, ActionDigestMismatch))
  {
    if i > 0 {
      assert ClaimsManifest(executions[0], m);
      ExecutionFindingIs(executions[1..], m, i - 1);
    }
  }

  lemma AllClaimed(executions: seq<Execution>, m: BoundManifest)
    requires forall i :: 0 <= i < |executions| ==> ClaimsManifest(executions[i], m)
    ensures ExecutionFinding(executions, m).None?
  {
    ExecutionFindingValid(executions, m);
  }

  ghost predicate FirstFailing(inputs: Inputs, check: Check) {
    !Passes(inputs, check) && forall c :: Order(c) < Order(check) ==> Passes(inputs, c)
  }

  /** The first check that fails decides the verdict and the reason. */
  lemma FindingIsFirstFailing(inputs: Inputs, check: Check)
    requires FirstFailing(inputs, check)
    ensures var finding := Decide(inputs);
      match check
      case VerificationVerified => finding == Plain(INDETERMINATE, VerificationNotCurrent)
      case SameWorkOrder =>
        finding == if inputs.verification.assurance == HighRisk then Plain(UNBOUND, AlternativeWorkOrderDetected)
                   else Plain(INDETERMINATE, VerificationNotCurrent)
      case SameProfile => finding == Plain(UNBOUND, AdapterProfileDigestMismatch)
      case JudgmentNamed => finding == Plain(UNBOUND, JudgmentDigestMismatch)
      case JudgmentInForce => finding == Plain(INDETERMINATE, VerificationNotCurrent)
      case ManifestInForce => finding == Plain(INDETERMINATE, VerificationNotCurrent)
      case ExecutionsBound =>
        forall k :: FirstUnclaimed(inputs.executions, inputs.manifest, k) ==>
          finding == if !inputs.executions[k].boundKind || inputs.executions[k].claims.None?
                     then Plain(INDETERMINATE, UnsignedMetadataReference) else Plain(UNBOUND, ActionDigestMismatch)
      case ReplayBound =>
        finding == if AllowedReasons(inputs.replay.outcome, inputs.replay.reasons)
                   then Finding(inputs.replay.outcome, inputs.replay.reasons, NotRequired, None)
                   else Plain(INDETERMINATE, EvidenceIncomplete)
      case ReplaySilent => finding == Plain(INDETERMINATE, ReplayUnavailable)
      case AuthorityStands =>
        if inputs.verification.assurance == HighRisk then finding == AuthorityFinding(inputs) && finding.verdict != BOUND
        else finding == Finding(INDETERMINATE, [AuthorityCheckpointMissing], MissingAuthority, None)
  {
    forall k | FirstUnclaimed(inputs.executions, inputs.manifest, k)
      ensures ExecutionFinding(inputs.executions, inputs.manifest)
           == Some(if !inputs.executions[k].boundKind || inputs.executions[k].claims.None?
                   then Plain(INDETERMINATE, UnsignedMetadataReference) else Plain(UNBOUND, ActionDigestMismatch))
    {
      ExecutionFindingIs(inputs.executions, inputs.manifest, k);
    }
    if Order(check) > Order(ExecutionsBound) {
      assert Passes(inputs, ExecutionsBound);
      AllClaimed(inputs.executions, inputs.manifest);
    }
    EarlierPassed(inputs, check);
    AuthorityFindingBoundIff(inputs);
  }

  lemma EarlierPassed(inputs: Inputs, check: Check)
    requires FirstFailing(inputs, check)
    ensures Order(check) > 0 ==> Passes(inputs, VerificationVerified)
    ensures Order(check) > 1 ==> Passes(inputs, SameWorkOrder)
    ensures Order(check) > 2 ==> Passes(inputs, SameProfile)
    ensures Order(check) > 3 ==> Passes(inputs, JudgmentNamed)
    ensures Order(check) > 4 ==> Passes(inputs, JudgmentInForce)
    ensures Order(check) > 5 ==> Passes(inputs, ManifestInForce)
    ensures Order(check) > 7 ==> Passes(inputs, ReplayBound)
    ensures Order(check) > 8 ==> Passes(inputs, ReplaySilent)
  {
  }

  /** At high risk the authority's own chain says which finding: what is wrong with it first, in this order. */
  lemma AuthorityFindingIs(inputs: Inputs)
    ensures var (chain, finding) := (inputs.chain, AuthorityFinding(inputs));
      if chain == [] then finding == Finding(INDETERMINATE, [AuthorityCheckpointMissing], MissingAuthority, None)
      else if inputs.authorityKey.None? || inputs.resolverUnavailable then
        finding == Finding(INDETERMINATE, [ReplayUnavailable], UnavailableAuthority, None)
      else if !AllSigned(inputs) then finding == Finding(INDETERMINATE, [AuthorityCheckpointMissing], MissingAuthority, None)
      else if Authority.Forks(chain) then
        exists i :: Authority.FirstForkAt(chain, i)
                    && finding == Finding(UNBOUND, [AuthorityForkDetected], ForkedAuthority, Some(chain[i].digest))
      else if Authority.FallsBack(chain) then
        finding == Finding(UNBOUND, [AuthorityRollbackDetected], StaleAuthority, Some(chain[|chain| - 1].digest))
      else if !Authority.Ladder(chain) then
        finding == Finding(INDETERMINATE, [AuthorityCheckpointMissing], MissingAuthority, None)
      else if !AuthorityHolds(inputs) then
        finding == Finding(UNBOUND, [AuthorityCheckpointStale], StaleAuthority, Some(chain[|chain| - 1].digest))
      else finding == Finding(BOUND, [], CurrentAuthority, Some(chain[|chain| - 1].digest))
  {
    if inputs.chain != [] && inputs.authorityKey.Some? {
      Authority.StatusIs(inputs.chain, inputs.judgment.namespace, inputs.judgment.subjectId, inputs.authorityKey.value);
    }
  }

  ghost predicate AllSigned(inputs: Inputs)
    requires inputs.authorityKey.Some?
  {
    forall c :: c in inputs.chain ==>
      Authority.SignedFor(c, inputs.judgment.namespace, inputs.judgment.subjectId, inputs.authorityKey.value)
  }

  // ----- composing and committing ----------------------------------------------------------------

  /** The tables hold the very objects the decision was composed from. */
  ghost predicate Holds(references: References, inputs: Inputs) {
    && inputs.judgment.digest in references.judgments
    && references.judgments[inputs.judgment.digest] == inputs.judgment
    && inputs.manifest.digest in references.manifests
    && references.manifests[inputs.manifest.digest] == inputs.manifest
    && inputs.verification.digest in references.verifications
    && references.verifications[inputs.verification.digest] == inputs.verification
    && (forall e :: e in inputs.executions ==> e.id in references.receipts && references.receipts[e.id] == e.digest)
  }

  /**
   A BOUND decision passes the reference checks of the commit exactly when its verification is not later
   than the decision itself: the one check the commit makes that the composer does not.
   */
  lemma BoundDecisionCommitsIff(inputs: Inputs, id: Digest, digest: Digest, references: References)
    requires Compose(inputs, id, digest).Success? && Compose(inputs, id, digest).value.verdict == BOUND
    requires Holds(references, inputs)
    ensures ReferenceFault(references, inputs.manifest.workOrderDigest, Compose(inputs, id, digest).value).None?
       <==> inputs.verification.decidedAt <= inputs.request.decidedAt
  {
    BoundIff(inputs, id, digest);
    SortedReceiptsFacts(inputs.executions);
  }

  /** The object carries what it was composed from: who, what, when, which executions and what it supersedes. */
  lemma ComposedCarriesInputs(inputs: Inputs, id: Digest, digest: Digest)
    requires Compose(inputs, id, digest).Success?
    ensures var d := Compose(inputs, id, digest).value;
      && d.id == id && d.digest == digest && d.nonce == inputs.request.nonce && d.decidedAt == inputs.request.decidedAt
      && d.supersedes == inputs.request.supersedes
      && d.workOrderDigest == inputs.manifest.workOrderDigest && d.manifestDigest == inputs.manifest.digest
      && d.judgmentDigest == inputs.judgment.digest
      && d.verification == Reference(inputs.verification.id, inputs.verification.digest)
      && |d.receipts| == |inputs.executions| && StrictReceipts(d.receipts)
      && (forall x :: x in d.receipts <==> exists e :: e in inputs.executions && x == Receipt(e.id, e.digest))
      && Finding(d.verdict, d.reasons, d.authority, d.checkpointDigest) == Decide(inputs)
  {
    SortedReceiptsFacts(inputs.executions);
  }

  lemma ComposedReferencesHoldIff(inputs: Inputs, id: Digest, digest: Digest, store: Store)
    requires Compose(inputs, id, digest).Success? && Compose(inputs, id, digest).value.verdict == BOUND
    requires Holds(store.references, inputs) && store.workOrderDigest == inputs.manifest.workOrderDigest
    ensures ReferencesHold(store, Compose(inputs, id, digest).value)
       <==> inputs.verification.decidedAt <= inputs.request.decidedAt
  {
    BoundDecisionCommitsIff(inputs, id, digest, store.references);
    ReferenceFaultIff(store, Compose(inputs, id, digest).value);
  }

  /**
   Composing and committing next to a chain of decisions: the composed decision is returned and is the current one
   afterwards exactly when nothing goes wrong, its verification is not late, its id and nonce are new, and the
   request supersedes the end of the chain, committed no later.
   */
  lemma ComposedBecomesCurrentIff(
    inputs: Inputs, id: Digest, digest: Digest, store: Store, chain: seq<Row>, at: nat, env: Environment, fault: Fault)
    requires CommitIsHonest(env) && FormsForest(store, [chain])
    requires Holds(store.references, inputs) && store.workOrderDigest == inputs.manifest.workOrderDigest
    requires Compose(inputs, id, digest).Success? && Compose(inputs, id, digest).value.verdict == BOUND
    ensures var d := Compose(inputs, id, digest).value;
      var (after, outcome) := CommitDecisionAttempt(store, d, at, env, fault);
      && outcome.Returned? && LoadCurrent(after, store.workOrderDigest) == Success(d)
      <==>
      && Undisturbed(env, fault)
      && inputs.verification.decidedAt <= inputs.request.decidedAt
      && FreshDecision(store, id, inputs.request.nonce)
      && inputs.request.supersedes.Some? && EndIs(chain, inputs.request.supersedes.value, at)
  {
    var d := Compose(inputs, id, digest).value;
    ComposedCarriesInputs(inputs, id, digest);
    ComposedReferencesHoldIff(inputs, id, digest, store);
    DecisionReturnedIff(store, [chain], d, at, env, fault);
    assert [chain][0] == chain && IsChain([chain][0]);
    OneChainEnd(store, chain, d, at);
    if CommitDecisionAttempt(store, d, at, env, fault).1.Returned? {
      CommittedIsCurrentIff(store, chain, d, at);
    }
  }

  lemma OneChainEnd(store: Store, chain: seq<Row>, d: Decision, at: nat)
    requires chain != []
    ensures d.supersedes.Some? ==> (NamesEnd([chain], d.supersedes.value, at) <==> EndIs(chain, d.supersedes.value, at))
  {
    assert [chain][0] == chain;
  }

  /** Next to one chain, what was staged is the current decision unless it started a chain of its own. */
  lemma CommittedIsCurrentIff(store: Store, chain: seq<Row>, d: Decision, at: nat)
    requires FormsForest(store, [chain]) && StageDecision(d, at, store).Staged?
    ensures LoadCurrent(Inserted(store, Row(d, at)), store.workOrderDigest) == Success(d) <==> d.supersedes.Some?
  {
    var grown := StageGrowsForest(store, [chain], d, at);
    var after := Inserted(store, Row(d, at));
    CurrentIffOneRoot(after, grown);
    HeadsCountRoots(after, grown);
    if d.supersedes.Some? {
      NewestIsNoParent(store, [chain], d, at);
      NewestIsEnd(after, grown, Row(d, at));
    }
  }

  lemma NewestIsNoParent(store: Store, chains: seq<seq<Row>>, d: Decision, at: nat)
    requires FormsForest(store, chains) && StageDecision(d, at, store).Staged?
    ensures !IsParent(Inserted(store, Row(d, at)).supersessions, d.id)
  {
    FindIs(store.rows, d.id);
    forall s | s in store.supersessions
      ensures s.parent != d.id
    {
      assert IsLink(chains, s);
      var c, i :| LinkPlace(chains, s, c, i);
      assert Place(chains, chains[c][i], c, i);
      assert InForest(chains, chains[c][i]);
    }
    if d.supersedes.Some? {
      FindIs(store.rows, d.supersedes.value.id);
    }
  }

  /** In a store of one chain, a row that no supersession names is the end of the chain. */
  lemma NewestIsEnd(store: Store, chains: seq<seq<Row>>, row: Row)
    requires FormsForest(store, chains) && |chains| == 1
    requires row in store.rows && !IsParent(store.supersessions, row.decision.id)
    ensures chains[0][|chains[0]| - 1] == row
  {
    assert InForest(chains, row);
    var c, i :| Place(chains, row, c, i);
    UnsupersededIsEnd(store, chains, row, c, i);
  }

  /** On an empty store the composed decision becomes the first one exactly when it supersedes nothing. */
  lemma ComposedBecomesFirstIff(
    inputs: Inputs, id: Digest, digest: Digest, store: Store, at: nat, env: Environment, fault: Fault)
    requires CommitIsHonest(env) && store.rows == [] && store.supersessions == []
    requires Holds(store.references, inputs) && store.workOrderDigest == inputs.manifest.workOrderDigest
    requires Compose(inputs, id, digest).Success? && Compose(inputs, id, digest).value.verdict == BOUND
    ensures var d := Compose(inputs, id, digest).value;
      var (after, outcome) := CommitDecisionAttempt(store, d, at, env, fault);
      && (outcome.Returned? <==>
            && Undisturbed(env, fault)
            && inputs.verification.decidedAt <= inputs.request.decidedAt && inputs.request.supersedes == None)
      && (outcome.Returned? ==> LoadCurrent(after, store.workOrderDigest) == Success(d))
  {
    var d := Compose(inputs, id, digest).value;
    ComposedCarriesInputs(inputs, id, digest);
    ComposedReferencesHoldIff(inputs, id, digest, store);
    EmptyStoreIsForest(store);
    DecisionReturnedIff(store, [], d, at, env, fault);
    if CommitDecisionAttempt(store, d, at, env, fault).1.Returned? {
      var after := CommitDecisionAttempt(store, d, at, env, fault).0;
      assert after.rows == [Row(d, at)] && after.supersessions == [];
      assert after.rows[..0] == [];
      assert Heads(after.rows, after.supersessions) == [Row(d, at)];
    }
  }
}

/** Inputs on which composing or committing a decision fails although every authority is in order. */
module DecisionSamples {
  import opened Collections
  import opened BindingCommit
  import opened BindingDecisions
  import opened DecisionComposition

  /** A judgment, a manifest bound to it, a verification and one execution, all agreeing and in their windows at 5. */
  function SampleInputs(verifiedAt: nat, replay: Replay): Inputs {
    Inputs(
      BoundJudgment(1, 2, "namespace", "subject", 0, 10),
      BoundManifest(3, 4, 5, Reference(1, 2), 6, 0, 10),
      Verification(7, 8, 4, 6, VERIFIED, Standard, verifiedAt),
      [Execution(9, 10, true, Some(Reference(3, 5)))],
      replay, None, Request(5, 11, [], None), [], None, false)
  }

  function SampleReferences(verifiedAt: nat): References {
    var inputs := SampleInputs(verifiedAt, Replay(BOUND, [], 12));
    References(map[2 := inputs.judgment], map[5 := inputs.manifest], map[8 := inputs.verification], map[9 := 10])
  }

  lemma SampleEvidence(verifiedAt: nat, replay: Replay)
    ensures EvidenceFinding(SampleInputs(verifiedAt, replay)).None?
  {
    ExecutionFindingValid(SampleInputs(verifiedAt, replay).executions, SampleInputs(verifiedAt, replay).manifest);
  }

  /** Composed as BOUND at 5 on a verification decided at 6, with every row in its table: the commit refuses it. */
  lemma LateVerificationIsRefused(id: Digest, digest: Digest)
    ensures var inputs := SampleInputs(6, Replay(BOUND, [], 12));
      && Compose(inputs, id, digest).Success? && Compose(inputs, id, digest).value.verdict == BOUND
      && Holds(SampleReferences(6), inputs)
      && ReferenceFault(SampleReferences(6), inputs.manifest.workOrderDigest, Compose(inputs, id, digest).value).Some?
  {
    var inputs := SampleInputs(6, Replay(BOUND, [], 12));
    SampleEvidence(6, inputs.replay);
    ComposesIff(inputs, id, digest);
    BoundIff(inputs, id, digest);
    ExecutionFindingValid(inputs.executions, inputs.manifest);
    BoundDecisionCommitsIff(inputs, id, digest, SampleReferences(6));
  }

  /** With a replay that reports a stale checkpoint the composer raises on the same inputs. */
  lemma CheckpointReplayRaises(id: Digest, digest: Digest)
    ensures Compose(SampleInputs(5, Replay(UNBOUND, [AuthorityCheckpointStale], 12)), id, digest).Failure?
  {
    var inputs := SampleInputs(5, Replay(UNBOUND, [AuthorityCheckpointStale], 12));
    SampleEvidence(5, inputs.replay);
    CheckpointReasonBreaksComposition(inputs, id, digest);
  }
}

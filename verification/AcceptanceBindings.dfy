/**
 One acceptance or rejection against its exact signed history, as a reader without the ledger checks it
 (src/openworkproof/acceptance.py:2216-2398, 2423-2560), and the version a receipt history stands for
 (src/openworkproof/evidence.py:5769-5871).
 */
module AcceptanceBindings {
  import opened Collections
  import opened Receipts
  import opened CompositionBundle

  /** What the Acceptor signs, for either decision; `reason` is empty for an acceptance. */
  datatype Payload = Payload(
    accepting: bool,
    id: Digest,
    workOrder: nat,
    requestId: nat,
    request: Digest,
    report: Digest,
    evidence: Digest,
    receipts: seq<Digest>,
    graph: Digest,
    findings: nat,
    reason: Option<nat>,
    decidedAt: int)

  datatype Signature = Signature(key: nat, signed: Payload)

  datatype Decision = Decision(payload: Payload, signerKeyId: nat, signature: Signature)

  function ExpectedPayload(
    accepting: bool, order: WorkOrder, report: Report, request: Receipt, decidedAt: int,
    prefix: seq<Receipt>, reason: Option<nat>): Payload
  {
    var evidence := EvidenceDigest(prefix);
    Payload(
      accepting,
      OfDecision(accepting, order.digest, request.id, OfReceipt(request), OfReport(report), evidence),
      order.digest,
      request.id,
      OfReceipt(request),
      OfReport(report),
      evidence,
      Digests(prefix),
      report.graph,
      if accepting then report.findings else 0,
      if accepting then None else reason,
      decidedAt)
  }

  predicate SignedByAcceptor(order: WorkOrder, decision: Decision) {
    && decision.signerKeyId == order.acceptor
    && decision.signature == Signature(order.acceptor, decision.payload)
  }

  predicate ScopedTo(order: WorkOrder, report: Report, request: Receipt) {
    && request.event.FinalRequest?
    && request.event.scopeWorkOrder == order.digest
    && request.event.scopeReport == OfReport(report)
    && request.event.target == OfFinalAction(order.digest, OfReport(report))
  }

  /** The last receipt requests a decision on this report, and the one before composed it. */
  predicate RequestBinds(order: WorkOrder, report: Report, receipts: seq<Receipt>) {
    && |receipts| >= 2
    && receipts[|receipts| - 1].event.FinalRequest?
    && receipts[|receipts| - 1].after == AwaitingHuman
    && report.workOrder == order.digest
    && report.ready
    && ScopedTo(order, report, receipts[|receipts| - 1])
    && TriggersReport(receipts[|receipts| - 2], report)
  }

  predicate InitiatorBinds(report: Report, receipts: seq<Receipt>) {
    var indexes := InitiatorIndexes(receipts, report);
    PositionsExact(receipts, InitiatorTest(report));
    |indexes| == 1 && (assert indexes[0] in indexes; CoversPrefix(report, receipts[..indexes[0] + 1]))
  }

  /** validate_acceptance_bindings and validate_rejection_bindings. */
  predicate ValidateDecision(
    accepting: bool, order: WorkOrder, report: Report, receipts: seq<Receipt>, decision: Decision)
  {
    && RequestBinds(order, report, receipts)
    && InitiatorBinds(report, receipts)
    && var request := receipts[|receipts| - 1];
    && request.occurredAt <= decision.payload.decidedAt <= request.event.expiresAt
    && decision.payload.decidedAt <= order.deadline
    && decision.payload
       == ExpectedPayload(accepting, order, report, request, decision.payload.decidedAt, receipts, decision.payload.reason)
    && SignedByAcceptor(order, decision)
  }

  // ----- the protocol version --------------------------------------------------------------

  predicate Completes(initiator: Receipt, trigger: Receipt, version: nat) {
    && trigger.event.ProofComposed?
    && trigger.event.versionBefore == version
    && trigger.event.initiator == OfReceipt(initiator)
    && trigger.sequence == initiator.sequence + 1
    && trigger.previous == Some(OfReceipt(initiator))
    && trigger.parents == [initiator.id]
    && trigger.before == initiator.after
    && initiator.occurredAt <= trigger.occurredAt
  }

  function DeriveFrom(receipts: seq<Receipt>, index: nat, transactions: nat): Option<nat>
    decreases |receipts| - index
  {
    if index >= |receipts| then Some(transactions)
    else match receipts[index].event
      case ComposeCall(version, _) =>
        if version != transactions || index + 1 >= |receipts|
           || !Completes(receipts[index], receipts[index + 1], transactions) then None
        else DeriveFrom(receipts, index + 2, transactions + 1)
      case ProofComposed(_, _, _) => None
      case _ => DeriveFrom(receipts, index + 1, transactions + 1)
  }

  function DeriveVersion(receipts: seq<Receipt>): Option<nat> {
    DeriveFrom(receipts, 0, 0)
  }

  /** A history that has a version is read up to its end whatever follows. */
  lemma {:induction false} DeriveContinues(receipts: seq<Receipt>, suffix: seq<Receipt>, index: nat, transactions: nat)
    requires index <= |receipts| && DeriveFrom(receipts, index, transactions).Some?
    ensures DeriveFrom(receipts + suffix, index, transactions)
         == DeriveFrom(receipts + suffix, |receipts|, DeriveFrom(receipts, index, transactions).value)
    decreases |receipts| - index
  {
    if index < |receipts| {
      match receipts[index].event
      case ComposeCall(_, _) =>
        assert (receipts + suffix)[index + 1] == receipts[index + 1];
        DeriveContinues(receipts, suffix, index + 2, transactions + 1);
      case ProofComposed(_, _, _) =>
      case _ =>
        DeriveContinues(receipts, suffix, index + 1, transactions + 1);
    }
  }

  /** Every transaction appends one receipt, except a composition, which appends two. */
  lemma {:induction false} VersionCountsTransactions(receipts: seq<Receipt>, index: nat, transactions: nat)
    requires index <= |receipts| && DeriveFrom(receipts, index, transactions).Some?
    ensures DeriveFrom(receipts, index, transactions).value + |Triggers(receipts)| + index
         == transactions + |receipts| + |Triggers(receipts[..index])|
    decreases |receipts| - index
  {
    if index < |receipts| {
      assert receipts[..index + 1] == receipts[..index] + [receipts[index]];
      PositionsAppend(receipts[..index], receipts[index], IsTrigger);
      match receipts[index].event
      case ComposeCall(_, _) =>
        assert receipts[..index + 2] == receipts[..index + 1] + [receipts[index + 1]];
        PositionsAppend(receipts[..index + 1], receipts[index + 1], IsTrigger);
        VersionCountsTransactions(receipts, index + 2, transactions + 1);
      case ProofComposed(_, _, _) =>
      case _ =>
        VersionCountsTransactions(receipts, index + 1, transactions + 1);
    } else {
      assert receipts[..index] == receipts;
    }
  }
}

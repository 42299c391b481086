/** Exactly when each step of the acceptance run is taken, and what it then writes (src/openworkproof/acceptance.py). */
module AcceptanceSteps {
  import opened Collections
  import opened Receipts
  import opened CompositionBundle
  import opened AcceptanceBindings
  import opened AcceptanceRun
  import opened AcceptanceHistory
  import opened AcceptanceTheorems

  /** The Acceptor's signature is over the current report, request, evidence and history, and over the decision on them. */
  ghost predicate SignedAnswer(order: WorkOrder, ledger: Ledger, request: Receipt, accepting: bool, decision: Decision) {
    && LastReport(ledger).Some?
    && decision.signerKeyId == order.acceptor && decision.signature == Signature(order.acceptor, decision.payload)
    && var (report, evidence, signed) := (LastReport(ledger).value, EvidenceDigest(ledger.receipts), decision.payload);
    && signed.accepting == accepting
    && signed.workOrder == order.digest && signed.requestId == request.id && signed.request == OfReceipt(request)
    && signed.report == OfReport(report) && signed.evidence == evidence && signed.receipts == Digests(ledger.receipts)
    && signed.graph == report.graph
    && signed.id == OfDecision(accepting, order.digest, request.id, OfReceipt(request), OfReport(report), evidence)
    && (if accepting then signed.findings == report.findings && signed.reason == None else signed.findings == 0)
  }

  /**
   Made between the request and now, its expiry and the deadline; and committed while the request is open, at most
   300 seconds after it was signed.
   */
  ghost predicate InTime(order: WorkOrder, request: Receipt, decidedAt: int, now: int) {
    && request.event.FinalRequest?
    && request.occurredAt <= decidedAt <= now && decidedAt <= order.deadline
    && now <= request.event.expiresAt && now <= decidedAt + 300
  }

  /**
   From a ledger a run reaches a decision is committed exactly when the context is this ledger awaiting a human, the
   decision is the Acceptor's answer to the request that ends it, and it is in time.
   */
  lemma DecisionTakenIff(order: WorkOrder, ledger: Ledger, context: Context, accepting: bool, decision: Decision)
    requires Reached(order, ledger)
    ensures StepOutcome(order, ledger, Decide(context, accepting, decision)).Some? <==>
      && Current(order, ledger, context, context.time) && context.state == AwaitingHuman
      && EndsInRequest(ledger.receipts)
      && var request := ledger.receipts[|ledger.receipts| - 1];
      && SignedAnswer(order, ledger, request, accepting, decision)
      && InTime(order, request, decision.payload.decidedAt, context.time)
  {
    if Current(order, ledger, context, context.time) && context.state == AwaitingHuman {
      CurrentIsHealthy(order, ledger, context, context.time);
      assert ledger.receipts != [] && LastRequest(ledger.receipts) == Some(ledger.receipts[|ledger.receipts| - 1]);
    }
  }

  /** A decision taken is the one decision there is, and nothing else changes. */
  lemma DecisionWrites(order: WorkOrder, ledger: Ledger, context: Context, accepting: bool, decision: Decision)
    requires Reached(order, ledger) && StepOutcome(order, ledger, Decide(context, accepting, decision)).Some?
    ensures Apply(order, ledger, Decide(context, accepting, decision))
         == ledger.(
              acceptances := if accepting then [decision] else [], rejections := if accepting then [] else [decision],
              state := if accepting then Accepted else Rejected, version := ledger.version + 1)
  {
    CurrentIsHealthy(order, ledger, context, context.time);
    DecideShape(order, ledger, context, accepting, decision);
  }

  /** The moves any other event may make: forward up to locally_verified, or out of the run. */
  const FORWARD: set<(TaskState, TaskState)> := {
    (Issued, Running), (Running, NeedsRework), (Running, LocallyVerified), (NeedsRework, Retrying),
    (Retrying, NeedsRework), (Retrying, LocallyVerified)}

  ghost predicate MayMove(before: TaskState, after: TaskState) {
    || (before, after) in FORWARD
    || (after == Frozen && before !in {Accepted, Rejected, Frozen})
    || (after == Rejected && before !in {Accepted, Rejected})
    || (after == before && before in {Running, NeedsRework, Retrying, EvidenceIncomplete})
  }

  /** Any other event is recorded exactly as the next linked receipt of a move that is allowed; the first one starts the run. */
  lemma EventTakenIff(order: WorkOrder, ledger: Ledger, context: Context, receipt: Receipt)
    requires Reached(order, ledger)
    ensures StepOutcome(order, ledger, Record(context, receipt)).Some? <==>
      && Current(order, ledger, context, context.time)
      && receipt.event.Ordinary? && receipt.sequence == |ledger.receipts| + 1
      && receipt.previous == LastDigest(ledger.receipts)
      && receipt.before == StateOf(ledger.receipts) && receipt.occurredAt == context.time
      && MayMove(receipt.before, receipt.after) && (ledger.receipts == [] ==> receipt.after == Running)
      && (forall r :: r in ledger.receipts ==> r.id != receipt.id)
  {
    TakenIsUsed(ledger.receipts, receipt.id);
    if Current(order, ledger, context, context.time) {
      CurrentIsHealthy(order, ledger, context, context.time);
    }
  }

  lemma EventWrites(order: WorkOrder, ledger: Ledger, context: Context, receipt: Receipt)
    requires StepOutcome(order, ledger, Record(context, receipt)).Some?
    ensures Apply(order, ledger, Record(context, receipt))
         == ledger.(
              receipts := ledger.receipts + [receipt], state := receipt.after,
              version := ledger.version + 1, next := ledger.next + 1)
  {
  }

  /** A current context is one of a healthy ledger with nothing decided, whose version is the derived one. */
  lemma CurrentIsHealthy(order: WorkOrder, ledger: Ledger, context: Context, now: int)
    requires Reached(order, ledger) && Current(order, ledger, context, now)
    ensures Healthy(order, ledger) && Direct(ledger.receipts)
    ensures ledger.acceptances == [] && ledger.rejections == []
    ensures DeriveVersion(ledger.receipts) == Some(ledger.version)
  {
    ReachedReplaysIff(order, ledger);
    NoDecisionWhenCurrent(order, ledger, context, now);
  }

  /**
   While the request is open the Acceptor can decide either way, now: in every reached ledger that awaits a human and
   can be read.
   */
  lemma OpenRequestCanBeDecided(order: WorkOrder, ledger: Ledger, now: int, accepting: bool, reason: Option<nat>)
    returns (decision: Decision)
    requires Reached(order, ledger) && Replays(order, ledger) && ledger.state == AwaitingHuman
    requires TimeOf(order, ledger.receipts) <= now <= order.deadline
    requires EndsInRequest(ledger.receipts) ==> now <= ledger.receipts[|ledger.receipts| - 1].event.expiresAt
    ensures StepOutcome(order, ledger, Decide(ContextOf(ledger, now), accepting, decision)).Some?
  {
    ReachedReplaysIff(order, ledger);
    assert Current(order, ledger, ContextOf(ledger, now), now) by {
      AwaitingIsUndecided(order, ledger);
    }
    CurrentIsHealthy(order, ledger, ContextOf(ledger, now), now);
    var request := ledger.receipts[|ledger.receipts| - 1];
    var payload := ExpectedPayload(
      accepting, order, LastReport(ledger).value, request, now, ledger.receipts, if accepting then None else reason);
    decision := Decision(payload, order.acceptor, Signature(order.acceptor, payload));
    DecisionTakenIff(order, ledger, ContextOf(ledger, now), accepting, decision);
  }

  lemma AwaitingIsUndecided(order: WorkOrder, ledger: Ledger)
    requires Replays(order, ledger) && ledger.state == AwaitingHuman
    ensures ledger.acceptances == [] && ledger.rejections == [] && StateOf(ledger.receipts) == AwaitingHuman
  {
  }

  /**
   A request for acceptance is committed exactly in proof_ready, for the current report, open for at most an hour and
   not past the deadline, under an id that is not taken. It then ends the history.
   */
  lemma RequestTakenIff(order: WorkOrder, ledger: Ledger, context: Context, ask: RequestArguments)
    requires Reached(order, ledger)
    ensures StepOutcome(order, ledger, Request(context, ask)).Some? <==>
      && Current(order, ledger, context, ask.now) && context.state == ProofReady
      && LastReport(ledger).Some? && ask.scopeReport == OfReport(LastReport(ledger).value)
      && ask.now <= ask.expiresAt <= ask.now + 3600 && ask.expiresAt <= order.deadline
      && (forall r :: r in ledger.receipts ==> r.id != ask.id)
    ensures StepOutcome(order, ledger, Request(context, ask)).Some? ==>
      && LastReport(ledger).Some?
      && var receipt := Receipt(
           ask.id,
           FinalRequest(
             order.digest, OfReport(LastReport(ledger).value),
             OfFinalAction(order.digest, OfReport(LastReport(ledger).value)), ask.expiresAt),
           |ledger.receipts| + 1, LastDigest(ledger.receipts), ProofReady, AwaitingHuman, ask.parents, [], ask.now);
         Apply(order, ledger, Request(context, ask))
         == ledger.(
              receipts := ledger.receipts + [receipt], state := AwaitingHuman,
              version := ledger.version + 1, next := ledger.next + 1)
  {
    TakenIsUsed(ledger.receipts, ask.id);
    if Current(order, ledger, context, ask.now) {
      CurrentIsHealthy(order, ledger, context, ask.now);
    }
  }

  lemma TakenIsUsed(receipts: seq<Receipt>, id: nat)
    ensures IdTaken(receipts, id) <==> exists r :: r in receipts && r.id == id
  {
    if exists r :: r in receipts && r.id == id {
      var r :| r in receipts && r.id == id;
      var i :| 0 <= i < |receipts| && receipts[i] == r;
      assert receipts[i].id == id;
    }
  }

  /** The report a composition names as the one before it: none from locally_verified, the last one afterwards. */
  lemma PreviousReportIs(order: WorkOrder, ledger: Ledger, context: Context)
    requires Healthy(order, ledger) && context.receipts == ledger.receipts && context.state == StateOf(ledger.receipts)
    ensures PreviousReport(ledger, context).Some? <==>
      context.state == LocallyVerified || (context.state == EvidenceIncomplete && LastReport(ledger).Some?)
    ensures context.state == LocallyVerified ==> PreviousReport(ledger, context) == Some(None)
    ensures context.state == EvidenceIncomplete && LastReport(ledger).Some? ==>
      PreviousReport(ledger, context) == Some(Some(OfReport(LastReport(ledger).value)))
  {
    if LastReport(ledger).Some? {
      LastTriggerIsOfLastReport(order, ledger);
    }
  }

  lemma LastTriggerIsOfLastReport(order: WorkOrder, ledger: Ledger)
    requires Healthy(order, ledger) && LastReport(ledger).Some?
    ensures LastTrigger(ledger.receipts).Some? && TriggersReport(LastTrigger(ledger.receipts).value, LastReport(ledger).value)
  {
    LastReportsTrigger(order, ledger.receipts, ReportsOf(ledger.reports));
    LastTriggerIsLast(ledger.receipts);
  }

  lemma LastReportsTrigger(order: WorkOrder, receipts: seq<Receipt>, reports: seq<Report>)
    requires InOrder(order, receipts, reports) && reports != []
    ensures var triggers := Triggers(receipts);
      && triggers != [] && triggers[|triggers| - 1] < |receipts|
      && TriggersReport(receipts[triggers[|triggers| - 1]], reports[|reports| - 1])
  {
    assert ReportAt(order, reports[|reports| - 1], receipts, Triggers(receipts)[|reports| - 1]);
  }

  lemma LastTriggerIsLast(receipts: seq<Receipt>)
    requires Triggers(receipts) != []
    ensures var at := Triggers(receipts)[|Triggers(receipts)| - 1];
      at < |receipts| && LastTrigger(receipts) == Some(receipts[at])
  {
    var at := Triggers(receipts)[|Triggers(receipts)| - 1];
    TriggersExact(receipts);
    assert at in Triggers(receipts);
    forall p | at < p < |receipts|
      ensures !IsTrigger(receipts[p])
    {
      LaterIsNoTrigger(receipts, p);
    }
    LastTriggerAt(receipts, at);
  }

  lemma LaterIsNoTrigger(receipts: seq<Receipt>, p: nat)
    requires p < |receipts| && Triggers(receipts) != [] && Triggers(receipts)[|Triggers(receipts)| - 1] < p
    ensures !IsTrigger(receipts[p])
  {
    TriggersExact(receipts);
    if p in Triggers(receipts) {
      var i :| 0 <= i < |Triggers(receipts)| && Triggers(receipts)[i] == p;
    }
  }

  lemma {:induction false} LastTriggerAt(receipts: seq<Receipt>, at: nat)
    requires at < |receipts| && IsTrigger(receipts[at])
    requires forall p :: at < p < |receipts| ==> !IsTrigger(receipts[p])
    ensures LastTrigger(receipts) == Some(receipts[at])
    decreases |receipts|
  {
    if at < |receipts| - 1 {
      LastTriggerAt(receipts[..|receipts| - 1], at);
    }
  }

  /**
   A composition is committed exactly from locally_verified, naming no report, or once more from an incomplete one,
   naming it, and then only to a ready one; with the derived version and two unused ids.
   */
  lemma CompositionTakenIff(order: WorkOrder, ledger: Ledger, context: Context, call: ComposeArguments)
    requires Reached(order, ledger)
    ensures StepOutcome(order, ledger, Compose(context, call)).Some? <==>
      && Current(order, ledger, context, call.now) && call.version == ledger.version
      && (|| (context.state == LocallyVerified && call.previousReport == None)
          || (&& context.state == EvidenceIncomplete && LastReport(ledger).Some?
              && call.previousReport == Some(OfReport(LastReport(ledger).value)) && call.ready))
      && (forall r :: r in ledger.receipts ==> r.id != call.id && r.id != call.triggerId) && call.id != call.triggerId
  {
    TakenIsUsed(ledger.receipts, call.id);
    TakenIsUsed(ledger.receipts, call.triggerId);
    if Current(order, ledger, context, call.now) {
      CurrentIsHealthy(order, ledger, context, call.now);
      PreviousReportIs(order, ledger, context);
      if PreviousReport(ledger, context) == Some(call.previousReport) && call.version == ledger.version
         && (context.state == EvidenceIncomplete ==> call.ready)
      {
        ComposeInsertsUnlessIdTaken(order, ledger, context, call);
      }
    }
  }

  /** What a composition writes: the call and its proof_composed event, and the report over everything up to the call. */
  lemma CompositionWrites(order: WorkOrder, ledger: Ledger, context: Context, call: ComposeArguments)
    requires Reached(order, ledger) && StepOutcome(order, ledger, Compose(context, call)).Some?
    ensures var (after, n) := (Apply(order, ledger, Compose(context, call)), |ledger.receipts|);
      && |after.receipts| == n + 2 && after.receipts[..n] == ledger.receipts
      && |after.reports| == |ledger.reports| + 1 && after.reports[..|ledger.reports|] == ledger.reports
      && var (initiator, trigger, row) := (after.receipts[n], after.receipts[n + 1], after.reports[|ledger.reports|]);
      && initiator.id == call.id && initiator.event == ComposeCall(call.version, call.previousReport)
      && initiator.parents == call.parents && initiator.references == [] && initiator.occurredAt == call.now
      && initiator.before == initiator.after == ledger.state
      && trigger.id == call.triggerId && trigger.parents == [call.id] && trigger.references == []
      && trigger.occurredAt == call.now
      && trigger.event == ProofComposed(OfReceipt(initiator), OfReport(row.report), call.version)
      && row.report.workOrder == order.digest && row.report.ready == call.ready && row.report.findings == call.findings
      && row.report.initiatorId == call.id && row.report.initiator == OfReceipt(initiator)
      && row.report.receipts == Digests(ledger.receipts + [initiator]) && row.sourceVersion == ledger.version
      && row.report.evidence == EvidenceDigest(ledger.receipts)
      && after.state == (if call.ready then ProofReady else EvidenceIncomplete)
      && after.version == ledger.version + 1 && after.next == ledger.next + 2
      && after.acceptances == after.rejections == []
  {
    CurrentIsHealthy(order, ledger, context, call.now);
    var initiator, trigger, report := ComposeShape(order, ledger, context, call);
    var after := Apply(order, ledger, Compose(context, call));
    assert after.receipts[..|ledger.receipts|] == ledger.receipts;
    assert (ledger.receipts + [initiator])[..|ledger.receipts|] == ledger.receipts;
  }
}

/** What holds of every ledger the acceptance run can reach, and what the offline checks say of it. */
module AcceptanceHistory {
  import opened Collections
  import opened Receipts
  import opened CompositionBundle
  import opened AcceptanceBindings
  import opened AcceptanceRun

  ghost predicate EndsInRequest(receipts: seq<Receipt>) {
    receipts != [] && receipts[|receipts| - 1].event.FinalRequest?
  }

  /** The last request asks for a decision on the last report. */
  ghost predicate TipBound(order: WorkOrder, ledger: Ledger) {
    && (StateOf(ledger.receipts) in {ProofReady, AwaitingHuman} ==> LastReport(ledger).Some? && LastReport(ledger).value.ready)
    && (EndsInRequest(ledger.receipts) ==>
          && StateOf(ledger.receipts) == AwaitingHuman
          && LastReport(ledger).Some?
          && ScopedTo(order, LastReport(ledger).value, ledger.receipts[|ledger.receipts| - 1]))
  }

  /** The committed decision answers the request that ends the history. */
  ghost predicate Answers(order: WorkOrder, accepting: bool, ledger: Ledger, decision: Decision) {
    && EndsInRequest(ledger.receipts)
    && LastReport(ledger).Some?
    && var request := ledger.receipts[|ledger.receipts| - 1];
    && request.occurredAt <= decision.payload.decidedAt <= request.event.expiresAt
    && decision.payload.decidedAt <= order.deadline
    && decision.payload
       == ExpectedPayload(accepting, order, LastReport(ledger).value, request, decision.payload.decidedAt,
                          ledger.receipts, decision.payload.reason)
    && SignedByAcceptor(order, decision)
  }

  ghost predicate RowsInOrder(ledger: Ledger) {
    && (forall i, j :: 0 <= i < j < |ledger.reports| ==> ledger.reports[i].sourceVersion < ledger.reports[j].sourceVersion)
    && (forall i :: 0 <= i < |ledger.reports| ==> ledger.reports[i].sourceVersion < ledger.version)
  }

  /** Kept by every step but a denial, whatever the clients hold. */
  ghost predicate Healthy(order: WorkOrder, ledger: Ledger) {
    && Linked(ledger.receipts) && DistinctReceiptIds(ledger.receipts) && ledger.next == |ledger.receipts| + 1
    && DeriveVersion(ledger.receipts).Some?
    && ledger.version == DeriveVersion(ledger.receipts).value + |ledger.acceptances| + |ledger.rejections|
    && ledger.state == ExpectedState(ledger)
    && InOrder(order, ledger.receipts, ReportsOf(ledger.reports))
    && RowsInOrder(ledger)
    && TipBound(order, ledger)
    && (forall r :: r in ledger.receipts ==> !r.event.Denial?)
    && |ledger.acceptances| + |ledger.rejections| <= 1
    && (forall d :: d in ledger.acceptances ==> Answers(order, true, ledger, d))
    && (forall d :: d in ledger.rejections ==> Answers(order, false, ledger, d))
  }

  lemma EmptyIsHealthy(order: WorkOrder)
    ensures Healthy(order, EMPTY_LEDGER)
  {
    assert Triggers([]) == [];
  }

  // ----- appending receipts ------------------------------------------------------------------------

  ghost predicate Extends(order: WorkOrder, receipts: seq<Receipt>, receipt: Receipt) {
    && receipt.sequence == |receipts| + 1
    && receipt.previous == LastDigest(receipts)
    && receipt.before == StateOf(receipts)
    && TimeOf(order, receipts) <= receipt.occurredAt
    && (receipts == [] ==> receipt.event.Ordinary? && receipt.after == Running)
  }

  lemma LinkedAppend(order: WorkOrder, receipts: seq<Receipt>, receipt: Receipt)
    requires Linked(receipts) && Extends(order, receipts, receipt)
    ensures Linked(receipts + [receipt])
  {
    var grown := receipts + [receipt];
    forall i | 0 <= i < |grown|
      ensures LinkedAt(grown, i)
    {
      if i < |receipts| {
        assert LinkedAt(receipts, i);
        assert grown[..i] == receipts[..i];
      } else {
        assert grown[..i] == receipts;
      }
    }
  }

  lemma SequenceIdentifies(receipts: seq<Receipt>, p: nat, q: nat)
    requires Linked(receipts) && p < |receipts| && q < |receipts| && receipts[p] == receipts[q]
    ensures p == q
  {
    assert LinkedAt(receipts, p) && LinkedAt(receipts, q);
  }

  lemma FreshId(receipts: seq<Receipt>, receipt: Receipt)
    requires DistinctReceiptIds(receipts) && !IdTaken(receipts, receipt.id)
    ensures DistinctReceiptIds(receipts + [receipt])
  {
  }

  lemma BoundIsReportAt(order: WorkOrder, report: Report, receipts: seq<Receipt>, trigger: nat)
    requires Linked(receipts) && 0 < trigger < |receipts|
    requires IsInitiator(report, receipts[trigger - 1]) && BoundAt(order, report, receipts, trigger - 1)
    ensures ReportAt(order, report, receipts, trigger)
  {
    forall p | 0 <= p < |receipts| && IsInitiator(report, receipts[p])
      ensures p == trigger - 1
    {
      SequenceIdentifies(receipts, p, trigger - 1);
    }
  }

  lemma ReportAtCarries(order: WorkOrder, report: Report, receipts: seq<Receipt>, grown: seq<Receipt>, trigger: nat)
    requires ReportAt(order, report, receipts, trigger) && receipts <= grown && Linked(grown)
    ensures ReportAt(order, report, grown, trigger)
  {
    assert grown[..trigger] == receipts[..trigger];
    BoundIsReportAt(order, report, grown, trigger);
  }

  /** A receipt that is no proof_composed event leaves the reports where they are. */
  lemma InOrderKeeps(order: WorkOrder, receipts: seq<Receipt>, reports: seq<Report>, receipt: Receipt)
    requires InOrder(order, receipts, reports) && !IsTrigger(receipt) && Linked(receipts + [receipt])
    ensures InOrder(order, receipts + [receipt], reports)
    ensures Triggers(receipts + [receipt]) == Triggers(receipts)
  {
    PositionsAppend(receipts, receipt, IsTrigger);
    forall i | 0 <= i < |reports|
      ensures ReportAt(order, reports[i], receipts + [receipt], Triggers(receipts)[i])
    {
      ReportAtCarries(order, reports[i], receipts, receipts + [receipt], Triggers(receipts)[i]);
    }
  }

  lemma InOrderExtends(
    order: WorkOrder, receipts: seq<Receipt>, reports: seq<Report>, initiator: Receipt, trigger: Receipt, report: Report)
    requires InOrder(order, receipts, reports)
    requires !IsTrigger(initiator) && TriggersReport(trigger, report) && report.workOrder == order.digest
    requires IsInitiator(report, initiator) && CoversPrefix(report, receipts + [initiator])
    requires Linked(receipts + [initiator]) && Linked(receipts + [initiator] + [trigger])
    ensures InOrder(order, receipts + [initiator] + [trigger], reports + [report])
  {
    var middle := receipts + [initiator];
    var grown := middle + [trigger];
    InOrderKeeps(order, receipts, reports, initiator);
    PositionsAppend(middle, trigger, IsTrigger);
    assert Triggers(grown) == Triggers(receipts) + [|middle|];
    assert grown[..|middle| - 1 + 1] == middle;
    BoundIsReportAt(order, report, grown, |middle|);
    forall i | 0 <= i < |reports|
      ensures ReportAt(order, reports[i], grown, Triggers(grown)[i])
    {
      ReportAtCarries(order, reports[i], middle, grown, Triggers(receipts)[i]);
    }
  }

  lemma DeriveOne(receipts: seq<Receipt>, receipt: Receipt)
    requires DeriveVersion(receipts).Some? && !receipt.event.ComposeCall? && !receipt.event.ProofComposed?
    ensures DeriveVersion(receipts + [receipt]) == Some(DeriveVersion(receipts).value + 1)
  {
    DeriveContinues(receipts, [receipt], 0, 0);
  }

  lemma DerivePair(receipts: seq<Receipt>, initiator: Receipt, trigger: Receipt)
    requires DeriveVersion(receipts).Some? && initiator.event.ComposeCall?
    requires initiator.event.version == DeriveVersion(receipts).value
    requires Completes(initiator, trigger, DeriveVersion(receipts).value)
    ensures DeriveVersion(receipts + [initiator] + [trigger]) == Some(DeriveVersion(receipts).value + 1)
  {
    DeriveContinues(receipts, [initiator, trigger], 0, 0);
    assert receipts + [initiator] + [trigger] == receipts + [initiator, trigger];
  }

  lemma RowsAppend(rows: seq<ReportRow>, row: ReportRow)
    ensures ReportsOf(rows + [row]) == ReportsOf(rows) + [row.report]
  {
  }

  // ----- every step keeps a healthy ledger healthy ----------------------------------------------------

  lemma RecordKeeps(order: WorkOrder, ledger: Ledger, context: Context, receipt: Receipt)
    requires Healthy(order, ledger) && RecordStep(order, ledger, context, receipt).Some?
    ensures Healthy(order, RecordStep(order, ledger, context, receipt).value)
  {
    var receipts := ledger.receipts;
    assert Extends(order, receipts, receipt);
    LinkedAppend(order, receipts, receipt);
    FreshId(receipts, receipt);
    InOrderKeeps(order, receipts, ReportsOf(ledger.reports), receipt);
    DeriveOne(receipts, receipt);
    var after := RecordStep(order, ledger, context, receipt).value;
    assert RowsInOrder(after) && TipBound(order, after);
  }

  lemma RequestKeeps(order: WorkOrder, ledger: Ledger, context: Context, ask: RequestArguments)
    requires Healthy(order, ledger) && RequestStep(order, ledger, context, ask).Some?
    ensures Healthy(order, RequestStep(order, ledger, context, ask).value)
  {
    var receipts := ledger.receipts;
    var receipt := RequestReceipt(order, context, LastReport(ledger).value, ask);
    assert Extends(order, receipts, receipt);
    LinkedAppend(order, receipts, receipt);
    FreshId(receipts, receipt);
    InOrderKeeps(order, receipts, ReportsOf(ledger.reports), receipt);
    DeriveOne(receipts, receipt);
  }

  /** What a composition adds, and what its guards have established. */
  lemma ComposeShape(order: WorkOrder, ledger: Ledger, context: Context, call: ComposeArguments)
    returns (initiator: Receipt, trigger: Receipt, report: Report)
    requires Healthy(order, ledger) && ComposeStep(order, ledger, context, call).Some?
    ensures ledger.acceptances == [] && ledger.rejections == []
    ensures context.receipts == ledger.receipts && context.state == StateOf(ledger.receipts)
    ensures context.state in {LocallyVerified, EvidenceIncomplete} && TimeOf(order, ledger.receipts) <= context.time
    ensures DeriveVersion(ledger.receipts) == Some(call.version) && ledger.version == call.version
    ensures initiator == ComposeInitiator(context, call)
    ensures trigger == ComposeTrigger(context, initiator, report, call)
    ensures DeriveReport(order, ledger.receipts + [initiator], call) == Some(report)
    ensures !IdTaken(ledger.receipts, initiator.id) && !IdTaken(ledger.receipts + [initiator], trigger.id)
    ensures ComposeStep(order, ledger, context, call).value == ledger.(
        receipts := ledger.receipts + [initiator] + [trigger],
        reports := ledger.reports + [ReportRow(report, ledger.version)],
        state := trigger.after, version := ledger.version + 1, next := ledger.next + 2)
  {
    initiator := ComposeInitiator(context, call);
    report := DeriveReport(order, ledger.receipts + [initiator], call).value;
    trigger := ComposeTrigger(context, initiator, report, call);
  }

  lemma ComposeKeeps(order: WorkOrder, ledger: Ledger, context: Context, call: ComposeArguments)
    requires Healthy(order, ledger) && ComposeStep(order, ledger, context, call).Some?
    ensures Healthy(order, ComposeStep(order, ledger, context, call).value)
  {
    var receipts := ledger.receipts;
    var initiator, trigger, report := ComposeShape(order, ledger, context, call);
    assert Extends(order, receipts, initiator);
    LinkedAppend(order, receipts, initiator);
    FreshId(receipts, initiator);
    var middle := receipts + [initiator];
    assert Extends(order, middle, trigger);
    LinkedAppend(order, middle, trigger);
    FreshId(middle, trigger);
    DerivePair(receipts, initiator, trigger);
    InOrderExtends(order, receipts, ReportsOf(ledger.reports), initiator, trigger, report);
    RowsAppend(ledger.reports, ReportRow(report, ledger.version));
  }

  lemma DecideKeeps(order: WorkOrder, ledger: Ledger, context: Context, accepting: bool, decision: Decision)
    requires Healthy(order, ledger) && DecideStep(order, ledger, context, accepting, decision).Some?
    ensures Healthy(order, DecideStep(order, ledger, context, accepting, decision).value)
  {
    DecideShape(order, ledger, context, accepting, decision);
    DecidedIsHealthy(order, ledger, accepting, decision);
  }

  lemma DecidedIsHealthy(order: WorkOrder, ledger: Ledger, accepting: bool, decision: Decision)
    requires Healthy(order, ledger) && ledger.acceptances == [] && ledger.rejections == []
    requires StateOf(ledger.receipts) == AwaitingHuman && Answers(order, accepting, ledger, decision)
    ensures Healthy(order, Decided(ledger, accepting, decision))
  {
    var after := Decided(ledger, accepting, decision);
    assert RowsInOrder(after) && TipBound(order, after);
    assert Answers(order, accepting, after, decision);
  }

  ghost function Decided(ledger: Ledger, accepting: bool, decision: Decision): Ledger {
    if accepting then ledger.(acceptances := [decision], state := Accepted, version := ledger.version + 1)
    else ledger.(rejections := [decision], state := Rejected, version := ledger.version + 1)
  }

  /** What a decision adds, and what its guards have established. */
  lemma DecideShape(order: WorkOrder, ledger: Ledger, context: Context, accepting: bool, decision: Decision)
    requires Healthy(order, ledger) && DecideStep(order, ledger, context, accepting, decision).Some?
    ensures ledger.acceptances == [] && ledger.rejections == []
    ensures StateOf(ledger.receipts) == AwaitingHuman && Answers(order, accepting, ledger, decision)
    ensures DecideStep(order, ledger, context, accepting, decision).value == Decided(ledger, accepting, decision)
  {
  }

  lemma StepKeepsHealthy(order: WorkOrder, ledger: Ledger, step: Step)
    requires Healthy(order, ledger) && !step.Deny?
    ensures Healthy(order, Apply(order, ledger, step))
  {
    if StepOutcome(order, ledger, step).Some? {
      match step
      case Compose(context, call) => ComposeKeeps(order, ledger, context, call);
      case Request(context, ask) => RequestKeeps(order, ledger, context, ask);
      case Decide(context, accepting, decision) => DecideKeeps(order, ledger, context, accepting, decision);
      case Record(context, receipt) => RecordKeeps(order, ledger, context, receipt);
    }
  }

  // ----- the request stays next to its composition ---------------------------------------------------

  /** The receipt before the last is a proof_composed event. */
  predicate RequestFollowsComposition(receipts: seq<Receipt>) {
    |receipts| >= 2 && IsTrigger(receipts[|receipts| - 2])
  }

  /** At the human gate nothing but the request stands after the composition. */
  ghost predicate Direct(receipts: seq<Receipt>) {
    && (StateOf(receipts) == ProofReady ==> receipts != [] && IsTrigger(receipts[|receipts| - 1]))
    && (StateOf(receipts) == AwaitingHuman ==> EndsInRequest(receipts) && RequestFollowsComposition(receipts))
  }

  lemma ComposeKeepsDirect(order: WorkOrder, ledger: Ledger, context: Context, call: ComposeArguments)
    requires Healthy(order, ledger) && ComposeStep(order, ledger, context, call).Some?
    ensures Direct(ComposeStep(order, ledger, context, call).value.receipts)
  {
    var initiator, trigger, report := ComposeShape(order, ledger, context, call);
  }

  lemma RequestKeepsDirect(order: WorkOrder, ledger: Ledger, context: Context, ask: RequestArguments)
    requires Direct(ledger.receipts) && RequestStep(order, ledger, context, ask).Some?
    ensures Direct(RequestStep(order, ledger, context, ask).value.receipts)
  {
    var receipt := RequestReceipt(order, context, LastReport(ledger).value, ask);
    assert RequestStep(order, ledger, context, ask).value.receipts == ledger.receipts + [receipt];
  }

  lemma RecordKeepsDirect(order: WorkOrder, ledger: Ledger, context: Context, receipt: Receipt)
    requires RecordStep(order, ledger, context, receipt).Some?
    ensures Direct(RecordStep(order, ledger, context, receipt).value.receipts)
  {
    assert RecordStep(order, ledger, context, receipt).value.receipts == ledger.receipts + [receipt];
  }

  lemma StepKeepsDirect(order: WorkOrder, ledger: Ledger, step: Step)
    requires Healthy(order, ledger) && Direct(ledger.receipts) && !step.Deny?
    ensures Direct(Apply(order, ledger, step).receipts)
  {
    if StepOutcome(order, ledger, step).Some? {
      match step
      case Compose(context, call) => ComposeKeepsDirect(order, ledger, context, call);
      case Request(context, ask) => RequestKeepsDirect(order, ledger, context, ask);
      case Decide(context, accepting, decision) => DecideShape(order, ledger, context, accepting, decision);
      case Record(context, receipt) => RecordKeepsDirect(order, ledger, context, receipt);
    }
  }

  // ----- every run ----------------------------------------------------------------------------------

  /** A denial was recorded: it is the last row. */
  predicate EndsInDenial(ledger: Ledger) {
    ledger.receipts != [] && ledger.receipts[|ledger.receipts| - 1].event.Denial?
  }

  function WithoutDenial(ledger: Ledger): Ledger {
    if EndsInDenial(ledger) then ledger.(receipts := ledger.receipts[..|ledger.receipts| - 1]) else ledger
  }

  /** What every run keeps: a denial aside, the ledger is healthy and its request direct. */
  ghost predicate Reached(order: WorkOrder, ledger: Ledger) {
    && Healthy(order, WithoutDenial(ledger))
    && Direct(WithoutDenial(ledger).receipts)
    && (EndsInDenial(ledger) ==> ledger.acceptances == [] && ledger.rejections == [])
  }

  lemma EmptyIsReached(order: WorkOrder)
    ensures Reached(order, EMPTY_LEDGER)
  {
    EmptyIsHealthy(order);
  }

  /** A denial row without its counter is a ledger no reader accepts. */
  lemma DeniedIsUnreadable(order: WorkOrder, ledger: Ledger)
    requires Reached(order, ledger) && EndsInDenial(ledger)
    ensures !Replays(order, ledger)
  {
  }

  lemma DenialIsRecorded(order: WorkOrder, ledger: Ledger, context: Context, denial: DenialArguments)
    requires Reached(order, ledger) && DenyStep(order, ledger, context, denial).Some?
    ensures var after := DenyStep(order, ledger, context, denial).value;
      !EndsInDenial(ledger) && EndsInDenial(after) && WithoutDenial(after) == ledger && Reached(order, after)
  {
    if EndsInDenial(ledger) {
      DeniedIsUnreadable(order, ledger);
    }
    var after := DenyStep(order, ledger, context, denial).value;
    assert after.receipts[..|after.receipts| - 1] == ledger.receipts;
    NoDecisionWhenCurrent(order, ledger, context, denial.now);
  }

  /** A context is only current while nothing has been decided. */
  lemma NoDecisionWhenCurrent(order: WorkOrder, ledger: Ledger, context: Context, now: int)
    requires Current(order, ledger, context, now)
    ensures ledger.acceptances == [] && ledger.rejections == []
  {
    if ledger.acceptances + ledger.rejections != [] {
      assert StateOf(ledger.receipts) == AwaitingHuman;
    }
  }

  lemma StepKeepsReached(order: WorkOrder, ledger: Ledger, step: Step)
    requires Reached(order, ledger)
    ensures Reached(order, Apply(order, ledger, step))
    ensures EndsInDenial(Apply(order, ledger, step)) <==>
      EndsInDenial(ledger) || (step.Deny? && StepOutcome(order, ledger, step).Some?)
  {
    if EndsInDenial(ledger) {
      DeniedIsUnreadable(order, ledger);
    } else if step.Deny? {
      if StepOutcome(order, ledger, step).Some? {
        DenialIsRecorded(order, ledger, step.context, step.denial);
      }
    } else {
      StepKeepsHealthy(order, ledger, step);
      StepKeepsDirect(order, ledger, step);
      NotDenied(order, Apply(order, ledger, step));
    }
  }

  lemma NotDenied(order: WorkOrder, ledger: Ledger)
    requires Healthy(order, ledger)
    ensures !EndsInDenial(ledger)
  {
    if ledger.receipts != [] {
      assert ledger.receipts[|ledger.receipts| - 1] in ledger.receipts;
    }
  }

  /** Some step of the run records a denial. */
  ghost predicate DenialTaken(order: WorkOrder, ledger: Ledger, steps: seq<Step>)
    decreases |steps|
  {
    steps != []
    && (|| (steps[0].Deny? && StepOutcome(order, ledger, steps[0]).Some?)
        || DenialTaken(order, Apply(order, ledger, steps[0]), steps[1..]))
  }

  lemma {:induction false} RunKeepsReached(order: WorkOrder, ledger: Ledger, steps: seq<Step>)
    requires Reached(order, ledger)
    ensures Reached(order, Run(order, ledger, steps))
    ensures EndsInDenial(Run(order, ledger, steps)) <==> EndsInDenial(ledger) || DenialTaken(order, ledger, steps)
    decreases |steps|
  {
    if steps != [] {
      StepKeepsReached(order, ledger, steps[0]);
      RunKeepsReached(order, Apply(order, ledger, steps[0]), steps[1..]);
    }
  }
}

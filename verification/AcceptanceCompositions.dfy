/**
 How often one work order is composed, and what each composition names as the report before it
 (src/openworkproof/acceptance.py:977-1022).
 */
module AcceptanceCompositions {
  import opened Collections
  import opened Receipts
  import opened CompositionBundle
  import opened AcceptanceBindings
  import opened AcceptanceRun
  import opened AcceptanceHistory

  /** States a work order can be in before its first composition, and never after it. */
  const UNCOMPOSED: set<TaskState> := {Issued, Running, NeedsRework, Retrying, LocallyVerified}

  /** The i-th composition names the report before it, the first one none. */
  ghost predicate NamesPrevious(ledger: Ledger, i: nat)
    requires i < |ledger.reports| && i < |Triggers(ledger.receipts)|
  {
    var trigger := Triggers(ledger.receipts)[i];
    && 0 < trigger < |ledger.receipts|
    && ledger.receipts[trigger - 1].event.ComposeCall?
    && ledger.receipts[trigger - 1].event.previousReport
       == if i == 0 then None else Some(OfReport(ledger.reports[i - 1].report))
  }

  ghost predicate Compositions(ledger: Ledger) {
    && |ledger.reports| == |Triggers(ledger.receipts)| <= 2
    && (ledger.reports != [] ==> StateOf(ledger.receipts) !in UNCOMPOSED)
    && (|ledger.reports| == 2 ==>
          && !ledger.reports[0].report.ready && ledger.reports[1].report.ready
          && StateOf(ledger.receipts) != EvidenceIncomplete)
    && (|ledger.reports| == 1 && StateOf(ledger.receipts) == EvidenceIncomplete ==> !ledger.reports[0].report.ready)
    && (forall i {:trigger NamesPrevious(ledger, i)} :: 0 <= i < |ledger.reports| ==> NamesPrevious(ledger, i))
  }

  lemma EmptyCompositions()
    ensures Compositions(EMPTY_LEDGER)
  {
  }

  /** A step that adds no trigger and no report, and does not go back, keeps all of it. */
  lemma QuietStepKeeps(ledger: Ledger, after: Ledger)
    requires Compositions(ledger) && after.reports == ledger.reports
    requires ledger.receipts <= after.receipts && Triggers(after.receipts) == Triggers(ledger.receipts)
    requires StateOf(ledger.receipts) !in UNCOMPOSED ==> StateOf(after.receipts) !in UNCOMPOSED
    requires StateOf(after.receipts) == EvidenceIncomplete ==> StateOf(ledger.receipts) in UNCOMPOSED + {EvidenceIncomplete}
    ensures Compositions(after)
  {
    forall i | 0 <= i < |after.reports|
      ensures NamesPrevious(after, i)
    {
      assert NamesPrevious(ledger, i);
    }
  }

  lemma OneMoreTrigger(receipts: seq<Receipt>, initiator: Receipt, trigger: Receipt)
    requires !IsTrigger(initiator) && IsTrigger(trigger)
    ensures Triggers(receipts + [initiator] + [trigger]) == Triggers(receipts) + [|receipts| + 1]
  {
    PositionsAppend(receipts, initiator, IsTrigger);
    PositionsAppend(receipts + [initiator], trigger, IsTrigger);
  }

  /** A composition goes ahead first from locally_verified, or once more from an incomplete report. */
  lemma ComposesFirstOrAgain(ledger: Ledger, context: Context, call: ComposeArguments)
    requires Compositions(ledger) && context.state == StateOf(ledger.receipts)
    requires PreviousReport(ledger, context) == Some(call.previousReport)
    requires context.state == EvidenceIncomplete ==> call.ready
    ensures if StateOf(ledger.receipts) == LocallyVerified then ledger.reports == [] && call.previousReport == None
            else && StateOf(ledger.receipts) == EvidenceIncomplete && |ledger.reports| == 1 && call.ready
                 && call.previousReport == Some(OfReport(ledger.reports[0].report))
  {
  }

  lemma ComposePassedGuards(order: WorkOrder, ledger: Ledger, context: Context, call: ComposeArguments)
    requires ComposeStep(order, ledger, context, call).Some?
    ensures context.state == StateOf(ledger.receipts)
    ensures PreviousReport(ledger, context) == Some(call.previousReport)
    ensures context.state == EvidenceIncomplete ==> call.ready
  {
  }

  lemma ComposeKeepsCompositions(order: WorkOrder, ledger: Ledger, context: Context, call: ComposeArguments)
    requires Healthy(order, ledger) && Compositions(ledger) && ComposeStep(order, ledger, context, call).Some?
    ensures Compositions(ComposeStep(order, ledger, context, call).value)
  {
    ComposePassedGuards(order, ledger, context, call);
    ComposesFirstOrAgain(ledger, context, call);
    var initiator, trigger, report := ComposeShape(order, ledger, context, call);
    OneMoreTrigger(ledger.receipts, initiator, trigger);
    var after := ComposeStep(order, ledger, context, call).value;
    assert report.ready == call.ready;
    CompositionAdds(ledger, after, initiator, trigger, report);
  }

  lemma CompositionAdds(ledger: Ledger, after: Ledger, initiator: Receipt, trigger: Receipt, report: Report)
    requires Compositions(ledger) && |ledger.reports| <= 1
    requires after.receipts == ledger.receipts + [initiator] + [trigger]
    requires |after.reports| == |ledger.reports| + 1 && ledger.reports <= after.reports
    requires after.reports[|ledger.reports|].report == report
    requires Triggers(after.receipts) == Triggers(ledger.receipts) + [|ledger.receipts| + 1]
    requires initiator.event.ComposeCall?
    requires initiator.event.previousReport
          == if ledger.reports == [] then None else Some(OfReport(ledger.reports[0].report))
    requires trigger.after == if report.ready then ProofReady else EvidenceIncomplete
    requires ledger.reports != [] ==> report.ready && !ledger.reports[0].report.ready
    ensures Compositions(after)
  {
    forall i | 0 <= i < |after.reports|
      ensures NamesPrevious(after, i)
    {
      if i < |ledger.reports| {
        assert NamesPrevious(ledger, i);
      } else {
        assert after.receipts[|ledger.receipts|] == initiator;
      }
    }
  }

  lemma RequestKeepsCompositions(order: WorkOrder, ledger: Ledger, context: Context, ask: RequestArguments)
    requires Healthy(order, ledger) && Compositions(ledger) && RequestStep(order, ledger, context, ask).Some?
    ensures Compositions(RequestStep(order, ledger, context, ask).value)
  {
    PositionsAppend(ledger.receipts, RequestReceipt(order, context, LastReport(ledger).value, ask), IsTrigger);
    QuietStepKeeps(ledger, RequestStep(order, ledger, context, ask).value);
  }

  lemma RecordKeepsCompositions(order: WorkOrder, ledger: Ledger, context: Context, receipt: Receipt)
    requires Healthy(order, ledger) && Compositions(ledger) && RecordStep(order, ledger, context, receipt).Some?
    ensures Compositions(RecordStep(order, ledger, context, receipt).value)
  {
    PositionsAppend(ledger.receipts, receipt, IsTrigger);
    QuietStepKeeps(ledger, RecordStep(order, ledger, context, receipt).value);
  }

  lemma DecideKeepsCompositions(
    order: WorkOrder, ledger: Ledger, context: Context, accepting: bool, decision: Decision)
    requires Healthy(order, ledger) && Compositions(ledger) && DecideStep(order, ledger, context, accepting, decision).Some?
    ensures Compositions(DecideStep(order, ledger, context, accepting, decision).value)
  {
    DecideShape(order, ledger, context, accepting, decision);
    QuietStepKeeps(ledger, DecideStep(order, ledger, context, accepting, decision).value);
  }

  lemma DenyKeepsCompositions(order: WorkOrder, ledger: Ledger, context: Context, denial: DenialArguments)
    requires Compositions(ledger) && DenyStep(order, ledger, context, denial).Some?
    ensures Compositions(DenyStep(order, ledger, context, denial).value)
  {
    PositionsAppend(ledger.receipts, DenialReceipt(order, context, denial), IsTrigger);
    QuietStepKeeps(ledger, DenyStep(order, ledger, context, denial).value);
  }

  lemma StepKeepsCompositions(order: WorkOrder, ledger: Ledger, step: Step)
    requires Reached(order, ledger) && Compositions(ledger)
    ensures Compositions(Apply(order, ledger, step))
  {
    if EndsInDenial(ledger) {
      DeniedIsUnreadable(order, ledger);
    } else if StepOutcome(order, ledger, step).Some? {
      TakenKeepsCompositions(order, ledger, step);
    }
  }

  lemma TakenKeepsCompositions(order: WorkOrder, ledger: Ledger, step: Step)
    requires Healthy(order, ledger) && Compositions(ledger) && StepOutcome(order, ledger, step).Some?
    ensures Compositions(StepOutcome(order, ledger, step).value)
  {
    match step
    case Compose(context, call) => ComposeKeepsCompositions(order, ledger, context, call);
    case Request(context, ask) => RequestKeepsCompositions(order, ledger, context, ask);
    case Decide(context, accepting, decision) => DecideKeepsCompositions(order, ledger, context, accepting, decision);
    case Record(context, receipt) => RecordKeepsCompositions(order, ledger, context, receipt);
    case Deny(context, denial) => DenyKeepsCompositions(order, ledger, context, denial);
  }

  lemma {:induction false} RunKeepsCompositions(order: WorkOrder, ledger: Ledger, steps: seq<Step>)
    requires Reached(order, ledger) && Compositions(ledger)
    ensures Compositions(Run(order, ledger, steps))
    decreases |steps|
  {
    if steps != [] {
      StepKeepsReached(order, ledger, steps[0]);
      StepKeepsCompositions(order, ledger, steps[0]);
      RunKeepsCompositions(order, Apply(order, ledger, steps[0]), steps[1..]);
    }
  }

  /**
   In every run a work order is composed at most twice: a second time only when the first report was
   incomplete, naming it, and only to a report that is ready.
   */
  lemma ComposedAtMostTwice(order: WorkOrder, steps: seq<Step>)
    ensures var ledger := Run(order, EMPTY_LEDGER, steps);
      && |ledger.reports| == |Triggers(ledger.receipts)| <= 2
      && (|ledger.reports| == 2 ==>
            && !ledger.reports[0].report.ready && ledger.reports[1].report.ready
            && NamesPrevious(ledger, 0) && NamesPrevious(ledger, 1))
  {
    EmptyIsReached(order);
    EmptyCompositions();
    RunKeepsCompositions(order, EMPTY_LEDGER, steps);
    var ledger := Run(order, EMPTY_LEDGER, steps);
    assert forall i :: 0 <= i < |ledger.reports| ==> NamesPrevious(ledger, i);
  }
}

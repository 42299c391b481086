/** The run against the offline checks: when a committed decision is one a reader without the ledger accepts. */
module AcceptanceTheorems {
  import opened Collections
  import opened Receipts
  import opened CompositionBundle
  import opened AcceptanceBindings
  import opened AcceptanceRun
  import opened AcceptanceHistory

  // ----- counters and tables ------------------------------------------------------------------------

  /**
   Gap-free sequence numbers, linked digests, counters that say what the tables hold, in every run, up to a
   denial if one was recorded; and one decision at most.
   */
  lemma RunsKeepTheLedger(order: WorkOrder, steps: seq<Step>, i: nat)
    ensures var ledger := WithoutDenial(Run(order, EMPTY_LEDGER, steps));
      && ledger.next == |ledger.receipts| + 1
      && ledger.version == |ledger.receipts| - |ledger.reports| + |ledger.acceptances| + |ledger.rejections|
      && (ledger.acceptances == [] || ledger.rejections == [])
      && |ledger.acceptances + ledger.rejections| <= 1
      && (i < |ledger.receipts| ==>
            && ledger.receipts[i].sequence == i + 1
            && ledger.receipts[i].previous == (if i == 0 then None else Some(OfReceipt(ledger.receipts[i - 1])))
            && ledger.receipts[i].before == (if i == 0 then Issued else ledger.receipts[i - 1].after))
  {
    EmptyIsReached(order);
    RunKeepsReached(order, EMPTY_LEDGER, steps);
    HealthyCounters(order, WithoutDenial(Run(order, EMPTY_LEDGER, steps)));
    HealthyLinks(WithoutDenial(Run(order, EMPTY_LEDGER, steps)).receipts, i);
  }

  lemma HealthyCounters(order: WorkOrder, ledger: Ledger)
    requires Healthy(order, ledger)
    ensures ledger.version == |ledger.receipts| - |ledger.reports| + |ledger.acceptances| + |ledger.rejections|
  {
    VersionCountsTransactions(ledger.receipts, 0, 0);
    assert ledger.receipts[..0] == [];
  }

  lemma HealthyLinks(receipts: seq<Receipt>, i: nat)
    requires Linked(receipts)
    ensures i < |receipts| ==>
      && receipts[i].sequence == i + 1
      && receipts[i].previous == (if i == 0 then None else Some(OfReceipt(receipts[i - 1])))
      && receipts[i].before == (if i == 0 then Issued else receipts[i - 1].after)
  {
    if i < |receipts| {
      assert LinkedAt(receipts, i);
    }
  }

  /** With the context current, only a receipt id that is taken can stop the rows of a composition. */
  lemma ComposeInsertsUnlessIdTaken(order: WorkOrder, ledger: Ledger, context: Context, call: ComposeArguments)
    requires Healthy(order, ledger) && Current(order, ledger, context, call.now)
    requires PreviousReport(ledger, context) == Some(call.previousReport) && DeriveVersion(context.receipts) == Some(call.version)
    requires context.state == EvidenceIncomplete ==> call.ready
    ensures ComposeStep(order, ledger, context, call).Some? <==>
      !IdTaken(ledger.receipts, call.id) && !IdTaken(ledger.receipts, call.triggerId) && call.id != call.triggerId
  {
    var initiator := ComposeInitiator(context, call);
    NoDecisionWhenCurrent(order, ledger, context, call.now);
    if !IdTaken(ledger.receipts, call.id) {
      ReportFits(order, ledger, initiator, call);
      var report := DeriveReport(order, ledger.receipts + [initiator], call).value;
      PairInserts(ledger, initiator, ComposeTrigger(context, initiator, report, call), report);
    }
  }

  /** The rows of a composition go in unless the trigger's id is taken. */
  lemma PairInserts(ledger: Ledger, initiator: Receipt, trigger: Receipt, report: Report)
    requires !IdTaken(ledger.receipts, initiator.id)
    requires initiator.sequence == ledger.next && trigger.sequence == ledger.next + 1
    requires forall row :: row in ledger.reports ==> row.report != report && row.report.initiatorId != report.initiatorId
    ensures InsertCompose(ledger, initiator, trigger, report, ledger.state, ledger.version).Some?
       <==> !IdTaken(ledger.receipts, trigger.id) && initiator.id != trigger.id
  {
    TakenInLonger(ledger.receipts, initiator, trigger.id);
  }

  lemma TakenInLonger(receipts: seq<Receipt>, receipt: Receipt, id: nat)
    ensures IdTaken(receipts + [receipt], id) <==> IdTaken(receipts, id) || receipt.id == id
  {
    var longer := receipts + [receipt];
    assert longer[|receipts|] == receipt;
    assert forall i :: 0 <= i < |receipts| ==> longer[i] == receipts[i];
  }

  /** The report over a history with a new initiator exists, and no row stands in its way. */
  lemma ReportFits(order: WorkOrder, ledger: Ledger, initiator: Receipt, call: ComposeArguments)
    requires Healthy(order, ledger) && Extends(order, ledger.receipts, initiator)
    requires !IdTaken(ledger.receipts, initiator.id)
    ensures var report := DeriveReport(order, ledger.receipts + [initiator], call);
      && report.Some? && report.value.ready == call.ready
      && forall row :: row in ledger.reports ==> row.report != report.value && row.report.initiatorId != report.value.initiatorId
  {
    LinkedAppend(order, ledger.receipts, initiator);
    FreshId(ledger.receipts, initiator);
    LinkedIsCanonical(ledger.receipts + [initiator]);
    ReportIsNew(order, ledger, initiator);
  }

  lemma LinkedIsCanonical(receipts: seq<Receipt>)
    requires Linked(receipts) && DistinctReceiptIds(receipts)
    ensures CanonicalPrefix(receipts)
  {
    forall i, j | 0 <= i < j < |receipts|
      ensures receipts[i].sequence <= receipts[j].sequence
    {
      assert LinkedAt(receipts, i) && LinkedAt(receipts, j);
    }
  }

  lemma ReportIsNew(order: WorkOrder, ledger: Ledger, initiator: Receipt)
    requires Healthy(order, ledger) && !IdTaken(ledger.receipts, initiator.id)
    ensures forall row :: row in ledger.reports ==> row.report.initiatorId != initiator.id
  {
    forall row | row in ledger.reports
      ensures row.report.initiatorId != initiator.id
    {
      var i :| 0 <= i < |ledger.reports| && ledger.reports[i] == row;
      var trigger := Triggers(ledger.receipts)[i];
      assert ReportsOf(ledger.reports)[i] == row.report;
      assert ReportAt(order, row.report, ledger.receipts, trigger);
      assert ledger.receipts[trigger - 1].id == row.report.initiatorId;
    }
  }

  /** Once decided, nothing any client holds changes the ledger again. */
  lemma DecisionIsFinal(order: WorkOrder, ledger: Ledger, step: Step)
    requires Healthy(order, ledger) && ledger.acceptances + ledger.rejections != []
    ensures Apply(order, ledger, step) == ledger
  {
    assert StateOf(ledger.receipts) == AwaitingHuman by {
      var decision := (ledger.acceptances + ledger.rejections)[0];
      assert decision in ledger.acceptances || decision in ledger.rejections;
    }
    assert ledger.state != AwaitingHuman;
  }

  /** No step changes a ledger that readers refuse. */
  ghost predicate Stuck(order: WorkOrder, ledger: Ledger) {
    forall step :: Apply(order, ledger, step) == ledger
  }

  lemma UnreadableIsStuck(order: WorkOrder, ledger: Ledger)
    requires !Replays(order, ledger)
    ensures Stuck(order, ledger)
  {
  }

  // ----- reports and decisions, offline -----------------------------------------------------------

  /** Every reachable history with a report, up to a denial, passes the offline composition check. */
  lemma ReachableBundleVerifies(order: WorkOrder, steps: seq<Step>)
    ensures var ledger := WithoutDenial(Run(order, EMPTY_LEDGER, steps));
      ledger.reports != [] ==>
        VerifyCompositionBundle(order, ledger.receipts, ReportsOf(ledger.reports)) == LastReport(ledger)
  {
    EmptyIsReached(order);
    RunKeepsReached(order, EMPTY_LEDGER, steps);
    if Run(order, EMPTY_LEDGER, steps).reports != [] {
      HealthyBundleVerifies(order, WithoutDenial(Run(order, EMPTY_LEDGER, steps)));
    }
  }

  lemma HealthyBundleVerifies(order: WorkOrder, ledger: Ledger)
    requires Healthy(order, ledger) && ledger.reports != []
    ensures VerifyCompositionBundle(order, ledger.receipts, ReportsOf(ledger.reports)) == LastReport(ledger)
  {
    VerifiesIffInOrder(order, ledger.receipts, ReportsOf(ledger.reports));
  }

  lemma RequestIsNotFirst(order: WorkOrder, ledger: Ledger)
    requires Healthy(order, ledger) && EndsInRequest(ledger.receipts)
    ensures |ledger.receipts| >= 2
  {
    assert ledger.receipts[0].event.Ordinary?;
  }

  lemma LastTriggerOwner(order: WorkOrder, receipts: seq<Receipt>, reports: seq<Report>)
    requires InOrder(order, receipts, reports) && reports != [] && |receipts| >= 2
    requires IsTrigger(receipts[|receipts| - 2]) && !IsTrigger(receipts[|receipts| - 1])
    ensures TriggersReport(receipts[|receipts| - 2], reports[|reports| - 1])
  {
    var last := |reports| - 1;
    LastTriggerPlace(receipts);
    assert ReportAt(order, reports[last], receipts, Triggers(receipts)[last]);
  }

  lemma LastTriggerPlace(receipts: seq<Receipt>)
    requires |receipts| >= 2 && IsTrigger(receipts[|receipts| - 2]) && !IsTrigger(receipts[|receipts| - 1])
    ensures var triggers := Triggers(receipts); triggers != [] && triggers[|triggers| - 1] == |receipts| - 2
  {
    TriggersExact(receipts);
    var n, triggers := |receipts|, Triggers(receipts);
    assert n - 2 in triggers;
    var i :| 0 <= i < |triggers| && triggers[i] == n - 2;
    assert triggers[|triggers| - 1] in triggers;
    assert triggers[i] <= triggers[|triggers| - 1];
  }

  /** A proof_composed event just before the request can only be that of the last report. */
  lemma LastTriggerIsLastReports(order: WorkOrder, ledger: Ledger)
    requires Healthy(order, ledger) && EndsInRequest(ledger.receipts) && LastReport(ledger).Some?
    ensures RequestFollowsComposition(ledger.receipts)
       <==> |ledger.receipts| >= 2 && TriggersReport(ledger.receipts[|ledger.receipts| - 2], LastReport(ledger).value)
  {
    if RequestFollowsComposition(ledger.receipts) {
      LastTriggerOwner(order, ledger.receipts, ReportsOf(ledger.reports));
    }
  }

  lemma LastReportBinds(order: WorkOrder, ledger: Ledger)
    requires Healthy(order, ledger) && LastReport(ledger).Some?
    ensures InitiatorBinds(LastReport(ledger).value, ledger.receipts)
    ensures LastReport(ledger).value.workOrder == order.digest
  {
    var reports := ReportsOf(ledger.reports);
    InOrderFlattens(order, ledger.receipts, reports, |reports| - 1);
  }

  /**
   The offline check of a committed decision agrees with the commit exactly when the request directly
   follows the composition it is about.
   */
  lemma OfflineIffDirect(order: WorkOrder, ledger: Ledger, accepting: bool, decision: Decision)
    requires Healthy(order, ledger)
    requires if accepting then decision in ledger.acceptances else decision in ledger.rejections
    ensures LastReport(ledger).Some?
    ensures ValidateDecision(accepting, order, LastReport(ledger).value, ledger.receipts, decision)
       <==> RequestFollowsComposition(ledger.receipts)
  {
    assert Answers(order, accepting, ledger, decision);
    LastTriggerIsLastReports(order, ledger);
    LastReportBinds(order, ledger);
    RequestIsNotFirst(order, ledger);
  }

  /** Whatever a run commits as a decision, the offline check accepts. */
  lemma CommitPassesOffline(
    order: WorkOrder, steps: seq<Step>, context: Context, accepting: bool, decision: Decision)
    requires DecideStep(order, Run(order, EMPTY_LEDGER, steps), context, accepting, decision).Some?
    ensures var before := Run(order, EMPTY_LEDGER, steps);
      var ledger := DecideStep(order, before, context, accepting, decision).value;
      && ledger.receipts == before.receipts
      && LastReport(ledger).Some?
      && ValidateDecision(accepting, order, LastReport(ledger).value, ledger.receipts, decision)
  {
    EmptyIsReached(order);
    RunKeepsReached(order, EMPTY_LEDGER, steps);
    ReachedCommitPassesOffline(order, Run(order, EMPTY_LEDGER, steps), context, accepting, decision);
  }

  lemma ReachedCommitPassesOffline(
    order: WorkOrder, before: Ledger, context: Context, accepting: bool, decision: Decision)
    requires Reached(order, before) && DecideStep(order, before, context, accepting, decision).Some?
    ensures var ledger := DecideStep(order, before, context, accepting, decision).value;
      && ledger.receipts == before.receipts
      && LastReport(ledger).Some?
      && ValidateDecision(accepting, order, LastReport(ledger).value, ledger.receipts, decision)
  {
    if EndsInDenial(before) {
      DeniedIsUnreadable(order, before);
    }
    DecideShape(order, before, context, accepting, decision);
    DecideKeeps(order, before, context, accepting, decision);
    OfflineIffDirect(order, DecideStep(order, before, context, accepting, decision).value, accepting, decision);
  }

  lemma {:induction false} MatchingFinds(rows: seq<ReportRow>, i: nat)
    requires i < |rows| && forall j :: 0 <= j < |rows| && j != i ==> rows[j].report != rows[i].report
    ensures Matching(rows, OfReport(rows[i].report)) == [rows[i].report]
  {
    if i == 0 {
      MatchingNothing(rows[1..], OfReport(rows[0].report));
    } else {
      MatchingFinds(rows[1..], i - 1);
    }
  }

  lemma {:induction false} MatchingNothing(rows: seq<ReportRow>, digest: Digest)
    requires forall j :: 0 <= j < |rows| ==> OfReport(rows[j].report) != digest
    ensures Matching(rows, digest) == []
  {
    if rows != [] {
      MatchingNothing(rows[1..], digest);
    }
  }

  lemma LastReportIsUnique(order: WorkOrder, ledger: Ledger)
    requires Healthy(order, ledger) && LastReport(ledger).Some?
    ensures Matching(ledger.reports, OfReport(LastReport(ledger).value)) == [LastReport(ledger).value]
  {
    HealthyBundleVerifies(order, ledger);
    OthersDiffer(order, ledger.receipts, ledger.reports);
    MatchingFinds(ledger.reports, |ledger.reports| - 1);
  }

  lemma OthersDiffer(order: WorkOrder, receipts: seq<Receipt>, rows: seq<ReportRow>)
    requires VerifyCompositionBundle(order, receipts, ReportsOf(rows)).Some?
    ensures forall j :: 0 <= j < |rows| - 1 ==> rows[j].report != rows[|rows| - 1].report
  {
    var reports := ReportsOf(rows);
    forall j | 0 <= j < |rows| - 1
      ensures rows[j].report != rows[|rows| - 1].report
    {
      PrefixesGrow(order, receipts, reports, j, |rows| - 1);
      assert reports[j] != reports[|rows| - 1];
    }
  }

  /** A healthy ledger can be read unless it holds a decision on an indirect request. */
  lemma ReplaysIff(order: WorkOrder, ledger: Ledger)
    requires Healthy(order, ledger)
    ensures Replays(order, ledger)
       <==> (ledger.acceptances + ledger.rejections == [] || RequestFollowsComposition(ledger.receipts))
  {
    if ledger.acceptances + ledger.rejections != [] {
      var decision := (ledger.acceptances + ledger.rejections)[0];
      var accepting := ledger.acceptances != [];
      assert if accepting then decision in ledger.acceptances else decision in ledger.rejections;
      assert Answers(order, accepting, ledger, decision);
      OfflineIffDirect(order, ledger, accepting, decision);
      LastReportIsUnique(order, ledger);
    }
  }

  // ----- which ledgers are readable -----------------------------------------------------------------

  lemma ReachedReplaysIff(order: WorkOrder, ledger: Ledger)
    requires Reached(order, ledger)
    ensures Replays(order, ledger) <==> !EndsInDenial(ledger)
  {
    if EndsInDenial(ledger) {
      DeniedIsUnreadable(order, ledger);
    } else {
      ReplaysIff(order, ledger);
      if ledger.acceptances + ledger.rejections != [] {
        DecidedAwaits(order, ledger);
      }
    }
  }

  lemma DecidedAwaits(order: WorkOrder, ledger: Ledger)
    requires Healthy(order, ledger) && ledger.acceptances + ledger.rejections != []
    ensures StateOf(ledger.receipts) == AwaitingHuman
  {
    var decision := (ledger.acceptances + ledger.rejections)[0];
    assert decision in ledger.acceptances || decision in ledger.rejections;
  }

  /** A ledger any run reaches can be read if and only if no denial was recorded on the way. */
  lemma ReadableIffNoDenial(order: WorkOrder, steps: seq<Step>)
    ensures Replays(order, Run(order, EMPTY_LEDGER, steps)) <==> !DenialTaken(order, EMPTY_LEDGER, steps)
  {
    EmptyIsReached(order);
    RunKeepsReached(order, EMPTY_LEDGER, steps);
    ReachedReplaysIff(order, Run(order, EMPTY_LEDGER, steps));
  }

  function ContextOf(ledger: Ledger, now: int): Context {
    Context(ledger.receipts, StateOf(ledger.receipts), now)
  }

  /**
   From any reachable ledger that can be read and holds no decision, a denial under an unused id is recorded,
   and after it nothing: the ledger is not read again and no step changes it.
   */
  lemma DenialSticks(order: WorkOrder, ledger: Ledger, denial: DenialArguments)
    requires Reached(order, ledger) && Replays(order, ledger) && ledger.acceptances + ledger.rejections == []
    requires !IdTaken(ledger.receipts, denial.id) && TimeOf(order, ledger.receipts) <= denial.now
    ensures var step := Deny(ContextOf(ledger, denial.now), denial);
      var after := Apply(order, ledger, step);
      && StepOutcome(order, ledger, step).Some?
      && after.receipts == ledger.receipts + [DenialReceipt(order, ContextOf(ledger, denial.now), denial)]
      && !Replays(order, after) && Stuck(order, after)
  {
    var step := Deny(ContextOf(ledger, denial.now), denial);
    StepKeepsReached(order, ledger, step);
    DeniedIsUnreadable(order, Apply(order, ledger, step));
    UnreadableIsStuck(order, Apply(order, ledger, step));
  }

  function FirstEvent(order: WorkOrder): Receipt {
    Receipt(0, Ordinary(0), 1, None, Issued, Running, [], [], order.issuedAt)
  }

  /** A ledger with a task under way and nothing decided, every time and id in it known. */
  ghost predicate Started(order: WorkOrder, ledger: Ledger) {
    && Reached(order, ledger) && Replays(order, ledger) && ledger.acceptances + ledger.rejections == []
    && ledger.receipts == [FirstEvent(order)]
  }

  lemma FirstEventStarts(order: WorkOrder, ledger: Ledger) returns (start: Step)
    requires Reached(order, ledger) && Replays(order, ledger)
    requires ledger.receipts == [] && ledger.acceptances + ledger.rejections == []
    ensures Started(order, Apply(order, ledger, start))
  {
    start := Record(ContextOf(ledger, order.issuedAt), FirstEvent(order));
    assert Apply(order, ledger, start).receipts == [] + [FirstEvent(order)];
    StepKeepsReached(order, ledger, start);
    ReachedReplaysIff(order, Apply(order, ledger, start));
  }

  lemma StartedSticks(order: WorkOrder, ledger: Ledger) returns (deny: Step)
    requires Started(order, ledger)
    ensures var after := Apply(order, ledger, deny); !Replays(order, after) && Stuck(order, after)
  {
    var denial := DenialArguments(order.issuedAt, 1, 0, []);
    DenialSticks(order, ledger, denial);
    deny := Deny(ContextOf(ledger, order.issuedAt), denial);
  }

  lemma TwoSteps(order: WorkOrder, ledger: Ledger, first: Step, second: Step)
    ensures Run(order, ledger, [first, second]) == Apply(order, Apply(order, ledger, first), second)
  {
    assert [first, second][1..] == [second] && [second][1..] == [];
    assert Run(order, Apply(order, ledger, first), [second]) == Apply(order, Apply(order, ledger, first), second);
  }

  /** A task starts and a call of it is denied: two steps and the ledger is stuck. */
  lemma StuckIsReached(order: WorkOrder) returns (steps: seq<Step>)
    ensures |steps| == 2
    ensures var after := Run(order, EMPTY_LEDGER, steps); !Replays(order, after) && Stuck(order, after)
  {
    EmptyIsReached(order);
    ReachedReplaysIff(order, EMPTY_LEDGER);
    var start := FirstEventStarts(order, EMPTY_LEDGER);
    var deny := StartedSticks(order, Apply(order, EMPTY_LEDGER, start));
    TwoSteps(order, EMPTY_LEDGER, start, deny);
    steps := [start, deny];
  }
}

/** The acceptance transactions as they change the tables in place, with rollback when a row or a counter refuses. */
module AcceptanceStore {
  import opened Collections
  import opened Receipts
  import opened CompositionBundle
  import opened AcceptanceBindings
  import opened AcceptanceRun

  class LedgerFile {
    const order: WorkOrder
    var receipts: seq<Receipt>
    var reports: seq<ReportRow>
    var acceptances: seq<Decision>
    var rejections: seq<Decision>
    var state: TaskState
    var version: nat
    var nextSequence: nat

    function Tables(): Ledger
      reads this
    {
      Ledger(receipts, reports, acceptances, rejections, state, version, nextSequence)
    }

    constructor (authoritative: WorkOrder)
      ensures Tables() == EMPTY_LEDGER && order == authoritative
    {
      order := authoritative;
      receipts, reports, acceptances, rejections := [], [], [], [];
      state, version, nextSequence := Issued, 0, 1;
    }

    method Restore(saved: Ledger)
      modifies this
      ensures Tables() == saved
    {
      receipts, reports, acceptances, rejections := saved.receipts, saved.reports, saved.acceptances, saved.rejections;
      state, version, nextSequence := saved.state, saved.version, saved.next;
    }

    method AddReceipt(receipt: Receipt) returns (ok: bool)
      modifies this`receipts, this`nextSequence
      ensures ok <==> InsertReceipt(old(Tables()), receipt).Some?
      ensures ok ==> Tables() == InsertReceipt(old(Tables()), receipt).value
    {
      if exists i :: 0 <= i < |receipts| && receipts[i].id == receipt.id {
        return false;
      }
      receipts := receipts + [receipt];
      if nextSequence != receipt.sequence {
        return false;
      }
      nextSequence := nextSequence + 1;
      return true;
    }

    method AdvanceState(before: TaskState, expected: nat, after: TaskState) returns (ok: bool)
      modifies this`state, this`version
      ensures ok <==> Advance(old(Tables()), before, expected, after).Some?
      ensures Tables() == if ok then Advance(old(Tables()), before, expected, after).value else old(Tables())
    {
      if state != before || version != expected {
        return false;
      }
      state, version := after, version + 1;
      return true;
    }

    method AddReport(report: Report, source: nat) returns (ok: bool)
      modifies this`reports
      ensures ok <==> InsertReport(old(Tables()), report, source).Some?
      ensures Tables() == if ok then InsertReport(old(Tables()), report, source).value else old(Tables())
    {
      if exists row | row in reports :: row.report == report || row.report.initiatorId == report.initiatorId {
        return false;
      }
      reports := reports + [ReportRow(report, source)];
      return true;
    }

    /** Both receipts, the report and the counters, or nothing. */
    method InsertComposeRows(initiator: Receipt, trigger: Receipt, report: Report, before: TaskState, source: nat)
      returns (ok: bool)
      modifies this
      ensures ok <==> InsertCompose(old(Tables()), initiator, trigger, report, before, source).Some?
      ensures Tables() == if ok then InsertCompose(old(Tables()), initiator, trigger, report, before, source).value
                          else old(Tables())
    {
      var saved := Tables();
      ok := AddReceipt(initiator);
      if ok {
        ok := AddReceipt(trigger);
      }
      if ok {
        ok := AddReport(report, source);
      }
      if ok {
        ok := AdvanceState(before, source, trigger.after);
      }
      if !ok {
        Restore(saved);
      }
    }

    method ComposeProof(context: Context, call: ComposeArguments) returns (ok: bool)
      modifies this
      ensures ok <==> StepOutcome(order, old(Tables()), Compose(context, call)).Some?
      ensures Tables() == Apply(order, old(Tables()), Compose(context, call))
    {
      if !Current(order, Tables(), context, call.now) {
        return false;
      }
      if PreviousReport(Tables(), context) != Some(call.previousReport) || DeriveVersion(context.receipts) != Some(call.version) {
        return false;
      }
      var initiator := ComposeInitiator(context, call);
      var report := DeriveReport(order, context.receipts + [initiator], call);
      if report.None? || (context.state == EvidenceIncomplete && !report.value.ready) {
        return false;
      }
      var trigger := ComposeTrigger(context, initiator, report.value, call);
      if version != call.version {
        return false;
      }
      ok := InsertComposeRows(initiator, trigger, report.value, context.state, version);
    }

    method RequestAcceptance(context: Context, ask: RequestArguments) returns (ok: bool)
      modifies this
      ensures ok <==> StepOutcome(order, old(Tables()), Request(context, ask)).Some?
      ensures Tables() == Apply(order, old(Tables()), Request(context, ask))
    {
      if !Current(order, Tables(), context, ask.now) || context.state != ProofReady {
        return false;
      }
      if !(0 <= ask.expiresAt - ask.now <= 3600) || ask.expiresAt > order.deadline {
        return false;
      }
      var report := LastReport(Tables());
      if report.None? || ask.scopeReport != OfReport(report.value) || DeriveVersion(receipts) != Some(version) {
        return false;
      }
      var receipt := RequestReceipt(order, context, report.value, ask);
      ok := InsertRequestRows(receipt, context.state, version);
    }

    /** The request's receipt and the counters, or nothing. */
    method InsertRequestRows(receipt: Receipt, before: TaskState, source: nat) returns (ok: bool)
      modifies this
      ensures ok <==> InsertRequest(old(Tables()), receipt, before, source).Some?
      ensures Tables() == if ok then InsertRequest(old(Tables()), receipt, before, source).value else old(Tables())
    {
      var saved := Tables();
      ok := AddReceipt(receipt);
      if ok {
        ok := AdvanceState(before, source, receipt.after);
      }
      if !ok {
        Restore(saved);
      }
    }

    /** The decision's one row and the state, or nothing. */
    method InsertDecisionRows(accepting: bool, decision: Decision, source: nat) returns (ok: bool)
      modifies this
      ensures ok <==> InsertDecision(old(Tables()), accepting, decision, source).Some?
      ensures Tables() == if ok then InsertDecision(old(Tables()), accepting, decision, source).value else old(Tables())
    {
      var saved := Tables();
      if accepting {
        acceptances := acceptances + [decision];
      } else {
        rejections := rejections + [decision];
      }
      ok := AdvanceState(AwaitingHuman, source, if accepting then Accepted else Rejected);
      if !ok {
        Restore(saved);
      }
    }

    /** The last final-acceptance request in the receipts, by one pass over them. */
    method CurrentRequest() returns (request: Option<Receipt>)
      ensures request == LastRequest(receipts)
    {
      request := None;
      for i := 0 to |receipts|
        invariant request == LastRequest(receipts[..i])
      {
        assert receipts[..i + 1][..i] == receipts[..i];
        if receipts[i].event.FinalRequest? {
          request := Some(receipts[i]);
        }
      }
      assert receipts[..|receipts|] == receipts;
    }

    method CommitDecision(context: Context, accepting: bool, decision: Decision) returns (ok: bool)
      modifies this
      ensures ok <==> StepOutcome(order, old(Tables()), Decide(context, accepting, decision)).Some?
      ensures Tables() == Apply(order, old(Tables()), Decide(context, accepting, decision))
    {
      if !Current(order, Tables(), context, context.time) || context.state != AwaitingHuman {
        return false;
      }
      var report := LastReport(Tables());
      var request := CurrentRequest();
      if report.None? || request.None? {
        return false;
      }
      if LastDigest(context.receipts) != Some(OfReceipt(request.value)) {
        return false;
      }
      var at := decision.payload.decidedAt;
      if !DecisionTimely(order, request.value, at, context.time) || !SignedByAcceptor(order, decision) {
        return false;
      }
      if decision.payload
         != ExpectedPayload(accepting, order, report.value, request.value, at, context.receipts, decision.payload.reason)
      {
        return false;
      }
      if acceptances != [] || (!accepting && rejections != []) {
        return false;
      }
      if state != AwaitingHuman || DeriveVersion(receipts) != Some(version) {
        return false;
      }
      ok := InsertDecisionRows(accepting, decision, version);
    }

    /** The audit entry of a denied call: a receipt row, the counters left alone. */
    method ProduceDenyReceipt(context: Context, denial: DenialArguments) returns (ok: bool)
      modifies this`receipts
      ensures ok <==> StepOutcome(order, old(Tables()), Deny(context, denial)).Some?
      ensures Tables() == Apply(order, old(Tables()), Deny(context, denial))
    {
      if !Current(order, Tables(), context, denial.now) {
        return false;
      }
      if exists i :: 0 <= i < |receipts| && receipts[i].id == denial.id {
        return false;
      }
      receipts := receipts + [DenialReceipt(order, context, denial)];
      return true;
    }
  }
}

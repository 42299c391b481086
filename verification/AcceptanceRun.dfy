/**
 The acceptance run over one ledger: compose, request, then accept or reject, through counters that are
 compared before they are set (src/openworkproof/acceptance.py:640-941, 1607-1850, 2041-2180, 3179-3208).
 */
module AcceptanceRun {
  import opened Collections
  import opened Receipts
  import opened CompositionBundle
  import opened AcceptanceBindings

  datatype ReportRow = ReportRow(report: Report, sourceVersion: nat)

  datatype Ledger = Ledger(
    receipts: seq<Receipt>,
    reports: seq<ReportRow>,
    acceptances: seq<Decision>,
    rejections: seq<Decision>,
    state: TaskState,
    version: nat,
    next: nat)

  /** The snapshot a client works from. It may be stale. */
  datatype Context = Context(receipts: seq<Receipt>, state: TaskState, time: int)

  datatype Step =
    | Compose(context: Context, call: ComposeArguments)
    | Request(context: Context, ask: RequestArguments)
    | Decide(context: Context, accepting: bool, decision: Decision)
    | Record(context: Context, receipt: Receipt)
    | Deny(context: Context, denial: DenialArguments)

  datatype ComposeArguments = ComposeArguments(
    now: int, version: nat, previousReport: Option<Digest>, id: nat, parents: seq<nat>,
    triggerId: nat, ready: bool, findings: nat)

  datatype RequestArguments = RequestArguments(
    now: int, scopeReport: Digest, expiresAt: int, id: nat, parents: seq<nat>)

  datatype DenialArguments = DenialArguments(now: int, id: nat, kind: nat, parents: seq<nat>)

  const EMPTY_LEDGER := Ledger([], [], [], [], Issued, 0, 1)

  // ----- reading a ledger back ---------------------------------------------------------------

  function StateOf(receipts: seq<Receipt>): TaskState {
    if receipts == [] then Issued else receipts[|receipts| - 1].after
  }

  function TimeOf(order: WorkOrder, receipts: seq<Receipt>): int {
    if receipts == [] then order.issuedAt else receipts[|receipts| - 1].occurredAt
  }

  function LastDigest(receipts: seq<Receipt>): Option<Digest> {
    if receipts == [] then None else Some(OfReceipt(receipts[|receipts| - 1]))
  }

  predicate LinkedAt(receipts: seq<Receipt>, i: nat)
    requires i < |receipts|
  {
    && receipts[i].sequence == i + 1
    && receipts[i].previous == LastDigest(receipts[..i])
    && receipts[i].before == StateOf(receipts[..i])
    && (i > 0 ==> receipts[i - 1].occurredAt <= receipts[i].occurredAt)
  }

  predicate Linked(receipts: seq<Receipt>) {
    && (forall i {:trigger LinkedAt(receipts, i)} :: 0 <= i < |receipts| ==> LinkedAt(receipts, i))
    && (receipts != [] ==> receipts[0].event.Ordinary? && receipts[0].after == Running)
  }

  function ReportsOf(rows: seq<ReportRow>): seq<Report> {
    seq(|rows|, i requires 0 <= i < |rows| => rows[i].report)
  }

  function Matching(rows: seq<ReportRow>, digest: Digest): seq<Report> {
    if rows == [] then []
    else (if OfReport(rows[0].report) == digest then [rows[0].report] else []) + Matching(rows[1..], digest)
  }

  /** The decision, if there is one, is bound to the history before it. */
  predicate SuffixValid(order: WorkOrder, ledger: Ledger) {
    && |ledger.acceptances| + |ledger.rejections| <= 1
    && (ledger.acceptances + ledger.rejections != [] ==>
          && StateOf(ledger.receipts) == AwaitingHuman
          && var decision := (ledger.acceptances + ledger.rejections)[0];
          && var matching := Matching(ledger.reports, decision.payload.report);
          && |matching| == 1
          && ValidateDecision(ledger.acceptances != [], order, matching[0], ledger.receipts, decision))
  }

  function ExpectedState(ledger: Ledger): TaskState {
    if ledger.acceptances != [] then Accepted
    else if ledger.rejections != [] then Rejected
    else StateOf(ledger.receipts)
  }

  /** What every reader of the ledger checks before it believes a row. */
  predicate Replays(order: WorkOrder, ledger: Ledger) {
    && Linked(ledger.receipts)
    && DistinctReceiptIds(ledger.receipts)
    && ledger.next == |ledger.receipts| + 1
    && DeriveVersion(ledger.receipts).Some?
    && ledger.version == DeriveVersion(ledger.receipts).value + |ledger.acceptances| + |ledger.rejections|
    && SuffixValid(order, ledger)
    && ledger.state == ExpectedState(ledger)
  }

  /** The context is this very ledger, now. */
  predicate Current(order: WorkOrder, ledger: Ledger, context: Context, now: int) {
    && Replays(order, ledger)
    && context.time == now
    && context.receipts == ledger.receipts
    && context.state == StateOf(context.receipts)
    && ledger.state == context.state
    && TimeOf(order, ledger.receipts) <= now
  }

  // ----- inserting rows, counters compared first ------------------------------------------------

  predicate IdTaken(receipts: seq<Receipt>, id: nat) {
    exists i :: 0 <= i < |receipts| && receipts[i].id == id
  }

  function InsertReceipt(ledger: Ledger, receipt: Receipt): Option<Ledger> {
    if IdTaken(ledger.receipts, receipt.id) || ledger.next != receipt.sequence then None
    else Some(ledger.(receipts := ledger.receipts + [receipt], next := ledger.next + 1))
  }

  function Advance(ledger: Ledger, before: TaskState, version: nat, after: TaskState): Option<Ledger> {
    if ledger.state != before || ledger.version != version then None
    else Some(ledger.(state := after, version := version + 1))
  }

  function InsertReport(ledger: Ledger, report: Report, version: nat): Option<Ledger> {
    if exists row | row in ledger.reports :: row.report == report || row.report.initiatorId == report.initiatorId then None
    else Some(ledger.(reports := ledger.reports + [ReportRow(report, version)]))
  }

  // ----- the steps ---------------------------------------------------------------------------------

  function LastReport(ledger: Ledger): Option<Report> {
    if ledger.reports == [] then None else Some(ledger.reports[|ledger.reports| - 1].report)
  }

  function LastTrigger(receipts: seq<Receipt>): Option<Receipt> {
    if receipts == [] then None
    else if IsTrigger(receipts[|receipts| - 1]) then Some(receipts[|receipts| - 1])
    else LastTrigger(receipts[..|receipts| - 1])
  }

  function LastRequest(receipts: seq<Receipt>): (request: Option<Receipt>)
    ensures request.Some? ==> request.value in receipts && request.value.event.FinalRequest?
  {
    if receipts == [] then None
    else if receipts[|receipts| - 1].event.FinalRequest? then Some(receipts[|receipts| - 1])
    else LastRequest(receipts[..|receipts| - 1])
  }

  /** The report a recomposition has to name: none the first time, the current one afterwards. */
  function PreviousReport(ledger: Ledger, context: Context): Option<Option<Digest>> {
    if context.state == LocallyVerified then Some(None)
    else if context.state == EvidenceIncomplete && LastReport(ledger).Some? then
      var report := LastReport(ledger).value;
      var trigger := LastTrigger(context.receipts);
      if trigger.Some? && TriggersReport(trigger.value, report) then Some(Some(OfReport(report))) else None
    else None
  }

  function ComposeInitiator(context: Context, call: ComposeArguments): Receipt {
    Receipt(
      call.id, ComposeCall(call.version, call.previousReport), |context.receipts| + 1, LastDigest(context.receipts),
      context.state, context.state, call.parents, [], context.time)
  }

  function DeriveReport(order: WorkOrder, prefix: seq<Receipt>, call: ComposeArguments): Option<Report>
    requires prefix != []
  {
    var initiator := prefix[|prefix| - 1];
    if GraphRoot(prefix).None? then None
    else
      Some(Report(
        order.digest, initiator.id, OfReceipt(initiator), Digests(prefix), GraphRoot(prefix).value,
        EvidenceDigest(prefix), call.ready, call.findings))
  }

  function ComposeTrigger(context: Context, initiator: Receipt, report: Report, call: ComposeArguments): Receipt {
    Receipt(
      call.triggerId, ProofComposed(OfReceipt(initiator), OfReport(report), call.version),
      |context.receipts| + 2, Some(OfReceipt(initiator)), initiator.after,
      if report.ready then ProofReady else EvidenceIncomplete, [initiator.id], [], context.time)
  }

  function InsertCompose(
    ledger: Ledger, initiator: Receipt, trigger: Receipt, report: Report, state: TaskState, version: nat): Option<Ledger>
  {
    var first := InsertReceipt(ledger, initiator);
    if first.None? then None
    else
      var second := InsertReceipt(first.value, trigger);
      if second.None? then None
      else
        var third := InsertReport(second.value, report, version);
        if third.None? then None else Advance(third.value, state, version, trigger.after)
  }

  function ComposeStep(order: WorkOrder, ledger: Ledger, context: Context, call: ComposeArguments): Option<Ledger> {
    if !Current(order, ledger, context, call.now) then None
    else if PreviousReport(ledger, context) != Some(call.previousReport)
         || DeriveVersion(context.receipts) != Some(call.version) then None
    else
      var initiator := ComposeInitiator(context, call);
      var derived := DeriveReport(order, context.receipts + [initiator], call);
      if derived.None? || (context.state == EvidenceIncomplete && !derived.value.ready) then None
      else
        var trigger := ComposeTrigger(context, initiator, derived.value, call);
        if ledger.version != call.version then None
        else InsertCompose(ledger, initiator, trigger, derived.value, context.state, ledger.version)
  }

  function RequestReceipt(order: WorkOrder, context: Context, report: Report, ask: RequestArguments): Receipt {
    Receipt(
      ask.id,
      FinalRequest(order.digest, OfReport(report), OfFinalAction(order.digest, OfReport(report)), ask.expiresAt),
      |context.receipts| + 1, LastDigest(context.receipts), context.state, AwaitingHuman, ask.parents, [], context.time)
  }

  function InsertRequest(ledger: Ledger, receipt: Receipt, state: TaskState, version: nat): Option<Ledger> {
    var inserted := InsertReceipt(ledger, receipt);
    if inserted.None? then None else Advance(inserted.value, state, version, receipt.after)
  }

  function RequestStep(order: WorkOrder, ledger: Ledger, context: Context, ask: RequestArguments): Option<Ledger> {
    if !Current(order, ledger, context, ask.now) || context.state != ProofReady then None
    else if !(0 <= ask.expiresAt - ask.now <= 3600) || ask.expiresAt > order.deadline then None
    else if LastReport(ledger).None? || ask.scopeReport != OfReport(LastReport(ledger).value) then None
    else if DeriveVersion(ledger.receipts) != Some(ledger.version) then None
    else
      InsertRequest(ledger, RequestReceipt(order, context, LastReport(ledger).value, ask), context.state, ledger.version)
  }

  predicate DecisionTimely(order: WorkOrder, request: Receipt, decidedAt: int, now: int)
    requires request.event.FinalRequest?
  {
    && request.event.expiresAt >= now
    && request.occurredAt <= decidedAt <= now
    && now - decidedAt <= 300
    && decidedAt <= request.event.expiresAt
    && decidedAt <= order.deadline
  }

  /** The one row and the one counter a decision writes. */
  function InsertDecision(ledger: Ledger, accepting: bool, decision: Decision, version: nat): Option<Ledger> {
    var written := if accepting then ledger.(acceptances := ledger.acceptances + [decision])
                   else ledger.(rejections := ledger.rejections + [decision]);
    Advance(written, AwaitingHuman, version, if accepting then Accepted else Rejected)
  }

  /**
   commit_acceptance and reject_acceptance_transaction. Only the rejection looks at both tables; the
   acceptance relies on the state.
   */
  function DecideStep(order: WorkOrder, ledger: Ledger, context: Context, accepting: bool, decision: Decision): Option<Ledger> {
    if !Current(order, ledger, context, context.time) || context.state != AwaitingHuman then None
    else if LastReport(ledger).None? || LastRequest(ledger.receipts).None? then None
    else
      var report, request := LastReport(ledger).value, LastRequest(ledger.receipts).value;
      if LastDigest(context.receipts) != Some(OfReceipt(request)) then None
      else if !DecisionTimely(order, request, decision.payload.decidedAt, context.time) then None
      else if !SignedByAcceptor(order, decision) then None
      else if decision.payload
           != ExpectedPayload(accepting, order, report, request, decision.payload.decidedAt, context.receipts, decision.payload.reason)
      then None
      else if ledger.acceptances != [] || (!accepting && ledger.rejections != []) then None
      else if ledger.state != AwaitingHuman || DeriveVersion(ledger.receipts) != Some(ledger.version) then None
      else InsertDecision(ledger, accepting, decision, ledger.version)
  }

  predicate MayFollow(before: TaskState, after: TaskState) {
    match before
    case Issued => after in {Running, Frozen, Rejected}
    case Running => after in {NeedsRework, LocallyVerified, Frozen, Rejected}
    case NeedsRework => after in {Retrying, Frozen, Rejected}
    case Retrying => after in {NeedsRework, LocallyVerified, Frozen, Rejected}
    case LocallyVerified => after in {EvidenceIncomplete, ProofReady, Frozen, Rejected}
    case EvidenceIncomplete => after in {ProofReady, Frozen, Rejected}
    case ProofReady => after in {AwaitingHuman, Frozen, Rejected}
    case AwaitingHuman => after in {Accepted, Frozen, Rejected}
    case Accepted => false
    case Rejected => false
    case Frozen => after == Rejected
  }

  /** Where a successful event may leave the state as it is: not at the human gate, nor before or after it all. */
  predicate MayRepeat(state: TaskState) {
    state in {Running, NeedsRework, Retrying, EvidenceIncomplete}
  }

  /** Any other signed event: it keeps the state or moves it, but never to one that has its own transaction. */
  function RecordStep(order: WorkOrder, ledger: Ledger, context: Context, receipt: Receipt): Option<Ledger> {
    if !Current(order, ledger, context, context.time) || !receipt.event.Ordinary? then None
    else if receipt.previous != LastDigest(context.receipts) || receipt.before != context.state
         || receipt.occurredAt != context.time then None
    else if receipt.after == receipt.before && !MayRepeat(receipt.before) then None
    else if receipt.after != receipt.before
         && (|| !MayFollow(receipt.before, receipt.after)
             || receipt.after in {EvidenceIncomplete, ProofReady, AwaitingHuman, Accepted}) then None
    else if context.receipts == [] && receipt.after != Running then None
    else
      var inserted := InsertReceipt(ledger, receipt);
      if inserted.None? then None else Advance(inserted.value, context.state, ledger.version, receipt.after)
  }

  /** The audit entry of a denied call names the last receipt by its id, or the work order. */
  function DenialReceipt(order: WorkOrder, context: Context, denial: DenialArguments): Receipt {
    var n := |context.receipts|;
    Receipt(
      denial.id, Denial(denial.kind), n + 1,
      Some(PlainText(if n == 0 then order.digest else context.receipts[n - 1].id)),
      context.state, context.state, denial.parents, [], denial.now)
  }

  /** produce_deny_receipt: one row in the receipts table, and neither counter. */
  function DenyStep(order: WorkOrder, ledger: Ledger, context: Context, denial: DenialArguments): Option<Ledger> {
    if !Current(order, ledger, context, denial.now) || IdTaken(ledger.receipts, denial.id) then None
    else Some(ledger.(receipts := ledger.receipts + [DenialReceipt(order, context, denial)]))
  }

  function StepOutcome(order: WorkOrder, ledger: Ledger, step: Step): Option<Ledger> {
    match step
    case Compose(context, call) => ComposeStep(order, ledger, context, call)
    case Request(context, ask) => RequestStep(order, ledger, context, ask)
    case Decide(context, accepting, decision) => DecideStep(order, ledger, context, accepting, decision)
    case Record(context, receipt) => RecordStep(order, ledger, context, receipt)
    case Deny(context, denial) => DenyStep(order, ledger, context, denial)
  }

  /** A refused step leaves the ledger as it was. */
  function Apply(order: WorkOrder, ledger: Ledger, step: Step): Ledger {
    match StepOutcome(order, ledger, step)
    case None => ledger
    case Some(after) => after
  }

  function Run(order: WorkOrder, ledger: Ledger, steps: seq<Step>): Ledger
    decreases |steps|
  {
    if steps == [] then ledger else Run(order, Apply(order, ledger, steps[0]), steps[1..])
  }
}

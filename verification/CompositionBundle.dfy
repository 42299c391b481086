/**
 The offline check that several composition reports belong, in order, to the proof_composed events of one
 receipt history (src/openworkproof/acceptance.py:2803-2950).
 */
module CompositionBundle {
  import opened Collections
  import opened Receipts

  predicate IsTrigger(receipt: Receipt) {
    receipt.event.ProofComposed?
  }

  function Triggers(receipts: seq<Receipt>): seq<nat> {
    Positions(receipts, IsTrigger)
  }

  predicate IsInitiator(report: Report, receipt: Receipt) {
    receipt.id == report.initiatorId && OfReceipt(receipt) == report.initiator
  }

  function InitiatorTest(report: Report): Receipt -> bool {
    receipt => IsInitiator(report, receipt)
  }

  function InitiatorIndexes(receipts: seq<Receipt>, report: Report): seq<nat> {
    Positions(receipts, InitiatorTest(report))
  }

  predicate TriggersReport(receipt: Receipt, report: Report) {
    receipt.event.ProofComposed? && receipt.event.report == OfReport(report)
  }

  /** The report covers exactly the receipts up to its initiator. */
  predicate CoversPrefix(report: Report, prefix: seq<Receipt>) {
    && report.receipts == Digests(prefix)
    && GraphRoot(prefix) == Some(report.graph)
    && report.evidence == EvidenceDigest(prefix)
  }

  predicate BoundAt(order: WorkOrder, report: Report, receipts: seq<Receipt>, initiator: nat)
    requires initiator < |receipts|
  {
    && initiator + 1 < |receipts|
    && report.workOrder == order.digest
    && TriggersReport(receipts[initiator + 1], report)
    && CoversPrefix(report, receipts[..initiator + 1])
  }

  predicate ValidateReportBinding(order: WorkOrder, report: Report, receipts: seq<Receipt>) {
    var indexes := InitiatorIndexes(receipts, report);
    PositionsExact(receipts, InitiatorTest(report));
    |indexes| == 1 && (assert indexes[0] in indexes; BoundAt(order, report, receipts, indexes[0]))
  }

  /** The first of the receipts each report names as its initiator, where there is one. */
  function InitiatorOf(receipts: seq<Receipt>, report: Report): nat {
    var indexes := InitiatorIndexes(receipts, report);
    if |indexes| == 1 then indexes[0] else 0
  }

  function VerifyCompositionBundle(order: WorkOrder, receipts: seq<Receipt>, reports: seq<Report>): Option<Report> {
    if reports == [] || |Triggers(receipts)| != |reports| then None
    else if exists report | report in reports :: |InitiatorIndexes(receipts, report)| != 1 then None
    else
      var flattened := seq(|reports|, i requires 0 <= i < |reports| => InitiatorOf(receipts, reports[i]));
      if exists i :: 0 <= i < |flattened| - 1 && flattened[i] >= flattened[i + 1] then None
      else if exists index | index in flattened :: index + 1 >= |receipts| then None
      else
        var bound := set index | index in flattened :: receipts[index + 1].id;
        var wanted := set receipt | receipt in receipts && IsTrigger(receipt) :: receipt.id;
        if bound != wanted then None
        else if exists report | report in reports :: !ValidateReportBinding(order, report, receipts) then None
        else Some(reports[|reports| - 1])
  }

  // ----- what it means -------------------------------------------------------------------

  /** The report's initiator is this trigger's immediate predecessor and stands nowhere else. */
  ghost predicate ReportAt(order: WorkOrder, report: Report, receipts: seq<Receipt>, trigger: nat) {
    && 0 < trigger < |receipts|
    && IsInitiator(report, receipts[trigger - 1])
    && (forall p :: 0 <= p < |receipts| && IsInitiator(report, receipts[p]) ==> p == trigger - 1)
    && BoundAt(order, report, receipts, trigger - 1)
  }

  /** The i-th report belongs to the i-th proof_composed event, and there are no others. */
  ghost predicate InOrder(order: WorkOrder, receipts: seq<Receipt>, reports: seq<Report>) {
    && |Triggers(receipts)| == |reports|
    && forall i :: 0 <= i < |reports| ==> ReportAt(order, reports[i], receipts, Triggers(receipts)[i])
  }

  lemma OneInitiator(receipts: seq<Receipt>, report: Report, at: nat)
    requires at < |receipts| && IsInitiator(report, receipts[at])
    requires forall p :: 0 <= p < |receipts| && IsInitiator(report, receipts[p]) ==> p == at
    ensures InitiatorIndexes(receipts, report) == [at]
  {
    var indexes := InitiatorIndexes(receipts, report);
    PositionsExact(receipts, InitiatorTest(report));
    assert at in indexes;
    OnlyElement(indexes, at);
  }

  lemma InitiatorOfReport(order: WorkOrder, receipts: seq<Receipt>, report: Report)
    requires ValidateReportBinding(order, report, receipts)
    ensures ReportAt(order, report, receipts, InitiatorOf(receipts, report) + 1)
  {
    var indexes := InitiatorIndexes(receipts, report);
    PositionsExact(receipts, InitiatorTest(report));
    assert indexes[0] in indexes;
  }

  lemma TriggersExact(receipts: seq<Receipt>)
    ensures Increasing(Triggers(receipts))
    ensures forall p: nat :: p in Triggers(receipts) <==> p < |receipts| && IsTrigger(receipts[p])
  {
    PositionsExact(receipts, IsTrigger);
  }

  lemma {:induction false} AdjacentIncreasing(s: seq<nat>)
    requires forall i :: 0 <= i < |s| - 1 ==> s[i] < s[i + 1]
    ensures Increasing(s)
  {
    if |s| > 1 {
      var n := |s| - 1;
      AdjacentIncreasing(s[..n]);
      assert s[n - 1] == s[..n][n - 1] && s[n - 1] < s[n - 1 + 1];
      forall i, j | 0 <= i < j < |s|
        ensures s[i] < s[j]
      {
        assert i < n && s[i] == s[..n][i];
        if j < n {
          assert s[j] == s[..n][j];
        }
      }
    }
  }

  lemma BoundIsTrigger(order: WorkOrder, receipts: seq<Receipt>, report: Report)
    requires ValidateReportBinding(order, report, receipts)
    ensures InitiatorOf(receipts, report) + 1 in Triggers(receipts)
  {
    InitiatorOfReport(order, receipts, report);
    TriggersExact(receipts);
  }

  /** Counting forces the bound triggers to be all the triggers, in order. */
  lemma BoundTriggersAreAll(order: WorkOrder, receipts: seq<Receipt>, reports: seq<Report>, flattened: seq<nat>)
    requires |Triggers(receipts)| == |reports| == |flattened|
    requires forall i :: 0 <= i < |reports| ==> flattened[i] == InitiatorOf(receipts, reports[i])
    requires forall i :: 0 <= i < |flattened| - 1 ==> flattened[i] < flattened[i + 1]
    requires forall i :: 0 <= i < |reports| ==> ValidateReportBinding(order, reports[i], receipts)
    ensures InOrder(order, receipts, reports)
  {
    forall i | 0 <= i < |reports|
      ensures flattened[i] + 1 in Triggers(receipts)
    {
      BoundIsTrigger(order, receipts, reports[i]);
    }
    NextPlaces(receipts, flattened);
    forall i | 0 <= i < |reports|
      ensures ReportAt(order, reports[i], receipts, Triggers(receipts)[i])
    {
      InitiatorOfReport(order, receipts, reports[i]);
    }
  }

  /** As many increasing places, each just before a trigger, are those before the triggers, in order. */
  lemma NextPlaces(receipts: seq<Receipt>, flattened: seq<nat>)
    requires |Triggers(receipts)| == |flattened|
    requires forall i :: 0 <= i < |flattened| - 1 ==> flattened[i] < flattened[i + 1]
    requires forall i :: 0 <= i < |flattened| ==> flattened[i] + 1 in Triggers(receipts)
    ensures forall i :: 0 <= i < |flattened| ==> Triggers(receipts)[i] == flattened[i] + 1
  {
    var bound := seq(|flattened|, i requires 0 <= i < |flattened| => flattened[i] + 1);
    AdjacentIncreasing(flattened);
    TriggersExact(receipts);
    SameIncreasing(bound, Triggers(receipts));
    assert forall i :: 0 <= i < |flattened| ==> bound[i] == flattened[i] + 1;
  }

  lemma InOrderFlattens(order: WorkOrder, receipts: seq<Receipt>, reports: seq<Report>, i: nat)
    requires InOrder(order, receipts, reports) && i < |reports|
    ensures InitiatorIndexes(receipts, reports[i]) == [Triggers(receipts)[i] - 1]
    ensures InitiatorOf(receipts, reports[i]) == Triggers(receipts)[i] - 1
    ensures ValidateReportBinding(order, reports[i], receipts)
  {
    assert ReportAt(order, reports[i], receipts, Triggers(receipts)[i]);
    OneInitiator(receipts, reports[i], Triggers(receipts)[i] - 1);
  }

  lemma BoundIndexIsTrigger(receipts: seq<Receipt>, flattened: seq<nat>, index: nat)
    requires |flattened| == |Triggers(receipts)|
    requires forall i :: 0 <= i < |flattened| ==> flattened[i] + 1 == Triggers(receipts)[i]
    requires index in flattened && index + 1 < |receipts|
    ensures receipts[index + 1] in receipts && IsTrigger(receipts[index + 1])
  {
    TriggersExact(receipts);
    var i :| 0 <= i < |flattened| && flattened[i] == index;
    assert Triggers(receipts)[i] in Triggers(receipts);
  }

  lemma TriggerIsBound(receipts: seq<Receipt>, flattened: seq<nat>, receipt: Receipt) returns (index: nat)
    requires |flattened| == |Triggers(receipts)|
    requires forall i :: 0 <= i < |flattened| ==> flattened[i] + 1 == Triggers(receipts)[i]
    requires receipt in receipts && IsTrigger(receipt)
    ensures index in flattened && index + 1 < |receipts| && receipts[index + 1] == receipt
  {
    TriggersExact(receipts);
    var p: nat :| p < |receipts| && receipts[p] == receipt;
    assert p in Triggers(receipts);
    var i :| 0 <= i < |flattened| && Triggers(receipts)[i] == p;
    index := flattened[i];
  }

  /** The comparison of trigger ids never refuses what the rest accepts. */
  lemma BoundIdsAgree(order: WorkOrder, receipts: seq<Receipt>, reports: seq<Report>, flattened: seq<nat>)
    requires InOrder(order, receipts, reports) && |flattened| == |reports|
    requires forall i :: 0 <= i < |reports| ==> flattened[i] + 1 == Triggers(receipts)[i]
    requires forall index :: index in flattened ==> index + 1 < |receipts|
    ensures (set index | index in flattened :: receipts[index + 1].id)
         == (set receipt | receipt in receipts && IsTrigger(receipt) :: receipt.id)
  {
    var bound := set index | index in flattened :: receipts[index + 1].id;
    var wanted := set receipt | receipt in receipts && IsTrigger(receipt) :: receipt.id;
    forall id | id in bound
      ensures id in wanted
    {
      var index :| index in flattened && receipts[index + 1].id == id;
      BoundIndexIsTrigger(receipts, flattened, index);
    }
    forall id | id in wanted
      ensures id in bound
    {
      var receipt :| receipt in receipts && IsTrigger(receipt) && receipt.id == id;
      var index := TriggerIsBound(receipts, flattened, receipt);
    }
  }

  /** A bundle is accepted exactly when its reports map in order onto the proof_composed events. */
  lemma VerifiesIffInOrder(order: WorkOrder, receipts: seq<Receipt>, reports: seq<Report>)
    ensures VerifyCompositionBundle(order, receipts, reports).Some? <==> reports != [] && InOrder(order, receipts, reports)
    ensures VerifyCompositionBundle(order, receipts, reports).Some? ==>
      VerifyCompositionBundle(order, receipts, reports) == Some(reports[|reports| - 1])
  {
    var flattened := seq(|reports|, i requires 0 <= i < |reports| => InitiatorOf(receipts, reports[i]));
    if VerifyCompositionBundle(order, receipts, reports).Some? {
      assert forall i :: 0 <= i < |reports| ==> reports[i] in reports;
      BoundTriggersAreAll(order, receipts, reports, flattened);
    }
    if reports != [] && InOrder(order, receipts, reports) {
      InOrderVerifies(order, receipts, reports, flattened);
    }
  }

  lemma InOrderVerifies(order: WorkOrder, receipts: seq<Receipt>, reports: seq<Report>, flattened: seq<nat>)
    requires reports != [] && InOrder(order, receipts, reports)
    requires flattened == seq(|reports|, i requires 0 <= i < |reports| => InitiatorOf(receipts, reports[i]))
    ensures VerifyCompositionBundle(order, receipts, reports).Some?
  {
    TriggersExact(receipts);
    forall i | 0 <= i < |reports|
      ensures flattened[i] == Triggers(receipts)[i] - 1 && flattened[i] + 1 < |receipts|
      ensures |InitiatorIndexes(receipts, reports[i])| == 1 && ValidateReportBinding(order, reports[i], receipts)
    {
      InOrderFlattens(order, receipts, reports, i);
      assert ReportAt(order, reports[i], receipts, Triggers(receipts)[i]);
    }
    BoundIdsAgree(order, receipts, reports, flattened);
  }

  /** Each report's receipt list is a strict prefix of every later one's. */
  lemma PrefixesGrow(order: WorkOrder, receipts: seq<Receipt>, reports: seq<Report>, i: nat, j: nat)
    requires VerifyCompositionBundle(order, receipts, reports).Some? && i < j < |reports|
    ensures reports[i].receipts < reports[j].receipts
    ensures reports[i] != reports[j]
  {
    VerifiesIffInOrder(order, receipts, reports);
    TriggersExact(receipts);
    var a, b := Triggers(receipts)[i], Triggers(receipts)[j];
    assert ReportAt(order, reports[i], receipts, a) && ReportAt(order, reports[j], receipts, b);
    assert a < b;
    DigestsPrefix(receipts[..a], receipts[..b]);
  }

  /** One history admits one list of reports: none can be skipped, repeated, swapped or replaced. */
  lemma OneBundlePerHistory(order: WorkOrder, receipts: seq<Receipt>, reports: seq<Report>, others: seq<Report>)
    requires VerifyCompositionBundle(order, receipts, reports).Some?
    requires VerifyCompositionBundle(order, receipts, others).Some?
    ensures reports == others
  {
    VerifiesIffInOrder(order, receipts, reports);
    VerifiesIffInOrder(order, receipts, others);
    forall i | 0 <= i < |reports|
      ensures reports[i] == others[i]
    {
      var trigger := Triggers(receipts)[i];
      assert ReportAt(order, reports[i], receipts, trigger) && ReportAt(order, others[i], receipts, trigger);
      assert OfReport(reports[i]) == OfReport(others[i]);
    }
  }
}

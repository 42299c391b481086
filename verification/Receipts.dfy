/**
 Action receipts and what is hashed from them (src/openworkproof/acceptance.py:94-163). A digest is a
 symbolic term: equal digests mean equal content, and nothing else is known of them. Plain text is an id, or the
 digest of the work order, written where a digest belongs.
 */
module Receipts {
  import opened Collections

  datatype TaskState =
    | Issued | Running | NeedsRework | Retrying | LocallyVerified | EvidenceIncomplete
    | ProofReady | AwaitingHuman | Accepted | Rejected | Frozen

  datatype Digest =
    | PlainText(value: nat)
    | OfReceipt(receipt: Receipt)
    | OfReport(composed: Report)
    | OfEvidence(references: map<nat, nat>)
    | OfGraph(nodes: seq<Node>)
    | OfFinalAction(workOrder: nat, scopedReport: Digest)
    | OfDecision(accepting: bool, workOrder: nat, requestId: nat, request: Digest, report: Digest, evidence: Digest)

  datatype Node = Node(id: nat, digest: Digest, parents: seq<nat>)

  datatype EvidenceRef = EvidenceRef(path: nat, content: nat)

  datatype Event =
    | ComposeCall(version: nat, previousReport: Option<Digest>)
    | ProofComposed(initiator: Digest, report: Digest, versionBefore: nat)
    | FinalRequest(scopeWorkOrder: nat, scopeReport: Digest, target: Digest, expiresAt: int)
    | Ordinary(kind: nat)
    | Denial(kind: nat)

  datatype Receipt = Receipt(
    id: nat,
    event: Event,
    sequence: nat,
    previous: Option<Digest>,
    before: TaskState,
    after: TaskState,
    parents: seq<nat>,
    references: seq<EvidenceRef>,
    occurredAt: int)

  datatype Report = Report(
    workOrder: nat,
    initiatorId: nat,
    initiator: Digest,
    receipts: seq<Digest>,
    graph: Digest,
    evidence: Digest,
    ready: bool,
    findings: nat)

  datatype WorkOrder = WorkOrder(digest: nat, issuedAt: int, deadline: int, acceptor: nat)

  function Digests(receipts: seq<Receipt>): (ds: seq<Digest>)
    ensures |ds| == |receipts|
    ensures forall i :: 0 <= i < |ds| ==> ds[i] == OfReceipt(receipts[i])
  {
    seq(|receipts|, i requires 0 <= i < |receipts| => OfReceipt(receipts[i]))
  }

  lemma DigestsPrefix(receipts: seq<Receipt>, longer: seq<Receipt>)
    ensures Digests(receipts) <= Digests(longer) <==> receipts <= longer
  {
    if Digests(receipts) <= Digests(longer) {
      forall i | 0 <= i < |receipts|
        ensures receipts[i] == longer[i]
      {
        assert Digests(receipts)[i] == Digests(longer)[i];
      }
    }
  }

  // ----- evidence and the causal graph ---------------------------------------------------

  /** The last reference to a path is the one that counts. */
  function AddReferences(known: map<nat, nat>, references: seq<EvidenceRef>): map<nat, nat>
    decreases |references|
  {
    if references == [] then known
    else AddReferences(known[references[0].path := references[0].content], references[1..])
  }

  function EvidenceOf(receipts: seq<Receipt>): map<nat, nat> {
    if receipts == [] then map[]
    else AddReferences(EvidenceOf(receipts[..|receipts| - 1]), receipts[|receipts| - 1].references)
  }

  function EvidenceDigest(receipts: seq<Receipt>): Digest {
    OfEvidence(EvidenceOf(receipts))
  }

  predicate DistinctReceiptIds(receipts: seq<Receipt>) {
    forall i, j :: 0 <= i < j < |receipts| ==> receipts[i].id != receipts[j].id
  }

  /** In sequence order, and no id twice. */
  predicate CanonicalPrefix(receipts: seq<Receipt>) {
    && (forall i, j :: 0 <= i < j < |receipts| ==> receipts[i].sequence <= receipts[j].sequence)
    && DistinctReceiptIds(receipts)
  }

  function GraphRoot(receipts: seq<Receipt>): Option<Digest> {
    if !CanonicalPrefix(receipts) then None
    else
      Some(OfGraph(seq(|receipts|, i requires 0 <= i < |receipts| =>
        Node(receipts[i].id, OfReceipt(receipts[i]), receipts[i].parents))))
  }

  // ----- positions ---------------------------------------------------------------------------

  function Positions(receipts: seq<Receipt>, wanted: Receipt -> bool): seq<nat> {
    if receipts == [] then []
    else
      var n := |receipts| - 1;
      Positions(receipts[..n], wanted) + if wanted(receipts[n]) then [n] else []
  }

  ghost predicate Increasing(positions: seq<nat>) {
    forall i, j :: 0 <= i < j < |positions| ==> positions[i] < positions[j]
  }

  lemma {:induction false} PositionsExact(receipts: seq<Receipt>, wanted: Receipt -> bool)
    ensures Increasing(Positions(receipts, wanted))
    ensures forall p: nat :: p in Positions(receipts, wanted) <==> p < |receipts| && wanted(receipts[p])
  {
    if receipts != [] {
      var n := |receipts| - 1;
      var before := Positions(receipts[..n], wanted);
      PositionsExact(receipts[..n], wanted);
      forall i | 0 <= i < |before|
        ensures before[i] < n
      {
        assert before[i] in before;
      }
      forall p: nat
        ensures p in Positions(receipts, wanted) <==> p < |receipts| && wanted(receipts[p])
      {
        assert p in Positions(receipts, wanted) <==> p in before || (p == n && wanted(receipts[n]));
        assert p < n ==> receipts[..n][p] == receipts[p];
      }
    }
  }

  lemma PositionsAppend(receipts: seq<Receipt>, receipt: Receipt, wanted: Receipt -> bool)
    ensures Positions(receipts + [receipt], wanted)
         == Positions(receipts, wanted) + if wanted(receipt) then [|receipts|] else []
  {
    assert (receipts + [receipt])[..|receipts|] == receipts;
  }

  /** An element of an increasing list inside another stands no earlier there. */
  lemma {:induction false} NoEarlier(some: seq<nat>, all: seq<nat>, i: nat, j: nat)
    requires Increasing(some) && Increasing(all) && forall p :: p in some ==> p in all
    requires i < |some| && j < |all| && some[i] == all[j]
    ensures i <= j
  {
    if i > 0 {
      assert some[i - 1] in some;
      var k :| 0 <= k < |all| && all[k] == some[i - 1];
      NoEarlier(some, all, i - 1, k);
      assert k < j;
    }
  }

  lemma {:induction false} NoLater(some: seq<nat>, all: seq<nat>, i: nat, j: nat)
    requires Increasing(some) && Increasing(all) && forall p :: p in some ==> p in all
    requires i < |some| && j < |all| && some[i] == all[j]
    ensures |some| - i <= |all| - j
    decreases |some| - i
  {
    if i + 1 < |some| {
      assert some[i + 1] in some;
      var k :| 0 <= k < |all| && all[k] == some[i + 1];
      NoLater(some, all, i + 1, k);
      assert j < k;
    }
  }

  /** As many elements, all of them in the other list: the lists are the same. */
  lemma SameIncreasing(some: seq<nat>, all: seq<nat>)
    requires Increasing(some) && Increasing(all) && |some| == |all|
    requires forall p :: p in some ==> p in all
    ensures some == all
  {
    forall i | 0 <= i < |some|
      ensures some[i] == all[i]
    {
      assert some[i] in some;
      var j :| 0 <= j < |all| && all[j] == some[i];
      NoEarlier(some, all, i, j);
      NoLater(some, all, i, j);
    }
  }
}

/**
 The manifest that was in force at a past instant
 (src/openworkproof/binding_transactions.py, the historical loader), compared with the manifest that a
 reader of the ledger would have found current at that instant.
 */
module ManifestAsOf {
  import opened Collections
  import opened BindingCommit
  import opened ManifestHistory

  datatype Request = Request(workOrderDigest: Digest, manifest: Reference, judgment: Reference, instant: nat)

  datatype LookupFault = WrongWorkOrder | HistoryBroken(fault: HistoryFault) | Unavailable | ReferenceMismatch | NotEffective | AlreadySuperseded

  function LoadHistorical(store: Store, request: Request): Result<Manifest, LookupFault> {
    var history := ValidateHistory(store);
    if request.workOrderDigest != store.workOrder.digest then Failure(WrongWorkOrder)
    else if history.Failure? then Failure(HistoryBroken(history.error))
    else if request.manifest.id !in history.value.byId then Failure(Unavailable)
    else
      var row := history.value.byId[request.manifest.id];
      if row.manifest.digest != request.manifest.digest || row.manifest.judgment != request.judgment then
        Failure(ReferenceMismatch)
      else if row.committedAt > request.instant
              || !(row.manifest.createdAt <= request.instant < row.manifest.expiresAt) then Failure(NotEffective)
      else if ReplacedBy(store.rows, request.manifest.id, request.instant) then Failure(AlreadySuperseded)
      else Success(row.manifest)
  }

  predicate SupersedesId(row: Row, id: Digest) {
    row.manifest.supersedes.Some? && row.manifest.supersedes.value.id == id
  }

  predicate ReplacedBy(rows: seq<Row>, id: Digest, instant: nat) {
    exists r :: r in rows && SupersedesId(r, id) && r.committedAt <= instant
  }

  /** The scan for superseding commits, over the rows in table order. */
  method LoadHistoricalManifest(store: Store, request: Request) returns (r: Result<Manifest, LookupFault>)
    ensures r == LoadHistorical(store, request)
  {
    if request.workOrderDigest != store.workOrder.digest {
      return Failure(WrongWorkOrder);
    }
    var history := ValidateHistory(store);
    if history.Failure? {
      return Failure(HistoryBroken(history.error));
    }
    if request.manifest.id !in history.value.byId {
      return Failure(Unavailable);
    }
    var row := history.value.byId[request.manifest.id];
    if row.manifest.digest != request.manifest.digest || row.manifest.judgment != request.judgment {
      return Failure(ReferenceMismatch);
    }
    if row.committedAt > request.instant || !(row.manifest.createdAt <= request.instant < row.manifest.expiresAt) {
      return Failure(NotEffective);
    }
    for i := 0 to |store.rows|
      invariant forall k :: 0 <= k < i ==>
        !(SupersedesId(store.rows[k], request.manifest.id) && store.rows[k].committedAt <= request.instant)
    {
      if SupersedesId(store.rows[i], request.manifest.id) && store.rows[i].committedAt <= request.instant {
        assert store.rows[i] in store.rows;
        return Failure(AlreadySuperseded);
      }
    }
    return Success(row.manifest);
  }

  // ----- the ledger as it stood at an instant ------------------------------------------

  function RowsBy(rows: seq<Row>, instant: nat): seq<Row> {
    if rows == [] then []
    else
      var n := |rows| - 1;
      RowsBy(rows[..n], instant) + if rows[n].committedAt <= instant then [rows[n]] else []
  }

  function RelationsBy(relations: seq<Relation>, children: set<Digest>): seq<Relation> {
    if relations == [] then []
    else
      var n := |relations| - 1;
      RelationsBy(relations[..n], children) + if relations[n].child in children then [relations[n]] else []
  }

  /** The same tables without what was committed after `instant`. */
  function AsOf(store: Store, instant: nat): Store {
    var rows := RowsBy(store.rows, instant);
    store.(rows := rows, relations := RelationsBy(store.relations, RowIds(rows)))
  }

  lemma {:induction false} RowsByMembers(rows: seq<Row>, instant: nat)
    ensures forall r :: r in RowsBy(rows, instant) <==> r in rows && r.committedAt <= instant
    ensures Keyed(rows) ==> Keyed(RowsBy(rows, instant))
  {
    if rows != [] {
      var n := |rows| - 1;
      RowsByMembers(rows[..n], instant);
      assert rows == rows[..n] + [rows[n]];
      var before := RowsBy(rows[..n], instant);
      forall i | 0 <= i < |before|
        ensures before[i] in rows[..n]
      {
        assert before[i] in before;
      }
    }
  }

  lemma {:induction false} RelationsByMembers(relations: seq<Relation>, children: set<Digest>)
    ensures forall x :: x in RelationsBy(relations, children) <==> x in relations && x.child in children
    ensures NoDup(relations) ==> NoDup(RelationsBy(relations, children))
  {
    if relations != [] {
      var n := |relations| - 1;
      RelationsByMembers(relations[..n], children);
      assert relations == relations[..n] + [relations[n]];
    }
  }

  lemma {:induction false} CommitTimesRise(chain: seq<Row>, i: nat, j: nat)
    requires IsChain(chain) && i <= j < |chain|
    ensures chain[i].committedAt <= chain[j].committedAt
    decreases j
  {
    if i < j {
      CommitTimesRise(chain, i, j - 1);
      assert Joined(chain, j - 1);
    }
  }

  /** How many manifests of a chain were committed by an instant; by rising commit times, a prefix. */
  function CommittedBy(chain: seq<Row>, instant: nat): (k: nat)
    ensures k <= |chain|
  {
    if chain == [] || chain[|chain| - 1].committedAt <= instant then |chain|
    else CommittedBy(chain[..|chain| - 1], instant)
  }

  lemma PrefixIsChain(chain: seq<Row>, k: nat)
    requires IsChain(chain) && k <= |chain|
    ensures IsChain(chain[..k])
  {
    forall i | 0 <= i < k - 1
      ensures Joined(chain[..k], i)
    {
      assert Joined(chain, i);
    }
  }

  lemma {:induction false} CommittedByIsPrefix(chain: seq<Row>, instant: nat)
    requires IsChain(chain)
    ensures forall i :: 0 <= i < |chain| ==> (i < CommittedBy(chain, instant) <==> chain[i].committedAt <= instant)
    decreases |chain|
  {
    if chain != [] {
      var n := |chain| - 1;
      if chain[n].committedAt <= instant {
        forall i | 0 <= i < |chain|
          ensures chain[i].committedAt <= instant
        {
          CommitTimesRise(chain, i, n);
        }
      } else {
        PrefixIsChain(chain, n);
        CommittedByIsPrefix(chain[..n], instant);
        forall i | 0 <= i < n
          ensures i < CommittedBy(chain, instant) <==> chain[i].committedAt <= instant
        {
          assert chain[..n][i] == chain[i];
        }
      }
    }
  }

  /** The links of a chain, listed once each. */
  function LinksOf(chain: seq<Row>): seq<Relation> {
    if |chain| <= 1 then []
    else LinksOf(chain[..|chain| - 1]) + [RelationOf(chain[|chain| - 1], chain[|chain| - 2])]
  }

  lemma {:induction false} LinksOfMembers(chain: seq<Row>)
    requires Keyed(chain)
    ensures |LinksOf(chain)| == if chain == [] then 0 else |chain| - 1
    ensures forall x :: x in LinksOf(chain) <==> IsLink(chain, x)
    ensures NoDup(LinksOf(chain))
  {
    if |chain| > 1 {
      var n := |chain| - 1;
      var shorter := chain[..n];
      LinksOfMembers(shorter);
      var last := RelationOf(chain[n], chain[n - 1]);
      assert LinkAt(chain, last, n - 1);
      forall x
        ensures IsLink(chain, x) <==> IsLink(shorter, x) || x == last
      {
        if IsLink(shorter, x) {
          var i :| LinkAt(shorter, x, i);
          assert LinkAt(chain, x, i);
        }
        if IsLink(chain, x) && x != last {
          var i :| LinkAt(chain, x, i);
          assert LinkAt(shorter, x, i);
        }
      }
      forall i | 0 <= i < n - 1
        ensures !LinkAt(shorter, last, i)
      {
        assert chain[i + 1].manifest.id != chain[n].manifest.id;
      }
      assert !IsLink(shorter, last);
    } else {
      assert forall x :: !IsLink(chain, x);
    }
  }

  /** Restricting a valid history to an instant leaves a valid history: a prefix of the chain. */
  lemma AsOfFormsChain(store: Store, chain: seq<Row>, instant: nat)
    requires Keyed(store.rows) && FormsChain(store, chain)
    ensures Keyed(AsOf(store, instant).rows)
    ensures FormsChain(AsOf(store, instant), chain[..CommittedBy(chain, instant)])
  {
    var k := CommittedBy(chain, instant);
    var past := AsOf(store, instant);
    RowsByMembers(store.rows, instant);
    CommittedByIsPrefix(chain, instant);
    PrefixIsChain(chain, k);
    forall r
      ensures r in chain[..k] <==> r in past.rows
    {
      if r in past.rows {
        var i :| 0 <= i < |chain| && chain[i] == r;
        assert chain[..k][i] == r;
      }
    }
    ChainLength(chain[..k], past.rows);
    assert RowsForm(past.rows, chain[..k]);
    AsOfRelations(store, chain, past.rows, k);
    forall r | r in past.rows
      ensures RowValid(past, r)
    {
      assert RowValid(store, r);
    }
  }

  lemma AsOfRelations(store: Store, chain: seq<Row>, rows: seq<Row>, k: nat)
    requires IsChain(chain) && RelationsForm(store.relations, chain) && k <= |chain|
    requires forall r :: r in chain[..k] <==> r in rows
    ensures RelationsForm(RelationsBy(store.relations, RowIds(rows)), chain[..k])
  {
    var past := RelationsBy(store.relations, RowIds(rows));
    RelationsByMembers(store.relations, RowIds(rows));
    LinksOfMembers(chain[..k]);
    forall x
      ensures x in past <==> IsLink(chain[..k], x)
    {
      if x in past {
        assert IsLink(chain, x);
        var i :| LinkAt(chain, x, i);
        var r :| r in rows && r.manifest.id == x.child;
        var j :| 0 <= j < k && chain[..k][j] == r;
        assert chain[i + 1].manifest.id == chain[j].manifest.id;
        assert i + 1 == j;
        assert LinkAt(chain[..k], x, i);
      }
      if IsLink(chain[..k], x) {
        var i :| LinkAt(chain[..k], x, i);
        assert LinkAt(chain, x, i);
        assert IsLink(chain, x);
        assert chain[..k][i + 1] in rows;
      }
    }
    SameElements(past, LinksOf(chain[..k]));
    assert |multiset(past)| == |past| && |multiset(LinksOf(chain[..k]))| == |LinksOf(chain[..k])|;
  }

  // ----- what the historical loader returns ------------------------------------------------

  lemma SupersededByNext(chain: seq<Row>, i: nat, j: nat)
    requires IsChain(chain) && i < |chain| && j < |chain|
    ensures SupersedesId(chain[j], chain[i].manifest.id) <==> j == i + 1
  {
    if j > 0 {
      assert Joined(chain, j - 1);
    }
  }

  lemma ReplacedIffNextCommitted(rows: seq<Row>, chain: seq<Row>, i: nat, instant: nat)
    requires RowsForm(rows, chain) && i < |chain|
    ensures ReplacedBy(rows, chain[i].manifest.id, instant)
       <==> i + 1 < |chain| && chain[i + 1].committedAt <= instant
  {
    if ReplacedBy(rows, chain[i].manifest.id, instant) {
      var r :| r in rows && SupersedesId(r, chain[i].manifest.id) && r.committedAt <= instant;
      var j :| 0 <= j < |chain| && chain[j] == r;
      SupersededByNext(chain, i, j);
    }
    if i + 1 < |chain| {
      SupersededByNext(chain, i, i + 1);
      assert chain[i + 1] in chain;
    }
  }

  lemma LookupOnChain(store: Store, chain: seq<Row>, request: Request, i: nat)
    requires Keyed(store.rows) && FormsChain(store, chain)
    requires i < |chain| && chain[i].manifest.id == request.manifest.id
    ensures LoadHistorical(store, request).Success? <==>
      && request.workOrderDigest == store.workOrder.digest
      && chain[i].manifest.digest == request.manifest.digest && chain[i].manifest.judgment == request.judgment
      && chain[i].manifest.createdAt <= request.instant < chain[i].manifest.expiresAt
      && i + 1 == CommittedBy(chain, request.instant)
    ensures LoadHistorical(store, request).Success? ==> LoadHistorical(store, request).value == chain[i].manifest
  {
    ChainIsValid(store, chain);
    RowOfChain(store, chain, i);
    CommittedByIsPrefix(chain, request.instant);
    ReplacedIffNextCommitted(store.rows, chain, i, request.instant);
  }

  lemma RowOfChain(store: Store, chain: seq<Row>, i: nat)
    requires Keyed(store.rows) && FormsChain(store, chain) && i < |chain|
    ensures chain[i].manifest.id in IndexRows(store.rows) && IndexRows(store.rows)[chain[i].manifest.id] == chain[i]
  {
    IndexRowsFacts(store.rows);
    assert chain[i] in chain;
  }

  /**
   The loader returns a manifest for an instant exactly when that manifest is the current one of the
   ledger as it stood at that instant, and the instant lies in its window.
   */
  lemma LookupIffCurrentThen(store: Store, request: Request, manifest: Manifest)
    requires Keyed(store.rows) && ValidateHistory(store).Success?
    ensures LoadHistorical(store, request) == Success(manifest) <==>
      && request.workOrderDigest == store.workOrder.digest
      && Reference(manifest.id, manifest.digest) == request.manifest && manifest.judgment == request.judgment
      && ValidateHistory(AsOf(store, request.instant)).Success?
      && (var current := ValidateHistory(AsOf(store, request.instant)).value.current;
          current.Some? && current.value.manifest == manifest)
      && manifest.createdAt <= request.instant < manifest.expiresAt
  {
    var chain := ValidHistoryIsChain(store);
    CurrentThen(store, chain, request.instant);
    var i := PlaceOf(chain, request.manifest.id);
    if i < |chain| {
      LookupOnChain(store, chain, request, i);
      OnlyRowOfId(chain, i, CommittedBy(chain, request.instant), request.manifest.id);
    } else {
      NotListed(store, chain, request);
    }
  }

  /** A manifest that is accepted for an instant has its judgment, its scope and the work order in force then too. */
  lemma InForceMeansAuthorized(store: Store, request: Request)
    requires Keyed(store.rows) && LoadHistorical(store, request).Success?
    ensures var manifest := LoadHistorical(store, request).value;
      && manifest.judgment.id in store.judgments && manifest.scope.id in store.scopes
      && var (judgment, scope) := (store.judgments[manifest.judgment.id].judgment, store.scopes[manifest.scope.id]);
      && manifest.judgment == Reference(judgment.id, judgment.digest) && manifest.scope == Reference(scope.id, scope.digest)
      && judgment.validFrom <= request.instant < judgment.expiresAt
      && scope.createdAt <= request.instant < scope.expiresAt
      && store.workOrder.issuedAt <= request.instant < store.workOrder.deadline
      && store.judgments[manifest.judgment.id].committedAt <= request.instant
  {
    var row := FoundRow(store, request);
    RowInForce(store, row, request.instant);
  }

  /** What a lookup says of a row that is there, in the order of the checks. */
  function Answer(rows: seq<Row>, row: Row, request: Request): Result<Manifest, LookupFault> {
    if row.manifest.digest != request.manifest.digest || row.manifest.judgment != request.judgment then
      Failure(ReferenceMismatch)
    else if request.instant < row.committedAt || request.instant < row.manifest.createdAt
            || row.manifest.expiresAt <= request.instant then Failure(NotEffective)
    else if exists next :: next in rows && SupersedesId(next, row.manifest.id) && next.committedAt <= request.instant then
      Failure(AlreadySuperseded)
    else Success(row.manifest)
  }

  lemma LookupOfRow(store: Store, request: Request)
    requires Keyed(store.rows) && ValidateHistory(store).Success? && request.workOrderDigest == store.workOrder.digest
    requires request.manifest.id in IndexRows(store.rows)
    ensures var row := IndexRows(store.rows)[request.manifest.id];
      row.manifest.id == request.manifest.id && LoadHistorical(store, request) == Answer(store.rows, row, request)
  {
    HistoryIndexesRows(store);
    IndexRowsFacts(store.rows);
  }

  /** Why a lookup fails, in the order of the checks. */
  lemma LookupFaultIs(store: Store, request: Request)
    requires Keyed(store.rows)
    ensures var r := LoadHistorical(store, request);
      if request.workOrderDigest != store.workOrder.digest then r == Failure(WrongWorkOrder)
      else if ValidateHistory(store).Failure? then r == Failure(HistoryBroken(ValidateHistory(store).error))
      else if forall row :: row in store.rows ==> row.manifest.id != request.manifest.id then r == Failure(Unavailable)
      else exists row :: row in store.rows && row.manifest.id == request.manifest.id && r == Answer(store.rows, row, request)
  {
    if ValidateHistory(store).Success? && request.workOrderDigest == store.workOrder.digest {
      HistoryIndexesRows(store);
      IndexRowsFacts(store.rows);
      if request.manifest.id in IndexRows(store.rows) {
        IndexedIsRow(store.rows, request.manifest.id);
        LookupOfRow(store, request);
      }
    }
  }

  /** What the lookup returns is a valid row, committed by then and inside its window. */
  lemma FoundRow(store: Store, request: Request) returns (row: Row)
    requires Keyed(store.rows) && LoadHistorical(store, request).Success?
    ensures row in store.rows && RowValid(store, row) && LoadHistorical(store, request).value == row.manifest
    ensures row.committedAt <= request.instant && row.manifest.createdAt <= request.instant < row.manifest.expiresAt
  {
    HistoryIndexesRows(store);
    row := ValidateHistory(store).value.byId[request.manifest.id];
    IndexedIsRow(store.rows, request.manifest.id);
  }

  lemma HistoryIndexesRows(store: Store)
    requires ValidateHistory(store).Success?
    ensures ValidateHistory(store).value.byId == IndexRows(store.rows)
    ensures forall r :: r in store.rows ==> RowValid(store, r)
  {
  }

  lemma IndexedIsRow(rows: seq<Row>, id: Digest)
    requires Keyed(rows) && id in IndexRows(rows)
    ensures IndexRows(rows)[id] in rows
  {
    IndexRowsFacts(rows);
  }

  lemma RowInForce(store: Store, row: Row, instant: nat)
    requires RowValid(store, row) && row.committedAt <= instant
    requires row.manifest.createdAt <= instant < row.manifest.expiresAt
    ensures var manifest := row.manifest;
      && manifest.judgment.id in store.judgments && manifest.scope.id in store.scopes
      && var (judgment, scope) := (store.judgments[manifest.judgment.id].judgment, store.scopes[manifest.scope.id]);
      && manifest.judgment == Reference(judgment.id, judgment.digest) && manifest.scope == Reference(scope.id, scope.digest)
      && judgment.validFrom <= instant < judgment.expiresAt
      && scope.createdAt <= instant < scope.expiresAt
      && store.workOrder.issuedAt <= instant < store.workOrder.deadline
      && store.judgments[manifest.judgment.id].committedAt <= instant
  {
  }

  /** The place of the manifest in the chain, or the length of the chain. */
  lemma PlaceOf(chain: seq<Row>, id: Digest) returns (i: nat)
    ensures i <= |chain|
    ensures i < |chain| ==> chain[i].manifest.id == id
    ensures i == |chain| ==> forall k :: 0 <= k < |chain| ==> chain[k].manifest.id != id
  {
    i := 0;
    while i < |chain| && chain[i].manifest.id != id
      invariant i <= |chain| && forall k :: 0 <= k < i ==> chain[k].manifest.id != id
    {
      i := i + 1;
    }
  }

  /** What was current at an instant: the last row committed by then. */
  lemma CurrentThen(store: Store, chain: seq<Row>, instant: nat)
    requires Keyed(store.rows) && FormsChain(store, chain)
    ensures CommittedBy(chain, instant) <= |chain|
    ensures var history := ValidateHistory(AsOf(store, instant));
      var k := CommittedBy(chain, instant);
      && history.Success?
      && history.value.current == if k == 0 then None else Some(chain[k - 1])
  {
    AsOfFormsChain(store, chain, instant);
    ChainIsValid(AsOf(store, instant), chain[..CommittedBy(chain, instant)]);
  }

  lemma OnlyRowOfId(chain: seq<Row>, i: nat, k: nat, id: Digest)
    requires Keyed(chain) && i < |chain| && k <= |chain| && chain[i].manifest.id == id
    ensures k > 0 && chain[k - 1].manifest.id == id ==> i + 1 == k
  {
  }

  lemma NotListed(store: Store, chain: seq<Row>, request: Request)
    requires Keyed(store.rows) && FormsChain(store, chain)
    requires forall i :: 0 <= i < |chain| ==> chain[i].manifest.id != request.manifest.id
    ensures LoadHistorical(store, request).Failure?
  {
    ChainIsValid(store, chain);
    IndexRowsFacts(store.rows);
    forall r | r in store.rows
      ensures r.manifest.id != request.manifest.id
    {
      assert r in chain;
    }
  }

  /** At most one manifest is accepted for any instant, also when several were committed in that second. */
  lemma AtMostOneInForce(store: Store, first: Request, second: Request)
    requires Keyed(store.rows) && ValidateHistory(store).Success?
    requires first.instant == second.instant
    requires LoadHistorical(store, first).Success? && LoadHistorical(store, second).Success?
    ensures LoadHistorical(store, first) == LoadHistorical(store, second)
  {
    LookupIffCurrentThen(store, first, LoadHistorical(store, first).value);
    LookupIffCurrentThen(store, second, LoadHistorical(store, second).value);
  }
}

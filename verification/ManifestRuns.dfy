/**
 Committing manifests through the commit wrapper, every run of such commits, and looking up the manifest
 that was in force at an instant (src/openworkproof/binding_transactions.py).
 Rows stand in commit order; ManifestHistory shows that the order of the tables does not matter.
 */
module ManifestRuns {
  import opened Collections
  import opened BindingCommit
  import opened ManifestHistory

  // ----- revalidation, as the program runs it ----------------------------------------

  lemma {:induction false} RelationPrefixFails(byId: map<Digest, Row>, relations: seq<Relation>, n: nat)
    requires n <= |relations| && IndexRelations(byId, relations[..n]).Failure?
    ensures IndexRelations(byId, relations) == IndexRelations(byId, relations[..n])
    decreases |relations|
  {
    if n < |relations| {
      var m := |relations| - 1;
      assert relations[..m][..n] == relations[..n];
      RelationPrefixFails(byId, relations[..m], n);
    } else {
      assert relations[..n] == relations;
    }
  }

  method IndexRelationRows(byId: map<Digest, Row>, relations: seq<Relation>) returns (r: Result<Links, HistoryFault>)
    ensures r == IndexRelations(byId, relations)
  {
    var relationsByChild: map<Digest, Digest> := map[];
    var childrenByParent: map<Digest, Digest> := map[];
    for i := 0 to |relations|
      invariant IndexRelations(byId, relations[..i]) == Success(Links(childrenByParent, relationsByChild))
    {
      assert relations[..i + 1][..i] == relations[..i];
      var fault := CheckRelation(byId, Links(childrenByParent, relationsByChild), relations[i]);
      if fault.Some? {
        RelationPrefixFails(byId, relations, i + 1);
        return Failure(fault.value);
      }
      relationsByChild := relationsByChild[relations[i].child := relations[i].parent];
      childrenByParent := childrenByParent[relations[i].parent := relations[i].child];
    }
    assert relations[..|relations|] == relations;
    return Success(Links(childrenByParent, relationsByChild));
  }

  method WalkFromRoot(byId: map<Digest, Row>, links: Links, root: Row) returns (r: Result<seq<Row>, HistoryFault>)
    requires Closed(byId, links) && root.manifest.id in byId
    ensures r == Walk(byId, links, root, [])
  {
    var current := root;
    var visited: seq<Row> := [];
    while true
      invariant current.manifest.id in byId
      invariant Walk(byId, links, current, visited) == Walk(byId, links, root, [])
      decreases byId.Keys - RowIds(visited)
    {
      if current.manifest.id in RowIds(visited) {
        return Failure(Cycle);
      }
      assert current.manifest.id in byId.Keys - RowIds(visited);
      assert RowIds(visited + [current]) == RowIds(visited) + {current.manifest.id};
      visited := visited + [current];
      if current.manifest.id !in links.childOf {
        return Success(visited);
      }
      current := byId[links.childOf[current.manifest.id]];
    }
  }

  method ReadRows(store: Store) returns (valid: bool, validated: map<Digest, Row>)
    ensures valid <==> forall r :: r in store.rows ==> RowValid(store, r)
    ensures valid ==> validated == IndexRows(store.rows)
  {
    validated := map[];
    for i := 0 to |store.rows|
      invariant forall k :: 0 <= k < i ==> RowValid(store, store.rows[k])
      invariant validated == IndexRows(store.rows[..i])
    {
      assert store.rows[..i + 1][..i] == store.rows[..i];
      if !RowValid(store, store.rows[i]) {
        assert store.rows[i] in store.rows;
        return false, validated;
      }
      validated := validated[store.rows[i].manifest.id := store.rows[i]];
    }
    assert store.rows[..|store.rows|] == store.rows;
    return true, validated;
  }

  method ValidatedManifestHistory(store: Store) returns (r: Result<History, HistoryFault>)
    ensures r == ValidateHistory(store)
  {
    var valid, validated := ReadRows(store);
    if !valid {
      return Failure(InvalidRow);
    }
    if store.rows == [] {
      return if store.relations != [] then Failure(RelationsWithoutObjects) else Success(History(map[], None));
    }
    if |store.relations| != |store.rows| - 1 {
      return Failure(RelationCount);
    }
    var links := IndexRelationRows(validated, store.relations);
    if links.Failure? {
      return Failure(links.error);
    }
    var roots := Roots(store.rows);
    if |roots| != 1 || roots[0].manifest.id in links.value.parentOf {
      return Failure(NotOneRoot);
    }
    IndexedRoot(store, links.value);
    var chain := WalkFromRoot(validated, links.value, roots[0]);
    if chain.Failure? {
      return Failure(chain.error);
    }
    if chain.value == [] || |chain.value| != |validated| {
      return Failure(Disconnected);
    }
    return Success(History(validated, Some(chain.value[|chain.value| - 1])));
  }

  lemma IndexedRoot(store: Store, links: Links)
    requires IndexRelations(IndexRows(store.rows), store.relations) == Success(links)
    requires |Roots(store.rows)| == 1
    ensures Closed(IndexRows(store.rows), links) && Roots(store.rows)[0].manifest.id in IndexRows(store.rows)
  {
    IndexRowsFacts(store.rows);
    IndexRelationsFacts(IndexRows(store.rows), store.relations, links);
    LinksClosed(store.rows, store.relations, links);
    RootsMembers(store.rows);
    assert Roots(store.rows)[0] in Roots(store.rows);
  }

  /** A ledger as commits build it: one chain, its rows in commit order. */
  ghost predicate IsLedger(store: Store) {
    Keyed(store.rows) && FormsChain(store, store.rows)
  }

  // ----- one commit ------------------------------------------------------------------

  predicate AuthoritiesKnown(store: Store, manifest: Manifest) {
    && manifest.judgment.id in store.judgments
    && store.judgments[manifest.judgment.id].judgment.id == manifest.judgment.id
    && store.judgments[manifest.judgment.id].judgment.digest == manifest.judgment.digest
    && manifest.scope.id in store.scopes
    && store.scopes[manifest.scope.id].id == manifest.scope.id
    && store.scopes[manifest.scope.id].digest == manifest.scope.digest
  }

  predicate JudgmentRowSound(row: JudgmentRow) {
    row.judgment.validFrom <= row.committedAt < row.judgment.expiresAt
  }

  function Inserted(store: Store, row: Row): Store {
    store.(
      rows := store.rows + [row],
      relations := store.relations
        + match row.manifest.supersedes
          case None => []
          case Some(parent) => [Relation(row.manifest.id, parent.id, parent.digest)])
  }

  function StageManifest(manifest: Manifest, profile: AdapterProfile, at: nat, store: Store): StageResult<Store, Row> {
    var history := ValidateHistory(store);
    if history.Failure? then StageTransactionError
    else
      var byId, current := history.value.byId, history.value.current;
      var row := Row(manifest, profile, at);
      if manifest.id in byId then
        if byId[manifest.id].manifest == manifest && byId[manifest.id].profile == profile
        then StageCommitted(row) else StageTransactionError
      else if !AuthoritiesKnown(store, manifest) then StageInputError
      else if !JudgmentRowSound(store.judgments[manifest.judgment.id]) then StageTransactionError
      else if store.judgments[manifest.judgment.id].committedAt > at then StageTransactionError
      else if !ValidAt(store, manifest, profile, at) then StageInputError
      else if exists r :: r in store.rows && r.manifest.signerKeyId == manifest.signerKeyId
                          && r.manifest.nonce == manifest.nonce then StageTransactionError
      else match current
        case None =>
          if manifest.supersedes.Some? then StageTransactionError else Staged(Inserted(store, row), row)
        case Some(parent) =>
          if manifest.supersedes != Some(Reference(parent.manifest.id, parent.manifest.digest)) then StageTransactionError
          else if manifest.createdAt <= parent.manifest.createdAt then StageInputError
          else if parent.committedAt > at then StageTransactionError
          else Staged(Inserted(store, row), row)
  }

  predicate ManifestReadback(store: Store, row: Row) {
    var history := ValidateHistory(store);
    && history.Success?
    && row.manifest.id in history.value.byId
    && history.value.byId[row.manifest.id] == row
  }

  predicate ManifestPresent(store: Store, row: Row) {
    exists r :: r in store.rows && r.manifest == row.manifest && r.profile == row.profile
  }

  /** A malformed manifest is refused before the ledger is opened. */
  function CommitManifestAttempt(
    store: Store, manifest: Manifest, profile: AdapterProfile, at: nat, env: Environment, fault: Fault
  ): (Store, Outcome<Row>) {
    if !WellFormed(manifest) then (store, InputError)
    else Attempt(store, (s: Store) => StageManifest(manifest, profile, at, s), ManifestReadback, env, fault)
  }

  lemma ValidAtOthers(store: Store, other: Store, row: Row)
    requires other.workOrder == store.workOrder && RowValid(store, row)
    requires forall id :: id in store.judgments ==> id in other.judgments && other.judgments[id] == store.judgments[id]
    requires forall id :: id in store.scopes ==> id in other.scopes && other.scopes[id] == store.scopes[id]
    ensures RowValid(other, row)
  {
  }

  lemma ChainGrows(rows: seq<Row>, next: Row)
    requires IsChain(rows) && forall r :: r in rows ==> r.manifest.id != next.manifest.id
    requires if rows == [] then next.manifest.supersedes == None else Supersedes(next, rows[|rows| - 1])
    ensures IsChain(rows + [next])
  {
    if rows != [] {
      ExtendChain(rows, next);
    }
  }

  lemma LinksGrow(relations: seq<Relation>, rows: seq<Row>, next: Row)
    requires RelationsForm(relations, rows) && Keyed(rows + [next])
    ensures rows == [] ==> RelationsForm(relations, [next])
    ensures rows != [] ==> RelationsForm(relations + [RelationOf(next, rows[|rows| - 1])], rows + [next])
  {
    var longer := rows + [next];
    if rows == [] {
      assert forall x :: !IsLink([next], x);
    } else {
      var last := RelationOf(next, rows[|rows| - 1]);
      assert LinkAt(longer, last, |rows| - 1);
      forall x
        ensures IsLink(longer, x) <==> IsLink(rows, x) || x == last
      {
        if IsLink(rows, x) {
          var i :| LinkAt(rows, x, i);
          assert LinkAt(longer, x, i);
        }
        if IsLink(longer, x) && x != last {
          var i :| LinkAt(longer, x, i);
          assert LinkAt(rows, x, i);
        }
      }
      assert !IsLink(rows, last) by {
        forall i | 0 <= i < |rows| - 1
          ensures !LinkAt(rows, last, i)
        {
          assert longer[i + 1].manifest.id != longer[|rows|].manifest.id;
        }
      }
      assert forall x :: x in relations + [last] <==> x in relations || x == last;
    }
  }

  /** What staging has established: a new id, and a parent that is the last row. */
  lemma StagedManifestFits(store: Store, manifest: Manifest, profile: AdapterProfile, at: nat)
    requires IsLedger(store) && WellFormed(manifest)
    requires StageManifest(manifest, profile, at, store).Staged?
    ensures var row := Row(manifest, profile, at);
      && StageManifest(manifest, profile, at, store) == Staged(Inserted(store, row), row)
      && (forall r :: r in store.rows ==> r.manifest.id != manifest.id)
      && RowValid(store, row)
      && (if store.rows == [] then manifest.supersedes == None else Supersedes(row, store.rows[|store.rows| - 1]))
  {
    ChainIsValid(store, store.rows);
    AbsentFromRows(store.rows, manifest.id);
  }

  lemma AbsentFromRows(rows: seq<Row>, id: Digest)
    ensures id !in IndexRows(rows) <==> forall r :: r in rows ==> r.manifest.id != id
  {
    IndexRowsFacts(rows);
    forall r | r in rows
      ensures r.manifest.id in IndexRows(rows)
    {
    }
  }

  /** A staged manifest becomes the new end of the chain. */
  lemma StageExtendsChain(store: Store, manifest: Manifest, profile: AdapterProfile, at: nat)
    requires IsLedger(store) && WellFormed(manifest)
    requires StageManifest(manifest, profile, at, store).Staged?
    ensures var after := Inserted(store, Row(manifest, profile, at));
      && StageManifest(manifest, profile, at, store) == Staged(after, Row(manifest, profile, at))
      && IsLedger(after)
      && ValidateHistory(after) == Success(History(IndexRows(after.rows), Some(Row(manifest, profile, at))))
  {
    var row := Row(manifest, profile, at);
    var after := Inserted(store, row);
    StagedManifestFits(store, manifest, profile, at);
    ChainGrows(store.rows, row);
    LinksGrow(store.relations, store.rows, row);
    forall r | r in after.rows
      ensures RowValid(after, r)
    {
      if r != row {
        assert r in store.rows;
        ValidAtOthers(store, after, r);
      } else {
        assert RowValid(store, row);
        ValidAtOthers(store, after, row);
      }
    }
    ChainIsValid(after, after.rows);
  }

  lemma ManifestStageFaithful(store: Store, manifest: Manifest, profile: AdapterProfile, at: nat)
    requires IsLedger(store) && WellFormed(manifest)
    ensures FaithfulStage(store, (s: Store) => StageManifest(manifest, profile, at, s), ManifestReadback, ManifestPresent)
  {
    CommittedIsRow(store, manifest, profile, at);
    if StageManifest(manifest, profile, at, store).Staged? {
      StageExtendsChain(store, manifest, profile, at);
      StagedReadsBack(store, manifest, profile, at);
    }
  }

  /** The readback finds a staged manifest once it is committed, and not before. */
  lemma StagedReadsBack(store: Store, manifest: Manifest, profile: AdapterProfile, at: nat)
    requires IsLedger(store) && WellFormed(manifest)
    requires StageManifest(manifest, profile, at, store).Staged?
    ensures ManifestReadback(Inserted(store, Row(manifest, profile, at)), Row(manifest, profile, at))
    ensures !ManifestReadback(store, Row(manifest, profile, at))
  {
    var row := Row(manifest, profile, at);
    var after := Inserted(store, row);
    StageExtendsChain(store, manifest, profile, at);
    IndexRowsFacts(after.rows);
    assert row in after.rows;
    StagedManifestFits(store, manifest, profile, at);
    ChainIsValid(store, store.rows);
    AbsentFromRows(store.rows, manifest.id);
  }

  lemma CommittedIsRow(store: Store, manifest: Manifest, profile: AdapterProfile, at: nat)
    requires IsLedger(store)
    ensures StageManifest(manifest, profile, at, store).StageCommitted? ==>
      exists r :: r in store.rows && r.manifest == manifest && r.profile == profile
  {
    ChainIsValid(store, store.rows);
    IndexRowsFacts(store.rows);
    if StageManifest(manifest, profile, at, store).StageCommitted? {
      assert IndexRows(store.rows)[manifest.id] in store.rows;
    }
  }

  /** The outcome of an attempt is the truth about the manifest's stage. */
  lemma ManifestOutcomeIsTruth(
    store: Store, manifest: Manifest, profile: AdapterProfile, at: nat, env: Environment, fault: Fault)
    requires IsLedger(store) && CommitIsHonest(env)
    ensures var (after, outcome) := CommitManifestAttempt(store, manifest, profile, at, env, fault);
      var stage := StageManifest(manifest, profile, at, store);
      && (after == store || (WellFormed(manifest) && stage.Staged? && after == stage.store))
      && (outcome.Returned? ==> WellFormed(manifest) && stage.Staged? && after == stage.store)
      && (outcome.CommittedError? ==>
            && WellFormed(manifest)
            && ((stage.StageCommitted? && after == store) || (stage.Staged? && after == stage.store)))
      && (outcome.InputError? || outcome.TransactionError? ==> after == store)
  {
    if WellFormed(manifest) {
      ManifestStageFaithful(store, manifest, profile, at);
      OutcomeIsTruth(store, (s: Store) => StageManifest(manifest, profile, at, s), ManifestReadback, ManifestPresent, env, fault);
    }
  }

  /** What one attempt to commit a manifest does to the chain, and what its outcome says about it. */
  lemma AttemptExtendsChain(
    store: Store, manifest: Manifest, profile: AdapterProfile, at: nat, env: Environment, fault: Fault)
    requires IsLedger(store) && CommitIsHonest(env)
    ensures var (after, outcome) := CommitManifestAttempt(store, manifest, profile, at, env, fault);
      && IsLedger(after)
      && (after.rows == store.rows || after.rows == store.rows + [Row(manifest, profile, at)])
      && (outcome.Returned? ==> Last(after.rows) == Some(Row(manifest, profile, at)))
      && (outcome.CommittedError? ==> exists r :: r in after.rows && r.manifest == manifest && r.profile == profile)
      && (outcome.InputError? || outcome.TransactionError? ==> after == store)
  {
    ManifestOutcomeIsTruth(store, manifest, profile, at, env, fault);
    if WellFormed(manifest) {
      StagedIsLastRow(store, manifest, profile, at);
      CommittedIsRow(store, manifest, profile, at);
    }
  }

  lemma StagedIsLastRow(store: Store, manifest: Manifest, profile: AdapterProfile, at: nat)
    requires IsLedger(store) && WellFormed(manifest)
    ensures StageManifest(manifest, profile, at, store).Staged? ==>
      var after := StageManifest(manifest, profile, at, store).store;
      && IsLedger(after)
      && after.rows == store.rows + [Row(manifest, profile, at)]
      && Row(manifest, profile, at) in after.rows
  {
    if StageManifest(manifest, profile, at, store).Staged? {
      StageExtendsChain(store, manifest, profile, at);
    }
  }

  // ----- exactly when a manifest is committed ------------------------------------------

  ghost predicate Within(from: nat, to: nat, outerFrom: nat, outerTo: nat) {
    outerFrom <= from && to <= outerTo
  }

  /**
   The manifest's window lies within those of its judgment, its scope and the work order; it is committed inside its
   own window, after its judgment was; and the judgment was committed in force.
   */
  ghost predicate Authorizes(store: Store, manifest: Manifest, profile: AdapterProfile, at: nat) {
    && manifest.workOrderDigest == store.workOrder.digest
    && manifest.judgment.id in store.judgments && manifest.scope.id in store.scopes
    && var (row, scope) := (store.judgments[manifest.judgment.id], store.scopes[manifest.scope.id]);
    && manifest.judgment == Reference(row.judgment.id, row.judgment.digest)
    && manifest.scope == Reference(scope.id, scope.digest)
    && row.judgment.validFrom <= row.committedAt < row.judgment.expiresAt && row.committedAt <= at
    && row.judgment.validFrom <= manifest.createdAt && manifest.expiresAt <= row.judgment.expiresAt
    && Within(manifest.createdAt, manifest.expiresAt, scope.createdAt, scope.expiresAt)
    && Within(manifest.createdAt, manifest.expiresAt, store.workOrder.issuedAt, store.workOrder.deadline)
    && manifest.createdAt <= at < manifest.expiresAt
    && store.workOrder.admits(manifest, row.judgment, scope, profile)
  }

  lemma ValidAtIffAuthorized(store: Store, manifest: Manifest, profile: AdapterProfile, at: nat)
    ensures ValidAt(store, manifest, profile, at) <==> Authorizes(store, manifest, profile, at)
  {
  }

  /** The manifest is new, authorized, and continues the chain at its end. */
  ghost predicate Continues(store: Store, manifest: Manifest, profile: AdapterProfile, at: nat) {
    && (forall r :: r in store.rows ==>
          && r.manifest.id != manifest.id
          && (r.manifest.signerKeyId, r.manifest.nonce) != (manifest.signerKeyId, manifest.nonce))
    && Authorizes(store, manifest, profile, at)
    && (if store.rows == [] then manifest.supersedes == None
        else
          var end := store.rows[|store.rows| - 1];
          && manifest.supersedes == Some(Reference(end.manifest.id, end.manifest.digest))
          && end.manifest.createdAt < manifest.createdAt && end.committedAt <= at)
  }

  lemma ManifestStagedIff(store: Store, manifest: Manifest, profile: AdapterProfile, at: nat)
    requires IsLedger(store)
    ensures StageManifest(manifest, profile, at, store).Staged? <==> Continues(store, manifest, profile, at)
  {
    ChainIsValid(store, store.rows);
    AbsentFromRows(store.rows, manifest.id);
    ValidAtIffAuthorized(store, manifest, profile, at);
  }

  /** A manifest is committed and returned exactly when it continues the chain and nothing goes wrong. */
  lemma ManifestReturnedIff(
    store: Store, manifest: Manifest, profile: AdapterProfile, at: nat, env: Environment, fault: Fault)
    requires IsLedger(store) && CommitIsHonest(env)
    ensures var (after, outcome) := CommitManifestAttempt(store, manifest, profile, at, env, fault);
      && (outcome.Returned? <==>
            Undisturbed(env, fault) && WellFormed(manifest) && Continues(store, manifest, profile, at))
      && (outcome.Returned? ==>
            && outcome.value == Row(manifest, profile, at) && after.rows == store.rows + [outcome.value]
            && ValidateHistory(after) == Success(History(IndexRows(after.rows), Some(outcome.value))))
  {
    if WellFormed(manifest) {
      ManifestStageFaithful(store, manifest, profile, at);
      ManifestStagedIff(store, manifest, profile, at);
      ReturnedIff(store, (s: Store) => StageManifest(manifest, profile, at, s), ManifestReadback, ManifestPresent, env, fault);
      if StageManifest(manifest, profile, at, store).Staged? {
        StageExtendsChain(store, manifest, profile, at);
      }
    }
  }

  method CommitActionBindingManifest(
    file: LedgerFile<Store>, manifest: Manifest, profile: AdapterProfile, at: nat, env: Environment, fault: Fault)
    returns (outcome: Outcome<Row>)
    requires CommitIsHonest(env)
    modifies file
    ensures (file.durable, outcome) == CommitManifestAttempt(old(file.durable), manifest, profile, at, env, fault)
    ensures old(IsLedger(file.durable)) ==>
      && IsLedger(file.durable)
      && (outcome.Returned? ==> Last(file.durable.rows) == Some(Row(manifest, profile, at)))
      && (outcome.CommittedError? ==>
            exists r :: r in file.durable.rows && r.manifest == manifest && r.profile == profile)
      && (outcome.InputError? || outcome.TransactionError? ==> file.durable == old(file.durable))
  {
    if IsLedger(file.durable) {
      AttemptExtendsChain(file.durable, manifest, profile, at, env, fault);
    }
    if !WellFormed(manifest) {
      return InputError;
    }
    outcome := file.CommitWithReadback((s: Store) => StageManifest(manifest, profile, at, s), ManifestReadback, env, fault);
  }

  // ----- every run --------------------------------------------------------------------

  datatype Event =
    | CommitManifest(manifest: Manifest, profile: AdapterProfile, at: nat, env: Environment, fault: Fault)
    | JudgmentCommitted(judgment: JudgmentRow)
    | ScopeCommitted(scope: Scope)

  function Next(store: Store, event: Event): Store {
    match event
    case CommitManifest(manifest, profile, at, env, fault) =>
      CommitManifestAttempt(store, manifest, profile, at, env, fault).0
    case JudgmentCommitted(row) =>
      if row.judgment.id in store.judgments then store
      else store.(judgments := store.judgments[row.judgment.id := row])
    case ScopeCommitted(scope) =>
      if scope.id in store.scopes then store else store.(scopes := store.scopes[scope.id := scope])
  }

  function Run(store: Store, events: seq<Event>): Store
    decreases |events|
  {
    if events == [] then store else Run(Next(store, events[0]), events[1..])
  }

  ghost predicate Honest(events: seq<Event>) {
    forall e :: e in events && e.CommitManifest? ==> CommitIsHonest(e.env)
  }

  lemma NextKeepsChain(store: Store, event: Event)
    requires IsLedger(store)
    requires event.CommitManifest? ==> CommitIsHonest(event.env)
    ensures var after := Next(store, event);
      IsLedger(after) && store.rows <= after.rows
  {
    match event {
      case CommitManifest(manifest, profile, at, env, fault) =>
        AttemptExtendsChain(store, manifest, profile, at, env, fault);
      case JudgmentCommitted(_) =>
        forall r | r in store.rows ensures RowValid(Next(store, event), r) {
          ValidAtOthers(store, Next(store, event), r);
        }
      case ScopeCommitted(_) =>
        forall r | r in store.rows ensures RowValid(Next(store, event), r) {
          ValidAtOthers(store, Next(store, event), r);
        }
    }
  }

  /** Any run of commits, failed commits and new authorities keeps a ledger a ledger, with its rows. */
  lemma {:induction false} RunKeepsLedger(store: Store, events: seq<Event>)
    requires IsLedger(store) && Honest(events)
    ensures var after := Run(store, events);
      && IsLedger(after) && store.rows <= after.rows
      && ValidateHistory(after) == Success(History(IndexRows(after.rows), Last(after.rows)))
    decreases |events|
  {
    if events == [] {
      ChainIsValid(store, store.rows);
    } else {
      assert events[0] in events;
      NextKeepsChain(store, events[0]);
      RunKeepsLedger(Next(store, events[0]), events[1..]);
    }
  }

  lemma EmptyStoreIsLedger(store: Store)
    requires store.rows == [] && store.relations == []
    ensures IsLedger(store)
  {
    assert forall x :: !IsLink(store.rows, x);
  }

  /**
   Every ledger a run reaches from an empty one revalidates, with the last manifest committed as current. No
   clock is read, so this holds after earlier manifests expire.
   */
  lemma ReachableHistoryValidates(store: Store, events: seq<Event>)
    requires store.rows == [] && store.relations == [] && Honest(events)
    ensures var after := Run(store, events);
      && IsLedger(after)
      && ValidateHistory(after) == Success(History(IndexRows(after.rows), Last(after.rows)))
  {
    EmptyStoreIsLedger(store);
    RunKeepsLedger(store, events);
  }
}

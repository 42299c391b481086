/**
 Why a manifest history does not validate: the fault that is reported is there
 (src/openworkproof/binding_transactions.py:496-638).
 */
module ManifestFaults {
  import opened Collections
  import opened BindingCommit
  import opened ManifestHistory

  ghost predicate SomeRow(rows: seq<Row>, id: Digest) {
    exists r :: r in rows && r.manifest.id == id
  }

  /** Two relations have the same child or the same parent. */
  ghost predicate Forked(relations: seq<Relation>) {
    exists i, j :: 0 <= i < j < |relations|
      && (relations[i].child == relations[j].child || relations[i].parent == relations[j].parent)
  }

  ghost predicate Dangling(rows: seq<Row>, x: Relation) {
    !SomeRow(rows, x.child) || !SomeRow(rows, x.parent)
  }

  /** Both rows are there, and the child does not supersede the parent as the relation says. */
  ghost predicate Mismatched(rows: seq<Row>, x: Relation) {
    exists child, parent ::
      && child in rows && parent in rows && child.manifest.id == x.child && parent.manifest.id == x.parent
      && !(parent.manifest.digest == x.parentDigest && Supersedes(child, parent))
  }

  ghost predicate IsRoot(rows: seq<Row>, r: Row) {
    r in rows && r.manifest.supersedes.None?
  }

  /** What each fault says of the tables. */
  ghost predicate FaultHolds(store: Store, fault: HistoryFault) {
    match fault
    case InvalidRow => exists r :: r in store.rows && !RowValid(store, r)
    case RelationsWithoutObjects => store.rows == [] && store.relations != []
    case RelationCount => store.rows != [] && |store.relations| != |store.rows| - 1
    case ForkOrDangling => Forked(store.relations) || exists x :: x in store.relations && Dangling(store.rows, x)
    case RelationMismatch => exists x :: x in store.relations && Mismatched(store.rows, x)
    case NotOneRoot =>
      !exists root :: IsRoot(store.rows, root) && (forall r :: IsRoot(store.rows, r) ==> r == root)
                      && forall x :: x in store.relations ==> x.child != root.manifest.id
    case Cycle => false
    case Disconnected => false
  }

  lemma {:induction false} RelationFaultIsTrue(rows: seq<Row>, relations: seq<Relation>)
    requires Keyed(rows)
    ensures var r := IndexRelations(IndexRows(rows), relations);
      r.Failure? ==>
        || (r.error == ForkOrDangling && (Forked(relations) || exists x :: x in relations && Dangling(rows, x)))
        || (r.error == RelationMismatch && exists x :: x in relations && Mismatched(rows, x))
  {
    if relations != [] {
      var n := |relations| - 1;
      var rest, last := relations[..n], relations[n];
      RelationFaultIsTrue(rows, rest);
      assert relations == rest + [last];
      var links := IndexRelations(IndexRows(rows), rest);
      if links.Success? {
        LastRelationFaultIsTrue(rows, rest, links.value, last);
      } else if Forked(rest) {
        ForkedLonger(rest, last);
      }
    }
  }

  lemma ForkedLonger(rest: seq<Relation>, last: Relation)
    requires Forked(rest)
    ensures Forked(rest + [last])
  {
    var i, j :| 0 <= i < j < |rest| && (rest[i].child == rest[j].child || rest[i].parent == rest[j].parent);
    assert (rest + [last])[i] == rest[i] && (rest + [last])[j] == rest[j];
  }

  lemma RepeatedEnd(rest: seq<Relation>, last: Relation, x: Relation)
    requires x in rest && (x.child == last.child || x.parent == last.parent)
    ensures Forked(rest + [last])
  {
    var i :| 0 <= i < |rest| && rest[i] == x;
    assert (rest + [last])[i] == x && (rest + [last])[|rest|] == last;
  }

  lemma LastRelationFaultIsTrue(rows: seq<Row>, rest: seq<Relation>, links: Links, last: Relation)
    requires Keyed(rows) && IndexRelations(IndexRows(rows), rest) == Success(links)
    ensures var fault := CheckRelation(IndexRows(rows), links, last);
      && (fault == Some(ForkOrDangling) ==> Forked(rest + [last]) || Dangling(rows, last))
      && (fault == Some(RelationMismatch) ==> Mismatched(rows, last))
      && (fault.Some? ==> fault.value in {ForkOrDangling, RelationMismatch})
  {
    IndexRowsFacts(rows);
    IndexRelationsFacts(IndexRows(rows), rest, links);
    if last.child in links.parentOf {
      var x :| x in rest && x.child == last.child;
      RepeatedEnd(rest, last, x);
    }
    if last.parent in links.childOf {
      var x :| x in rest && x.parent == last.parent;
      RepeatedEnd(rest, last, x);
    }
  }

  lemma RootFaultIsTrue(rows: seq<Row>, relations: seq<Relation>, links: Links)
    requires Keyed(rows) && IndexRelations(IndexRows(rows), relations) == Success(links)
    requires |Roots(rows)| != 1 || Roots(rows)[0].manifest.id in links.parentOf
    ensures !exists root :: IsRoot(rows, root) && (forall r :: IsRoot(rows, r) ==> r == root)
                            && forall x :: x in relations ==> x.child != root.manifest.id
  {
    IndexRelationsFacts(IndexRows(rows), relations, links);
    RootsMembers(rows);
    assert NoDup(rows);
    if exists root :: IsRoot(rows, root) && (forall r :: IsRoot(rows, r) ==> r == root)
                      && forall x :: x in relations ==> x.child != root.manifest.id
    {
      var root :| IsRoot(rows, root) && (forall r :: IsRoot(rows, r) ==> r == root)
                  && forall x :: x in relations ==> x.child != root.manifest.id;
      assert forall r :: r in Roots(rows) ==> IsRoot(rows, r);
      OnlyElement(Roots(rows), root);
    }
  }

  lemma {:induction false} WalkErrors(byId: map<Digest, Row>, links: Links, current: Row, visited: seq<Row>)
    requires Closed(byId, links) && current.manifest.id in byId
    ensures var r := Walk(byId, links, current, visited); r.Failure? ==> r.error == Cycle
    decreases byId.Keys - RowIds(visited)
  {
    var id := current.manifest.id;
    if id !in RowIds(visited) && id in links.childOf {
      assert id in byId.Keys - RowIds(visited);
      assert RowIds(visited + [current]) == RowIds(visited) + {id};
      WalkErrors(byId, links, byId[links.childOf[id]], visited + [current]);
    }
  }

  /** What is left to fail once relations and root are in order is the walk, and that never does. */
  lemma NoWalkFault(store: Store, links: Links)
    requires Keyed(store.rows) && store.rows != [] && IndexRelations(IndexRows(store.rows), store.relations) == Success(links)
    requires |Roots(store.rows)| == 1
    requires |store.relations| == |store.rows| - 1 && forall r :: r in store.rows ==> RowValid(store, r)
    requires Roots(store.rows)[0].manifest.id !in links.parentOf
    ensures ValidateHistory(store).Success?
  {
    CycleAndDisconnectedNeverReported(store);
    IndexRowsFacts(store.rows);
    IndexRelationsFacts(IndexRows(store.rows), store.relations, links);
    RootsMembers(store.rows);
    assert Roots(store.rows)[0] in Roots(store.rows);
    WalkErrors(IndexRows(store.rows), links, Roots(store.rows)[0], []);
  }

  /** Whatever validation reports of the tables is true of them. */
  lemma FaultIsTrue(store: Store)
    requires Keyed(store.rows)
    ensures ValidateHistory(store).Failure? ==> FaultHolds(store, ValidateHistory(store).error)
  {
    RelationFaultIsTrue(store.rows, store.relations);
    var links := IndexRelations(IndexRows(store.rows), store.relations);
    if links.Success? {
      if |Roots(store.rows)| != 1 || Roots(store.rows)[0].manifest.id in links.value.parentOf {
        RootFaultIsTrue(store.rows, store.relations, links.value);
      } else if store.rows != [] && |store.relations| == |store.rows| - 1 && forall r :: r in store.rows ==> RowValid(store, r) {
        NoWalkFault(store, links.value);
      }
    }
  }
}

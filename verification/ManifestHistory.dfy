/**
 Action binding manifests (src/openworkproof/binding_transactions.py): a history of manifests and
 supersession relations is revalidated from the tables on every use, its current manifest is found by a
 walk, and an earlier manifest is looked up as of an instant.
 */
module ManifestHistory {
  import opened Collections
  import opened BindingCommit

  datatype Manifest = Manifest(
    id: Digest,
    digest: Digest,
    workOrderDigest: Digest,
    judgment: Reference,
    scope: Reference,
    supersedes: Option<Reference>,
    causalParents: seq<Digest>,
    createdAt: nat,
    expiresAt: nat,
    nonce: Digest,
    signerKeyId: nat)

  datatype AdapterProfile = AdapterProfile(digest: Digest, canonicalJson: string)

  datatype Scope = Scope(id: Digest, digest: Digest, createdAt: nat, expiresAt: nat)

  datatype Row = Row(manifest: Manifest, profile: AdapterProfile, committedAt: nat)

  datatype Relation = Relation(child: Digest, parent: Digest, parentDigest: Digest)

  /**
   The work order, its times, and the part of manifest validation that does not look at the clock:
   signatures, digest chains, and the tool, action, path and test constraints.
   */
  datatype WorkOrder = WorkOrder(
    digest: Digest, issuedAt: nat, deadline: nat,
    admits: (Manifest, Judgment, Scope, AdapterProfile) -> bool)

  datatype Store = Store(
    workOrder: WorkOrder,
    judgments: map<Digest, JudgmentRow>,
    scopes: map<Digest, Scope>,
    rows: seq<Row>,
    relations: seq<Relation>)

  datatype HistoryFault =
    | InvalidRow
    | RelationsWithoutObjects
    | RelationCount
    | ForkOrDangling
    | RelationMismatch
    | NotOneRoot
    | Cycle
    | Disconnected

  /** The validators of the manifest object itself. */
  predicate WellFormed(manifest: Manifest) {
    && manifest.createdAt < manifest.expiresAt
    && manifest.causalParents == (if manifest.supersedes.Some? then [manifest.supersedes.value.id] else [])
  }

  /** A manifest with its authorities, checked at the second it was committed, not now. */
  predicate ValidAt(store: Store, manifest: Manifest, profile: AdapterProfile, at: nat) {
    && manifest.workOrderDigest == store.workOrder.digest
    && manifest.judgment.id in store.judgments
    && manifest.scope.id in store.scopes
    && var (judgment, scope) := (store.judgments[manifest.judgment.id], store.scopes[manifest.scope.id]);
    && judgment.judgment.id == manifest.judgment.id && judgment.judgment.digest == manifest.judgment.digest
    && judgment.judgment.validFrom <= judgment.committedAt < judgment.judgment.expiresAt
    && scope.id == manifest.scope.id && scope.digest == manifest.scope.digest
    && judgment.committedAt <= at
    && store.workOrder.admits(manifest, judgment.judgment, scope, profile)
    && store.workOrder.issuedAt <= manifest.createdAt
    && scope.createdAt <= manifest.createdAt
    && judgment.judgment.validFrom <= manifest.createdAt
    && judgment.judgment.validFrom <= at < judgment.judgment.expiresAt
    && scope.createdAt <= at < scope.expiresAt
    && manifest.createdAt <= at < manifest.expiresAt
    && manifest.expiresAt <= judgment.judgment.expiresAt
    && manifest.expiresAt <= scope.expiresAt
    && manifest.expiresAt <= store.workOrder.deadline
  }

  predicate RowValid(store: Store, row: Row) {
    WellFormed(row.manifest) && ValidAt(store, row.manifest, row.profile, row.committedAt)
  }

  /** The primary key of the manifest table. */
  ghost predicate Keyed(rows: seq<Row>) {
    forall i, j :: 0 <= i < j < |rows| ==> rows[i].manifest.id != rows[j].manifest.id
  }

  function IndexRows(rows: seq<Row>): map<Digest, Row> {
    if rows == [] then map[]
    else IndexRows(rows[..|rows| - 1])[rows[|rows| - 1].manifest.id := rows[|rows| - 1]]
  }

  /** `childOf` maps a superseded manifest to its successor, `parentOf` the other way. */
  datatype Links = Links(childOf: map<Digest, Digest>, parentOf: map<Digest, Digest>)

  predicate Supersedes(child: Row, parent: Row) {
    && child.manifest.supersedes == Some(Reference(parent.manifest.id, parent.manifest.digest))
    && child.manifest.causalParents == [parent.manifest.id]
    && parent.manifest.createdAt < child.manifest.createdAt
    && parent.committedAt <= child.committedAt
  }

  predicate RowsAgree(byId: map<Digest, Row>, relation: Relation) {
    && relation.child in byId && relation.parent in byId
    && byId[relation.parent].manifest.digest == relation.parentDigest
    && Supersedes(byId[relation.child], byId[relation.parent])
  }

  function CheckRelation(byId: map<Digest, Row>, links: Links, relation: Relation): Option<HistoryFault> {
    if relation.child !in byId || relation.parent !in byId
       || relation.child in links.parentOf || relation.parent in links.childOf then Some(ForkOrDangling)
    else if !RowsAgree(byId, relation) then Some(RelationMismatch)
    else None
  }

  function AddLink(links: Links, x: Relation): Links {
    Links(links.childOf[x.parent := x.child], links.parentOf[x.child := x.parent])
  }

  function IndexRelations(byId: map<Digest, Row>, relations: seq<Relation>): Result<Links, HistoryFault> {
    if relations == [] then Success(Links(map[], map[]))
    else
      var last := relations[|relations| - 1];
      var links :- IndexRelations(byId, relations[..|relations| - 1]);
      match CheckRelation(byId, links, last)
      case Some(fault) => Failure(fault)
      case None => Success(AddLink(links, last))
  }

  function Roots(rows: seq<Row>): seq<Row> {
    if rows == [] then []
    else
      var n := |rows| - 1;
      Roots(rows[..n]) + if rows[n].manifest.supersedes.None? then [rows[n]] else []
  }

  function RowIds(rows: seq<Row>): set<Digest> {
    set r | r in rows :: r.manifest.id
  }

  predicate Closed(byId: map<Digest, Row>, links: Links) {
    && (forall id | id in byId :: byId[id].manifest.id == id)
    && (forall parent | parent in links.childOf :: links.childOf[parent] in byId)
  }

  function Walk(byId: map<Digest, Row>, links: Links, current: Row, visited: seq<Row>): Result<seq<Row>, HistoryFault>
    requires Closed(byId, links) && current.manifest.id in byId
    decreases byId.Keys - RowIds(visited)
  {
    var id := current.manifest.id;
    if id in RowIds(visited) then Failure(Cycle)
    else
      assert id in byId.Keys - RowIds(visited);
      assert RowIds(visited + [current]) == RowIds(visited) + {id};
      if id !in links.childOf then Success(visited + [current])
      else Walk(byId, links, byId[links.childOf[id]], visited + [current])
  }

  datatype History = History(byId: map<Digest, Row>, current: Option<Row>)

  function ValidateHistory(store: Store): Result<History, HistoryFault> {
    if exists r :: r in store.rows && !RowValid(store, r) then Failure(InvalidRow)
    else if store.rows == [] then
      if store.relations != [] then Failure(RelationsWithoutObjects) else Success(History(map[], None))
    else if |store.relations| != |store.rows| - 1 then Failure(RelationCount)
    else
      var byId := IndexRows(store.rows);
      var links :- IndexRelations(byId, store.relations);
      var roots := Roots(store.rows);
      if |roots| != 1 || roots[0].manifest.id in links.parentOf then Failure(NotOneRoot)
      else
        assert Closed(byId, links) && roots[0].manifest.id in byId by {
          IndexRowsFacts(store.rows);
          IndexRelationsFacts(byId, store.relations, links);
          RootsMembers(store.rows);
          assert roots[0] in roots;
        }
        var chain :- Walk(byId, links, roots[0], []);
        if chain == [] || |chain| != |byId| then Failure(Disconnected)
        else Success(History(byId, Some(chain[|chain| - 1])))
  }

  // ----- what a valid history is: one chain -----------------------------------------

  ghost predicate Joined(chain: seq<Row>, i: int) {
    0 <= i < |chain| - 1 && Supersedes(chain[i + 1], chain[i])
  }

  ghost predicate IsChain(chain: seq<Row>) {
    && Keyed(chain)
    && (chain != [] ==> chain[0].manifest.supersedes == None)
    && (forall i {:trigger Joined(chain, i)} :: 0 <= i < |chain| - 1 ==> Joined(chain, i))
  }

  function RelationOf(child: Row, parent: Row): Relation {
    Relation(child.manifest.id, parent.manifest.id, parent.manifest.digest)
  }

  ghost predicate LinkAt(chain: seq<Row>, x: Relation, i: int) {
    0 <= i < |chain| - 1 && x == RelationOf(chain[i + 1], chain[i])
  }

  ghost predicate IsLink(chain: seq<Row>, x: Relation) {
    exists i :: LinkAt(chain, x, i)
  }

  ghost predicate RelationsForm(relations: seq<Relation>, chain: seq<Row>) {
    && |relations| == (if chain == [] then 0 else |chain| - 1)
    && NoDup(relations)
    && (forall x :: x in relations <==> IsLink(chain, x))
  }

  ghost predicate RowsForm(rows: seq<Row>, chain: seq<Row>) {
    IsChain(chain) && |chain| == |rows| && forall r :: r in chain <==> r in rows
  }

  /** The rows, each valid when committed, are one chain, and the relation table is its links. */
  ghost predicate FormsChain(store: Store, chain: seq<Row>) {
    && (forall r :: r in store.rows ==> RowValid(store, r))
    && RowsForm(store.rows, chain)
    && RelationsForm(store.relations, chain)
  }

  function Last(chain: seq<Row>): Option<Row> {
    if chain == [] then None else Some(chain[|chain| - 1])
  }

  // ----- facts about the passes -----------------------------------------------------

  lemma {:induction false} IndexRowsFacts(rows: seq<Row>)
    ensures IndexRows(rows).Keys == RowIds(rows)
    ensures forall id :: id in IndexRows(rows) ==> IndexRows(rows)[id] in rows && IndexRows(rows)[id].manifest.id == id
    ensures Keyed(rows) ==> forall r :: r in rows ==> IndexRows(rows)[r.manifest.id] == r
  {
    if rows != [] {
      var n := |rows| - 1;
      IndexRowsFacts(rows[..n]);
      assert rows == rows[..n] + [rows[n]];
    }
  }

  function ChildIds(relations: seq<Relation>): set<Digest> {
    set x | x in relations :: x.child
  }

  function ParentIds(relations: seq<Relation>): set<Digest> {
    set x | x in relations :: x.parent
  }

  ghost predicate InBothIndexes(links: Links, x: Relation) {
    && x.child in links.parentOf && links.parentOf[x.child] == x.parent
    && x.parent in links.childOf && links.childOf[x.parent] == x.child
  }

  ghost predicate Linked(byId: map<Digest, Row>, relations: seq<Relation>, links: Links) {
    && links.parentOf.Keys == ChildIds(relations)
    && links.childOf.Keys == ParentIds(relations)
    && (forall x :: x in relations ==> InBothIndexes(links, x) && RowsAgree(byId, x))
  }

  lemma AddLinkKeeps(links: Links, last: Relation, x: Relation)
    requires InBothIndexes(links, x) && last.child !in links.parentOf && last.parent !in links.childOf
    ensures InBothIndexes(AddLink(links, last), x) && x != last
  {
  }

  lemma IdsOfOneMore(relations: seq<Relation>, last: Relation)
    ensures ChildIds(relations + [last]) == ChildIds(relations) + {last.child}
    ensures ParentIds(relations + [last]) == ParentIds(relations) + {last.parent}
  {
    forall x
      ensures x in relations + [last] <==> x in relations || x == last
    {
    }
  }

  lemma KeyAdded(m: map<Digest, Digest>, key: Digest, value: Digest)
    ensures m[key := value].Keys == m.Keys + {key}
    ensures key !in m ==> |m[key := value]| == |m| + 1
  {
    assert |m[key := value]| == |m[key := value].Keys| && |m| == |m.Keys|;
  }

  lemma AddLinkKeys(relations: seq<Relation>, links: Links, last: Relation)
    requires links.parentOf.Keys == ChildIds(relations) && links.childOf.Keys == ParentIds(relations)
    requires last.child !in links.parentOf
    ensures AddLink(links, last).parentOf.Keys == ChildIds(relations + [last])
    ensures AddLink(links, last).childOf.Keys == ParentIds(relations + [last])
    ensures |AddLink(links, last).parentOf| == |links.parentOf| + 1
  {
    IdsOfOneMore(relations, last);
    KeyAdded(links.parentOf, last.child, last.parent);
    KeyAdded(links.childOf, last.parent, last.child);
  }

  lemma LinkOneMore(byId: map<Digest, Row>, relations: seq<Relation>, links: Links, last: Relation)
    requires Linked(byId, relations, links)
    requires last.child !in links.parentOf && last.parent !in links.childOf && RowsAgree(byId, last)
    ensures Linked(byId, relations + [last], AddLink(links, last))
    ensures last !in relations
  {
    var more := AddLink(links, last);
    AddLinkKeys(relations, links, last);
    forall x | x in relations + [last]
      ensures InBothIndexes(more, x) && RowsAgree(byId, x)
    {
      if x in relations {
        AddLinkKeeps(links, last, x);
      }
    }
    assert last.child !in ChildIds(relations);
  }

  lemma NoDupOneMore(relations: seq<Relation>, last: Relation)
    requires NoDup(relations) && last !in relations
    ensures NoDup(relations + [last])
  {
  }

  lemma {:induction false} IndexRelationsFacts(byId: map<Digest, Row>, relations: seq<Relation>, links: Links)
    requires IndexRelations(byId, relations) == Success(links)
    ensures Linked(byId, relations, links)
    ensures |links.parentOf| == |relations|
    ensures NoDup(relations)
  {
    if relations != [] {
      var rest, last := relations[..|relations| - 1], relations[|relations| - 1];
      assert relations == rest + [last];
      var before := IndexRelations(byId, rest).value;
      IndexRelationsFacts(byId, rest, before);
      LinkOneMore(byId, rest, before, last);
      AddLinkKeys(rest, before, last);
      NoDupOneMore(rest, last);
    }
  }

  lemma {:induction false} RootsMembers(rows: seq<Row>)
    ensures forall r :: r in Roots(rows) <==> r in rows && r.manifest.supersedes.None?
    ensures NoDup(rows) ==> NoDup(Roots(rows))
  {
    if rows != [] {
      var n := |rows| - 1;
      RootsMembers(rows[..n]);
      assert rows == rows[..n] + [rows[n]];
    }
  }

  lemma ExtendChain(chain: seq<Row>, next: Row)
    requires IsChain(chain) && chain != []
    requires Supersedes(next, chain[|chain| - 1])
    requires forall r :: r in chain ==> r.manifest.id != next.manifest.id
    ensures IsChain(chain + [next])
  {
    var longer := chain + [next];
    forall i, j | 0 <= i < j < |longer|
      ensures longer[i].manifest.id != longer[j].manifest.id
    {
      assert chain[i] in chain;
    }
    forall i | 0 <= i < |longer| - 1
      ensures Joined(longer, i)
    {
      assert i < |chain| - 1 ==> Joined(chain, i);
    }
  }

  /** Each round of the walk moves to a strictly later manifest, so it can never meet one again. */
  lemma {:induction false} WalkIsChain(
    byId: map<Digest, Row>, relations: seq<Relation>, links: Links, current: Row, visited: seq<Row>)
    requires Linked(byId, relations, links) && Closed(byId, links)
    requires current.manifest.id in byId && byId[current.manifest.id] == current
    requires IsChain(visited + [current])
    requires forall r :: r in visited ==> r.manifest.createdAt < current.manifest.createdAt
                                          && r.manifest.id in byId && byId[r.manifest.id] == r
    ensures var w := Walk(byId, links, current, visited);
      && w.Success? && IsChain(w.value) && visited + [current] <= w.value
      && (forall r :: r in w.value ==> r.manifest.id in byId && byId[r.manifest.id] == r)
      && w.value[|w.value| - 1].manifest.id !in links.childOf
    decreases byId.Keys - RowIds(visited)
  {
    var id := current.manifest.id;
    assert id !in RowIds(visited);
    assert id in byId.Keys - RowIds(visited);
    assert RowIds(visited + [current]) == RowIds(visited) + {id};
    if id in links.childOf {
      var next := byId[links.childOf[id]];
      ChildSupersedes(byId, relations, links, id);
      ExtendChain(visited + [current], next);
      WalkIsChain(byId, relations, links, next, visited + [current]);
    }
  }

  lemma ChildSupersedes(byId: map<Digest, Row>, relations: seq<Relation>, links: Links, id: Digest)
    requires Linked(byId, relations, links) && id in links.childOf
    ensures id in byId && links.childOf[id] in byId && Supersedes(byId[links.childOf[id]], byId[id])
  {
    assert id in ParentIds(relations);
    var x :| x in relations && x.parent == id;
    assert InBothIndexes(links, x) && RowsAgree(byId, x);
  }

  /** With one root and one relation fewer than rows, every other row is some relation's child. */
  lemma EveryOtherRowIsChild(byId: map<Digest, Row>, relations: seq<Relation>, links: Links, root: Digest)
    requires Linked(byId, relations, links) && |links.parentOf| == |relations|
    requires root in byId && root !in links.parentOf && |relations| == |byId| - 1
    ensures links.parentOf.Keys == byId.Keys - {root}
  {
    assert links.parentOf.Keys <= byId.Keys - {root};
    assert |byId.Keys - {root}| == |byId| - 1;
    SubsetOfSameSize(links.parentOf.Keys, byId.Keys - {root});
  }

  ghost predicate Follows(links: Links, chain: seq<Row>, i: int) {
    && 0 <= i < |chain| - 1
    && chain[i].manifest.id in links.childOf
    && links.childOf[chain[i].manifest.id] == chain[i + 1].manifest.id
  }

  ghost predicate LinksFollow(links: Links, chain: seq<Row>) {
    forall i {:trigger Follows(links, chain, i)} :: 0 <= i < |chain| - 1 ==> Follows(links, chain, i)
  }

  lemma {:induction false} ChainCovers(
    byId: map<Digest, Row>, relations: seq<Relation>, links: Links, chain: seq<Row>, id: Digest)
    requires Linked(byId, relations, links) && Closed(byId, links)
    requires chain != [] && IsChain(chain)
    requires forall r :: r in chain ==> r.manifest.id in byId && byId[r.manifest.id] == r
    requires chain[|chain| - 1].manifest.id !in links.childOf
    requires LinksFollow(links, chain)
    requires links.parentOf.Keys == byId.Keys - {chain[0].manifest.id}
    requires id in byId
    ensures byId[id] in chain
    decreases byId[id].manifest.createdAt
  {
    if id == chain[0].manifest.id {
      assert chain[0] in chain;
    } else {
      assert id in ChildIds(relations);
      var x :| x in relations && x.child == id;
      assert InBothIndexes(links, x) && RowsAgree(byId, x);
      ChainCovers(byId, relations, links, chain, x.parent);
      var i :| 0 <= i < |chain| && chain[i] == byId[x.parent];
      assert Follows(links, chain, i);
      assert chain[i + 1] in chain;
    }
  }

  lemma {:induction false} WalkFollowsLinks(byId: map<Digest, Row>, links: Links, current: Row, visited: seq<Row>)
    requires Closed(byId, links) && current.manifest.id in byId
    requires Walk(byId, links, current, visited).Success?
    requires LinksFollow(links, visited + [current])
    ensures LinksFollow(links, Walk(byId, links, current, visited).value)
    decreases byId.Keys - RowIds(visited)
  {
    var id := current.manifest.id;
    assert id in byId.Keys - RowIds(visited);
    assert RowIds(visited + [current]) == RowIds(visited) + {id};
    if id in links.childOf {
      var next := byId[links.childOf[id]];
      var longer := visited + [current] + [next];
      forall i | 0 <= i < |longer| - 1
        ensures Follows(links, longer, i)
      {
        assert i < |visited| ==> Follows(links, visited + [current], i);
      }
      WalkFollowsLinks(byId, links, next, visited + [current]);
    }
  }

  /** What the row, count, relation and root checks establish together. */
  ghost predicate PassesAgree(store: Store, byId: map<Digest, Row>, links: Links, root: Row) {
    && Keyed(store.rows) && byId == IndexRows(store.rows)
    && |store.relations| == |store.rows| - 1
    && IndexRelations(byId, store.relations) == Success(links)
    && root in store.rows && root.manifest.supersedes.None?
    && root.manifest.id !in links.parentOf
  }

  lemma {:induction false} RowIdsSize(rows: seq<Row>)
    requires Keyed(rows)
    ensures |RowIds(rows)| == |rows|
  {
    if rows != [] {
      var rest, last := rows[..|rows| - 1], rows[|rows| - 1];
      assert rows == rest + [last];
      RowIdsSize(rest);
      RowIdsAppend(rest, last);
      NewRowId(rest, last);
    }
  }

  lemma NewRowId(rows: seq<Row>, last: Row)
    requires Keyed(rows + [last])
    ensures last.manifest.id !in RowIds(rows)
  {
    var grown := rows + [last];
    forall r | r in rows
      ensures r.manifest.id != last.manifest.id
    {
      var i :| 0 <= i < |rows| && rows[i] == r;
      assert grown[i] == r && grown[|rows|] == last;
    }
  }

  lemma RowIdsAppend(rows: seq<Row>, last: Row)
    ensures RowIds(rows + [last]) == RowIds(rows) + {last.manifest.id}
  {
    assert forall r :: r in rows + [last] <==> r in rows || r == last;
    assert last in rows + [last];
  }

  lemma KeyedSize(rows: seq<Row>)
    requires Keyed(rows)
    ensures |IndexRows(rows)| == |rows| && |RowIds(rows)| == |rows|
  {
    IndexRowsFacts(rows);
    RowIdsSize(rows);
    assert |IndexRows(rows)| == |IndexRows(rows).Keys|;
  }

  /** After those checks the walk always succeeds and passes every row: nothing is left for the last two checks. */
  lemma WalkReachesEveryRow(store: Store, byId: map<Digest, Row>, links: Links, root: Row) returns (chain: seq<Row>)
    requires PassesAgree(store, byId, links, root)
    ensures Closed(byId, links) && root.manifest.id in byId
    ensures Walk(byId, links, root, []) == Success(chain) && chain != []
    ensures IsChain(chain) && |chain| == |store.rows| == |byId|
    ensures forall r :: r in chain <==> r in store.rows
    ensures LinksFollow(links, chain)
    ensures chain[|chain| - 1].manifest.id !in links.childOf
  {
    PassesLink(store, byId, links, root);
    KeyedSize(store.rows);
    chain := WalkOfRoot(byId, store.relations, links, root);
    EveryOtherRowIsChild(byId, store.relations, links, root.manifest.id);
    ChainIsEveryRow(store, byId, links, chain);
    ChainLength(chain, store.rows);
  }

  lemma WalkOfRoot(byId: map<Digest, Row>, relations: seq<Relation>, links: Links, root: Row) returns (chain: seq<Row>)
    requires Linked(byId, relations, links) && Closed(byId, links)
    requires root.manifest.id in byId && byId[root.manifest.id] == root && root.manifest.supersedes.None?
    ensures Walk(byId, links, root, []) == Success(chain) && chain != [] && chain[0] == root
    ensures IsChain(chain) && LinksFollow(links, chain)
    ensures forall r :: r in chain ==> r.manifest.id in byId && byId[r.manifest.id] == r
    ensures chain[|chain| - 1].manifest.id !in links.childOf
  {
    OneRowIsChain(root);
    WalkIsChain(byId, relations, links, root, []);
    chain := Walk(byId, links, root, []).value;
    assert chain[0] == root by {
      assert chain[0] == chain[..1][0] && [] + [root] <= chain;
    }
    WalkFollowsLinks(byId, links, root, []);
  }

  lemma OneRowIsChain(root: Row)
    requires root.manifest.supersedes.None?
    ensures IsChain([] + [root])
  {
  }

  lemma PassesLink(store: Store, byId: map<Digest, Row>, links: Links, root: Row)
    requires PassesAgree(store, byId, links, root)
    ensures Linked(byId, store.relations, links) && Closed(byId, links)
    ensures |links.parentOf| == |store.relations|
    ensures root.manifest.id in byId && byId[root.manifest.id] == root
  {
    IndexRowsFacts(store.rows);
    IndexRelationsFacts(byId, store.relations, links);
    LinksClosed(store.rows, store.relations, links);
  }

  lemma ChainIsEveryRow(store: Store, byId: map<Digest, Row>, links: Links, chain: seq<Row>)
    requires Keyed(store.rows) && byId == IndexRows(store.rows)
    requires Linked(byId, store.relations, links) && Closed(byId, links)
    requires chain != [] && IsChain(chain) && LinksFollow(links, chain)
    requires forall r :: r in chain ==> r.manifest.id in byId && byId[r.manifest.id] == r
    requires chain[|chain| - 1].manifest.id !in links.childOf
    requires links.parentOf.Keys == byId.Keys - {chain[0].manifest.id}
    ensures forall r :: r in chain <==> r in store.rows
  {
    IndexRowsFacts(store.rows);
    forall r
      ensures r in chain <==> r in store.rows
    {
      if r in store.rows {
        ChainCovers(byId, store.relations, links, chain, r.manifest.id);
      }
    }
  }

  lemma ChainLength(chain: seq<Row>, rows: seq<Row>)
    requires IsChain(chain) && Keyed(rows) && forall r :: r in chain <==> r in rows
    ensures |chain| == |rows|
  {
    KeyedSize(chain);
    KeyedSize(rows);
    assert RowIds(chain) == RowIds(rows);
  }

  lemma ValidHistoryIsChain(store: Store) returns (chain: seq<Row>)
    requires Keyed(store.rows) && ValidateHistory(store).Success?
    ensures FormsChain(store, chain)
    ensures ValidateHistory(store) == Success(History(IndexRows(store.rows), Last(chain)))
  {
    if store.rows == [] {
      chain := [];
    } else {
      var byId := IndexRows(store.rows);
      var links := IndexRelations(byId, store.relations).value;
      var roots := Roots(store.rows);
      RootsMembers(store.rows);
      assert roots[0] in roots;
      chain := WalkReachesEveryRow(store, byId, links, roots[0]);
      RelationsAreLinks(store, byId, links, chain);
    }
  }

  lemma RelationsAreLinks(store: Store, byId: map<Digest, Row>, links: Links, chain: seq<Row>)
    requires Keyed(store.rows) && byId == IndexRows(store.rows)
    requires IndexRelations(byId, store.relations) == Success(links)
    requires |store.relations| == |chain| - 1
    requires chain != [] && forall r :: r in chain <==> r in store.rows
    requires LinksFollow(links, chain)
    requires chain[|chain| - 1].manifest.id !in links.childOf
    ensures RelationsForm(store.relations, chain)
  {
    IndexRowsFacts(store.rows);
    IndexRelationsFacts(byId, store.relations, links);
    forall x | IsLink(chain, x)
      ensures x in store.relations
    {
      var i :| LinkAt(chain, x, i);
      assert Follows(links, chain, i);
      LinkIsRow(store, byId, links, chain, i);
    }
    forall x | x in store.relations
      ensures IsLink(chain, x)
    {
      assert InBothIndexes(links, x) && RowsAgree(byId, x);
      var i :| 0 <= i < |chain| && chain[i] == byId[x.parent];
      assert Follows(links, chain, i);
      assert LinkAt(chain, x, i);
    }
  }

  lemma LinkIsRow(store: Store, byId: map<Digest, Row>, links: Links, chain: seq<Row>, i: nat)
    requires Linked(byId, store.relations, links) && Follows(links, chain, i)
    requires chain[i].manifest.id in byId && byId[chain[i].manifest.id] == chain[i]
    ensures RelationOf(chain[i + 1], chain[i]) in store.relations
  {
    assert chain[i].manifest.id in ParentIds(store.relations);
    var x :| x in store.relations && x.parent == chain[i].manifest.id;
    assert InBothIndexes(links, x) && RowsAgree(byId, x);
  }

  /** The cycle and disconnected checks can never fire, whatever the tables hold. */
  lemma CycleAndDisconnectedNeverReported(store: Store)
    requires Keyed(store.rows)
    ensures ValidateHistory(store) != Failure(Cycle) && ValidateHistory(store) != Failure(Disconnected)
  {
    if store.rows != [] && (forall r :: r in store.rows ==> RowValid(store, r))
       && |store.relations| == |store.rows| - 1 {
      var byId := IndexRows(store.rows);
      var linked := IndexRelations(byId, store.relations);
      var roots := Roots(store.rows);
      RootsMembers(store.rows);
      RelationFaults(byId, store.relations);
      if linked.Success? && |roots| == 1 && roots[0].manifest.id !in linked.value.parentOf {
        assert roots[0] in roots;
        var chain := WalkReachesEveryRow(store, byId, linked.value, roots[0]);
      }
    }
  }

  lemma {:induction false} RelationFaults(byId: map<Digest, Row>, relations: seq<Relation>)
    ensures var r := IndexRelations(byId, relations); r.Failure? ==> r.error in {ForkOrDangling, RelationMismatch}
  {
    if relations != [] {
      RelationFaults(byId, relations[..|relations| - 1]);
    }
  }

  // ----- and one chain means a valid history -----------------------------------------

  lemma ChainLinkAgrees(rows: seq<Row>, chain: seq<Row>, x: Relation)
    requires RowsForm(rows, chain) && Keyed(rows) && IsLink(chain, x)
    ensures RowsAgree(IndexRows(rows), x)
  {
    var i :| LinkAt(chain, x, i);
    IndexRowsFacts(rows);
    assert chain[i] in chain && chain[i + 1] in chain;
    assert Joined(chain, i);
  }

  lemma ChainLinksDiffer(chain: seq<Row>, x: Relation, y: Relation)
    requires Keyed(chain) && IsLink(chain, x) && IsLink(chain, y) && x != y
    ensures x.child != y.child && x.parent != y.parent
  {
    var i :| LinkAt(chain, x, i);
    var j :| LinkAt(chain, y, j);
    assert i != j;
  }

  lemma {:induction false} ChainRelationsIndex(rows: seq<Row>, chain: seq<Row>, relations: seq<Relation>)
    requires RowsForm(rows, chain) && Keyed(rows)
    requires NoDup(relations) && forall x :: x in relations ==> IsLink(chain, x)
    ensures IndexRelations(IndexRows(rows), relations).Success?
    decreases |relations|
  {
    if relations != [] {
      var rest, last := relations[..|relations| - 1], relations[|relations| - 1];
      assert relations == rest + [last];
      assert last in relations && forall x :: x in rest ==> x in relations;
      ChainRelationsIndex(rows, chain, rest);
      LastLinkChecks(rows, chain, rest, last);
    }
  }

  lemma LastLinkChecks(rows: seq<Row>, chain: seq<Row>, rest: seq<Relation>, last: Relation)
    requires RowsForm(rows, chain) && Keyed(rows) && NoDup(rest + [last])
    requires IsLink(chain, last) && forall x :: x in rest ==> IsLink(chain, x)
    requires IndexRelations(IndexRows(rows), rest).Success?
    ensures CheckRelation(IndexRows(rows), IndexRelations(IndexRows(rows), rest).value, last) == None
  {
    IndexRelationsFacts(IndexRows(rows), rest, IndexRelations(IndexRows(rows), rest).value);
    ChainLinkAgrees(rows, chain, last);
    NewLink(chain, rest, last);
  }

  lemma NewLink(chain: seq<Row>, relations: seq<Relation>, last: Relation)
    requires Keyed(chain) && NoDup(relations + [last])
    requires IsLink(chain, last) && forall x :: x in relations ==> IsLink(chain, x)
    ensures last.child !in ChildIds(relations) && last.parent !in ParentIds(relations)
  {
    forall x | x in relations
      ensures x.child != last.child && x.parent != last.parent
    {
      var k :| 0 <= k < |relations| && relations[k] == x;
      assert (relations + [last])[k] == x && (relations + [last])[|relations|] == last;
      ChainLinksDiffer(chain, x, last);
    }
  }

  lemma ChainRoots(store: Store, chain: seq<Row>)
    requires FormsChain(store, chain) && Keyed(store.rows) && chain != []
    ensures Roots(store.rows) == [chain[0]]
  {
    RootsMembers(store.rows);
    forall r | r in chain && r.manifest.supersedes.None?
      ensures r == chain[0]
    {
      var i :| 0 <= i < |chain| && chain[i] == r;
      assert i > 0 ==> Joined(chain, i - 1);
    }
    assert chain[0] in chain;
    assert chain[0] in Roots(store.rows);
    assert NoDup(store.rows);
    OnlyElement(Roots(store.rows), chain[0]);
  }

  lemma {:induction false} WalkFollowsChain(
    byId: map<Digest, Row>, links: Links, chain: seq<Row>, i: nat)
    requires Closed(byId, links) && IsChain(chain) && i < |chain|
    requires forall k :: 0 <= k < |chain| ==> chain[k].manifest.id in byId && byId[chain[k].manifest.id] == chain[k]
    requires LinksFollow(links, chain)
    requires chain[|chain| - 1].manifest.id !in links.childOf
    ensures Walk(byId, links, chain[i], chain[..i]) == Success(chain)
    decreases |chain| - i
  {
    assert chain[..i] + [chain[i]] == chain[..i + 1];
    assert chain[i].manifest.id !in RowIds(chain[..i]);
    if i < |chain| - 1 {
      assert Follows(links, chain, i);
      WalkFollowsChain(byId, links, chain, i + 1);
    } else {
      assert chain[..i + 1] == chain;
    }
  }

  lemma ChainWalks(store: Store, chain: seq<Row>) returns (links: Links)
    requires FormsChain(store, chain) && Keyed(store.rows) && chain != []
    ensures IndexRelations(IndexRows(store.rows), store.relations) == Success(links)
    ensures Closed(IndexRows(store.rows), links)
    ensures Roots(store.rows) == [chain[0]] && chain[0].manifest.id !in links.parentOf
    ensures chain[0].manifest.id in IndexRows(store.rows)
    ensures Walk(IndexRows(store.rows), links, chain[0], []) == Success(chain)
    ensures |chain| == |IndexRows(store.rows)|
  {
    var byId := IndexRows(store.rows);
    IndexRowsFacts(store.rows);
    KeyedSize(store.rows);
    ChainRelationsIndex(store.rows, chain, store.relations);
    links := IndexRelations(byId, store.relations).value;
    IndexRelationsFacts(byId, store.relations, links);
    ChainRoots(store, chain);
    ChainLinks(store, chain, links);
    LinksClosed(store.rows, store.relations, links);
    WalkFollowsChain(byId, links, chain, 0);
    assert chain[..0] == [];
  }

  lemma LinksClosed(rows: seq<Row>, relations: seq<Relation>, links: Links)
    requires Linked(IndexRows(rows), relations, links)
    ensures Closed(IndexRows(rows), links)
  {
    IndexRowsFacts(rows);
    forall parent | parent in links.childOf
      ensures links.childOf[parent] in IndexRows(rows)
    {
      ChildSupersedes(IndexRows(rows), relations, links, parent);
    }
  }

  lemma ChainIsValid(store: Store, chain: seq<Row>)
    requires FormsChain(store, chain) && Keyed(store.rows)
    ensures ValidateHistory(store) == Success(History(IndexRows(store.rows), Last(chain)))
  {
    if chain == [] {
      assert store.rows == [];
    } else {
      var links := ChainWalks(store, chain);
    }
  }

  lemma LinkIndexed(store: Store, chain: seq<Row>, links: Links, k: nat)
    requires RelationsForm(store.relations, chain) && k < |chain| - 1
    requires Linked(IndexRows(store.rows), store.relations, links)
    ensures Follows(links, chain, k)
  {
    var x := RelationOf(chain[k + 1], chain[k]);
    assert LinkAt(chain, x, k);
    assert IsLink(chain, x);
    assert InBothIndexes(links, x);
  }

  lemma LinkIsInside(chain: seq<Row>, x: Relation)
    requires Keyed(chain) && chain != [] && IsLink(chain, x)
    ensures x.parent != chain[|chain| - 1].manifest.id && x.child != chain[0].manifest.id
  {
    var i :| LinkAt(chain, x, i);
  }

  lemma ChainLinks(store: Store, chain: seq<Row>, links: Links)
    requires FormsChain(store, chain) && Keyed(store.rows) && chain != []
    requires Linked(IndexRows(store.rows), store.relations, links)
    ensures forall k :: 0 <= k < |chain| ==>
      chain[k].manifest.id in IndexRows(store.rows) && IndexRows(store.rows)[chain[k].manifest.id] == chain[k]
    ensures LinksFollow(links, chain)
    ensures chain[|chain| - 1].manifest.id !in links.childOf
    ensures chain[0].manifest.id !in links.parentOf
  {
    IndexRowsFacts(store.rows);
    forall k | 0 <= k < |chain|
      ensures chain[k].manifest.id in IndexRows(store.rows) && IndexRows(store.rows)[chain[k].manifest.id] == chain[k]
    {
      assert chain[k] in chain;
    }
    forall k | 0 <= k < |chain| - 1
      ensures Follows(links, chain, k)
    {
      LinkIndexed(store, chain, links, k);
    }
    ChainEnds(store, chain, links);
  }

  lemma ChainEnds(store: Store, chain: seq<Row>, links: Links)
    requires FormsChain(store, chain) && chain != []
    requires Linked(IndexRows(store.rows), store.relations, links)
    ensures chain[|chain| - 1].manifest.id !in links.childOf
    ensures chain[0].manifest.id !in links.parentOf
  {
    forall x | x in store.relations
      ensures x.parent != chain[|chain| - 1].manifest.id && x.child != chain[0].manifest.id
    {
      LinkIsInside(chain, x);
    }
  }

  /** A history validates exactly when its rows form one chain whose links are the relation table. */
  lemma ValidIffChain(store: Store)
    requires Keyed(store.rows)
    ensures ValidateHistory(store).Success? <==> exists chain :: FormsChain(store, chain)
    ensures forall chain | FormsChain(store, chain) ::
      ValidateHistory(store) == Success(History(IndexRows(store.rows), Last(chain)))
  {
    if ValidateHistory(store).Success? {
      var chain := ValidHistoryIsChain(store);
    }
    forall chain | FormsChain(store, chain)
      ensures ValidateHistory(store) == Success(History(IndexRows(store.rows), Last(chain)))
    {
      ChainIsValid(store, chain);
    }
  }
}

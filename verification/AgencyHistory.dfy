/**
 Human agency profiles, the transitions that supersede or revoke them, and the
 resolver that turns a supplied history into one current profile
 (src/openworkproof/agency.py).

 Digests and ids are 64 hexadecimal digits, so ordering them as text is ordering
 them as numbers; they are natural numbers here. A signature is symbolic: the key
 that made it, the signing domain and the digest it covers.
 */
module AgencyHistory {
  import opened Collections

  type Digest = nat
  type KeyId = nat
  type Instant = int
  type Tool = string

  datatype Role = Maintainer | Manager | Developer | Verifier | Sidecar | Acceptor

  datatype Domain = ProfileDomain | TransitionDomain | AppealDomain | BundleDomain

  datatype Signature = Signature(signer: KeyId, domain: Domain, covers: Digest)

  datatype KeyBinding = KeyBinding(role: Role, subjectId: string, keyId: KeyId, decodable: bool)

  datatype WorkOrder = WorkOrder(
    digest: Digest,
    deadline: Instant,
    allowedTools: set<Tool>,
    keyBindings: seq<KeyBinding>)

  datatype Profile = Profile(
    id: Digest,
    workOrderDigest: Digest,
    delegatedTools: set<Tool>,
    reservedTools: set<Tool>,
    validFrom: Instant,
    expiresAt: Instant,
    issuedAt: Instant,
    nonce: Digest,
    digest: Digest,
    signerKeyId: KeyId,
    signature: Signature)

  datatype TransitionKind =
    | Revoked
    | Superseded(replacementId: Digest, replacementDigest: Digest)

  datatype Transition = Transition(
    id: Digest,
    workOrderDigest: Digest,
    targetId: Digest,
    targetDigest: Digest,
    kind: TransitionKind,
    transitionedAt: Instant,
    nonce: Digest,
    digest: Digest,
    signerKeyId: KeyId,
    signature: Signature)

  // ----- signature and binding checks -------------------------------------

  function WithRole(bindings: seq<KeyBinding>, role: Role): seq<KeyBinding> {
    if bindings == [] then []
    else (if bindings[0].role == role then [bindings[0]] else []) + WithRole(bindings[1..], role)
  }

  /** The one binding of a role; none when the role is missing or ambiguous. */
  function UniqueBinding(workOrder: WorkOrder, role: Role): Option<KeyBinding> {
    var matches := WithRole(workOrder.keyBindings, role);
    if |matches| == 1 then Some(matches[0]) else None
  }

  predicate VerifyPayload(signature: Signature, domain: Domain, digest: Digest, key: KeyId) {
    signature == Signature(key, domain, digest)
  }

  predicate VerifyProfile(profile: Profile, workOrder: WorkOrder) {
    var binding := UniqueBinding(workOrder, Acceptor);
    && binding.Some?
    && profile.signerKeyId == binding.value.keyId
    && profile.workOrderDigest == workOrder.digest
    && profile.expiresAt <= workOrder.deadline
    && profile.delegatedTools <= workOrder.allowedTools
    && profile.reservedTools <= workOrder.allowedTools
    && binding.value.decodable
    && VerifyPayload(profile.signature, ProfileDomain, profile.digest, binding.value.keyId)
  }

  predicate VerifyTransition(transition: Transition, workOrder: WorkOrder) {
    var binding := UniqueBinding(workOrder, Acceptor);
    && binding.Some?
    && transition.signerKeyId == binding.value.keyId
    && transition.workOrderDigest == workOrder.digest
    && binding.value.decodable
    && VerifyPayload(transition.signature, TransitionDomain, transition.digest, binding.value.keyId)
  }

  // ----- the resolver, as a specification ----------------------------------

  datatype Fault =
    | BadProfile
    | DuplicateProfile
    | BadTransition
    | UnknownTarget
    | TargetDigestMismatch
    | TimeReversal
    | SecondTransition
    | MissingReplacement
    | ReplacementDigestMismatch
    | NotOneGenesis
    | Cycle
    | DisconnectedProfile
    | UnreachableTransition

  datatype HistoryError =
    | ProfileRequired
    | BindingInvalid
    | HistoryInvalid(fault: Fault)
    | ProfileExpired

  datatype Status = Active | RevokedStatus

  datatype Resolved = Resolved(
    status: Status,
    current: Option<Profile>,
    profileIds: seq<Digest>,
    transitionIds: seq<Digest>)

  function ProfileIds(profiles: seq<Profile>): (ids: seq<Digest>)
    ensures |ids| == |profiles|
    ensures forall i :: 0 <= i < |ids| ==> ids[i] == profiles[i].id
  {
    seq(|profiles|, i requires 0 <= i < |profiles| => profiles[i].id)
  }

  function TransitionIds(transitions: seq<Transition>): (ids: seq<Digest>)
    ensures |ids| == |transitions|
    ensures forall i :: 0 <= i < |ids| ==> ids[i] == transitions[i].id
  {
    seq(|transitions|, i requires 0 <= i < |transitions| => transitions[i].id)
  }

  function ProfileIdSet(profiles: seq<Profile>): set<Digest> {
    set p | p in profiles :: p.id
  }

  function TransitionIdSet(transitions: seq<Transition>): set<Digest> {
    set t | t in transitions :: t.id
  }

  function CheckProfile(workOrder: WorkOrder, byId: map<Digest, Profile>, profile: Profile): Option<HistoryError> {
    if profile.workOrderDigest != workOrder.digest then Some(BindingInvalid)
    else if !VerifyProfile(profile, workOrder) then Some(HistoryInvalid(BadProfile))
    else if profile.id in byId then Some(HistoryInvalid(DuplicateProfile))
    else None
  }

  function IndexProfiles(workOrder: WorkOrder, profiles: seq<Profile>): Result<map<Digest, Profile>, HistoryError> {
    if profiles == [] then Success(map[])
    else
      var last := profiles[|profiles| - 1];
      var byId :- IndexProfiles(workOrder, profiles[..|profiles| - 1]);
      match CheckProfile(workOrder, byId, last)
      case Some(error) => Failure(error)
      case None => Success(byId[last.id := last])
  }

  function CheckTransition(
    workOrder: WorkOrder, byId: map<Digest, Profile>, outgoing: map<Digest, Transition>, transition: Transition
  ): Option<HistoryError> {
    if transition.workOrderDigest != workOrder.digest then Some(BindingInvalid)
    else if !VerifyTransition(transition, workOrder) then Some(HistoryInvalid(BadTransition))
    else if transition.targetId !in byId then Some(HistoryInvalid(UnknownTarget))
    else if transition.targetDigest != byId[transition.targetId].digest then Some(HistoryInvalid(TargetDigestMismatch))
    else if transition.transitionedAt < byId[transition.targetId].issuedAt then Some(HistoryInvalid(TimeReversal))
    else if transition.targetId in outgoing then Some(HistoryInvalid(SecondTransition))
    else match transition.kind
      case Revoked => None
      case Superseded(replacementId, replacementDigest) =>
        if replacementId !in byId then Some(HistoryInvalid(MissingReplacement))
        else if replacementDigest != byId[replacementId].digest then Some(HistoryInvalid(ReplacementDigestMismatch))
        else None
  }

  function IndexTransitions(workOrder: WorkOrder, byId: map<Digest, Profile>, transitions: seq<Transition>)
    : Result<map<Digest, Transition>, HistoryError>
  {
    if transitions == [] then Success(map[])
    else
      var last := transitions[|transitions| - 1];
      var outgoing :- IndexTransitions(workOrder, byId, transitions[..|transitions| - 1]);
      match CheckTransition(workOrder, byId, outgoing, last)
      case Some(error) => Failure(error)
      case None => Success(outgoing[last.targetId := last])
  }

  function ReplacementTargets(transitions: seq<Transition>): set<Digest> {
    set t | t in transitions && t.kind.Superseded? :: t.kind.replacementId
  }

  function GenesisProfiles(profiles: seq<Profile>, targets: set<Digest>): seq<Profile> {
    if profiles == [] then []
    else
      var n := |profiles| - 1;
      GenesisProfiles(profiles[..n], targets) + if profiles[n].id !in targets then [profiles[n]] else []
  }

  predicate Closed(byId: map<Digest, Profile>, outgoing: map<Digest, Transition>) {
    && (forall id | id in byId :: byId[id].id == id)
    && (forall id | id in outgoing ::
          && outgoing[id].targetId == id
          && (outgoing[id].kind.Superseded? ==> outgoing[id].kind.replacementId in byId))
  }

  datatype Walked = Walked(path: seq<Profile>, edges: seq<Transition>)

  /** Follows supersessions from `current`; `path` and `edges` are what was passed already. */
  function Walk(
    byId: map<Digest, Profile>, outgoing: map<Digest, Transition>,
    current: Profile, path: seq<Profile>, edges: seq<Transition>
  ): Result<Walked, HistoryError>
    requires Closed(byId, outgoing)
    requires current.id in byId
    decreases byId.Keys - ProfileIdSet(path)
  {
    if current.id in ProfileIdSet(path) then Failure(HistoryInvalid(Cycle))
    else
      var path' := path + [current];
      assert current.id in byId.Keys - ProfileIdSet(path);
      assert ProfileIdSet(path') == ProfileIdSet(path) + {current.id};
      if current.id !in outgoing then Success(Walked(path', edges))
      else
        var transition := outgoing[current.id];
        if transition.kind.Revoked? then Success(Walked(path', edges + [transition]))
        else Walk(byId, outgoing, byId[transition.kind.replacementId], path', edges + [transition])
  }

  /** What the resolver reports for a walked path. */
  function Describe(path: seq<Profile>, edges: seq<Transition>): Resolved
    requires path != []
  {
    Resolved(
      if |edges| == |path| then RevokedStatus else Active,
      if |edges| == |path| then None else Some(path[|path| - 1]),
      ProfileIds(path),
      TransitionIds(edges))
  }

  function ResolveStructure(workOrder: WorkOrder, profiles: seq<Profile>, transitions: seq<Transition>)
    : Result<Resolved, HistoryError>
  {
    if profiles == [] then Failure(ProfileRequired)
    else
      var byId :- IndexProfiles(workOrder, profiles);
      var outgoing :- IndexTransitions(workOrder, byId, transitions);
      var genesis := GenesisProfiles(profiles, ReplacementTargets(transitions));
      if |genesis| != 1 then Failure(HistoryInvalid(NotOneGenesis))
      else
        assert Closed(byId, outgoing) && genesis[0].id in byId by {
          IndexProfilesFacts(workOrder, profiles, byId);
          IndexTransitionsFacts(workOrder, byId, transitions, outgoing);
          GenesisMembers(profiles, ReplacementTargets(transitions));
          assert genesis[0] in genesis;
        }
        var walked :- Walk(byId, outgoing, genesis[0], [], []);
        FinishWalk(profiles, transitions, walked)
  }

  function FinishWalk(profiles: seq<Profile>, transitions: seq<Transition>, walked: Walked)
    : Result<Resolved, HistoryError>
  {
    if ProfileIdSet(walked.path) != ProfileIdSet(profiles) then
      Failure(HistoryInvalid(DisconnectedProfile))
    else if TransitionIdSet(walked.edges) != TransitionIdSet(transitions) then
      Failure(HistoryInvalid(UnreachableTransition))
    else if walked.path == [] then Failure(ProfileRequired)
    else Success(Describe(walked.path, walked.edges))
  }

  function ResolveCurrent(workOrder: WorkOrder, profiles: seq<Profile>, transitions: seq<Transition>, now: Instant)
    : Result<Resolved, HistoryError>
  {
    var resolved :- ResolveStructure(workOrder, profiles, transitions);
    if resolved.status == RevokedStatus then Success(resolved)
    else if resolved.current.Some? && resolved.current.value.validFrom <= now <= resolved.current.value.expiresAt
    then Success(resolved)
    else Failure(ProfileExpired)
  }

  // ----- what a resolvable history is --------------------------------------

  predicate Supersedes(transition: Transition, target: Profile, replacement: Profile) {
    && transition.targetId == target.id
    && transition.targetDigest == target.digest
    && transition.transitionedAt >= target.issuedAt
    && transition.kind == Superseded(replacement.id, replacement.digest)
  }

  predicate Revokes(transition: Transition, profile: Profile) {
    && transition.targetId == profile.id
    && transition.targetDigest == profile.digest
    && transition.transitionedAt >= profile.issuedAt
    && transition.kind == Revoked
  }

  ghost predicate DistinctIds(profiles: seq<Profile>) {
    forall i, j :: 0 <= i < j < |profiles| ==> profiles[i].id != profiles[j].id
  }

  /** A simple path: consecutive profiles joined by supersessions, at most one revocation, at the end. */
  ghost predicate SimplePath(path: seq<Profile>, edges: seq<Transition>) {
    && path != []
    && DistinctIds(path)
    && |path| - 1 <= |edges| <= |path|
    && (forall i :: 0 <= i < |path| - 1 ==> Supersedes(edges[i], path[i], path[i + 1]))
    && (|edges| == |path| ==> Revokes(edges[|path| - 1], path[|path| - 1]))
  }

  ghost predicate AllSigned(workOrder: WorkOrder, profiles: seq<Profile>, transitions: seq<Transition>) {
    && (forall p :: p in profiles ==> VerifyProfile(p, workOrder))
    && (forall t :: t in transitions ==> VerifyTransition(t, workOrder))
  }

  /** The signed history is exactly one simple path through every profile and every transition. */
  ghost predicate FormsPath(
    workOrder: WorkOrder, profiles: seq<Profile>, transitions: seq<Transition>,
    path: seq<Profile>, edges: seq<Transition>
  ) {
    && AllSigned(workOrder, profiles, transitions)
    && SimplePath(path, edges)
    && multiset(path) == multiset(profiles)
    && multiset(edges) == multiset(transitions)
  }

  // ----- facts about the two index passes ----------------------------------

  ghost predicate ProfilesIndexed(workOrder: WorkOrder, profiles: seq<Profile>, byId: map<Digest, Profile>) {
    && DistinctIds(profiles)
    && (forall p :: p in profiles ==> VerifyProfile(p, workOrder) && p.id in byId && byId[p.id] == p)
    && (forall id :: id in byId ==> byId[id] in profiles && byId[id].id == id)
  }

  lemma IndexOneMore(workOrder: WorkOrder, profiles: seq<Profile>, byId: map<Digest, Profile>, last: Profile)
    requires ProfilesIndexed(workOrder, profiles, byId)
    requires VerifyProfile(last, workOrder) && last.id !in byId
    ensures ProfilesIndexed(workOrder, profiles + [last], byId[last.id := last])
  {
    var grown := profiles + [last];
    forall p | p in grown
      ensures VerifyProfile(p, workOrder) && p.id in byId[last.id := last] && byId[last.id := last][p.id] == p
    {
      assert p in profiles || p == last;
    }
    forall i, j | 0 <= i < j < |grown|
      ensures grown[i].id != grown[j].id
    {
      assert grown[i] == profiles[i] && profiles[i] in profiles;
    }
  }

  lemma {:induction false} IndexProfilesFacts(workOrder: WorkOrder, profiles: seq<Profile>, byId: map<Digest, Profile>)
    requires IndexProfiles(workOrder, profiles) == Success(byId)
    ensures ProfilesIndexed(workOrder, profiles, byId)
  {
    if profiles != [] {
      var n := |profiles| - 1;
      var before := IndexProfiles(workOrder, profiles[..n]).value;
      IndexProfilesFacts(workOrder, profiles[..n], before);
      IndexOneMore(workOrder, profiles[..n], before, profiles[n]);
      assert profiles == profiles[..n] + [profiles[n]];
    }
  }

  lemma {:induction false} IndexProfilesSucceeds(workOrder: WorkOrder, profiles: seq<Profile>)
    requires DistinctIds(profiles)
    requires forall p :: p in profiles ==> VerifyProfile(p, workOrder)
    ensures IndexProfiles(workOrder, profiles).Success?
  {
    if profiles != [] {
      var n := |profiles| - 1;
      IndexProfilesSucceeds(workOrder, profiles[..n]);
      var byId := IndexProfiles(workOrder, profiles[..n]).value;
      IndexProfilesFacts(workOrder, profiles[..n], byId);
      assert profiles[n] in profiles;
      assert profiles[n].id !in byId;
    }
  }

  /** Every transition passed its checks, and no two share a target. */
  ghost predicate Indexed(byId: map<Digest, Profile>, transitions: seq<Transition>, outgoing: map<Digest, Transition>) {
    && (forall t :: t in transitions ==>
          && t.targetId in outgoing && outgoing[t.targetId] == t
          && t.targetId in byId && t.targetDigest == byId[t.targetId].digest
          && t.transitionedAt >= byId[t.targetId].issuedAt
          && (t.kind.Superseded? ==> t.kind.replacementId in byId
                                     && t.kind.replacementDigest == byId[t.kind.replacementId].digest))
    && (forall id :: id in outgoing ==> outgoing[id] in transitions && outgoing[id].targetId == id)
    && (forall i, j :: 0 <= i < j < |transitions| ==> transitions[i].targetId != transitions[j].targetId)
  }

  lemma {:induction false} IndexTransitionsFacts(
    workOrder: WorkOrder, byId: map<Digest, Profile>, transitions: seq<Transition>, outgoing: map<Digest, Transition>)
    requires IndexTransitions(workOrder, byId, transitions) == Success(outgoing)
    ensures Indexed(byId, transitions, outgoing)
    ensures forall t :: t in transitions ==> VerifyTransition(t, workOrder)
  {
    if transitions != [] {
      var n := |transitions| - 1;
      var before := IndexTransitions(workOrder, byId, transitions[..n]).value;
      IndexTransitionsFacts(workOrder, byId, transitions[..n], before);
      assert transitions == transitions[..n] + [transitions[n]];
    }
  }

  lemma {:induction false} IndexTransitionsSucceeds(
    workOrder: WorkOrder, byId: map<Digest, Profile>, transitions: seq<Transition>)
    requires forall i, j :: 0 <= i < j < |transitions| ==> transitions[i].targetId != transitions[j].targetId
    requires forall t :: t in transitions ==>
      && VerifyTransition(t, workOrder)
      && t.targetId in byId && t.targetDigest == byId[t.targetId].digest
      && t.transitionedAt >= byId[t.targetId].issuedAt
      && (t.kind.Superseded? ==> t.kind.replacementId in byId
                                 && t.kind.replacementDigest == byId[t.kind.replacementId].digest)
    ensures IndexTransitions(workOrder, byId, transitions).Success?
  {
    if transitions != [] {
      var n := |transitions| - 1;
      IndexTransitionsSucceeds(workOrder, byId, transitions[..n]);
      var before := IndexTransitions(workOrder, byId, transitions[..n]).value;
      IndexTransitionsFacts(workOrder, byId, transitions[..n], before);
      assert transitions[n].targetId !in before;
    }
  }

  lemma {:induction false} GenesisMembers(profiles: seq<Profile>, targets: set<Digest>)
    ensures forall p :: p in GenesisProfiles(profiles, targets) <==> p in profiles && p.id !in targets
    ensures NoDup(profiles) ==> NoDup(GenesisProfiles(profiles, targets))
  {
    if profiles != [] {
      var n := |profiles| - 1;
      GenesisMembers(profiles[..n], targets);
      assert profiles == profiles[..n] + [profiles[n]];
    }
  }

  // ----- success means one simple path --------------------------------------

  lemma {:induction false} WalkFacts(
    byId: map<Digest, Profile>, outgoing: map<Digest, Transition>,
    current: Profile, path: seq<Profile>, edges: seq<Transition>, walked: Walked)
    requires Closed(byId, outgoing)
    requires current.id in byId && byId[current.id] == current
    requires |edges| == |path| && DistinctIds(path)
    requires forall p :: p in path ==> p.id in byId && byId[p.id] == p
    requires forall i :: 0 <= i < |path| ==>
      path[i].id in outgoing && edges[i] == outgoing[path[i].id] && edges[i].kind.Superseded?
    requires forall i :: 0 <= i < |path| - 1 ==> edges[i].kind.replacementId == path[i + 1].id
    requires path != [] ==> edges[|path| - 1].kind.replacementId == current.id
    requires Walk(byId, outgoing, current, path, edges) == Success(walked)
    ensures walked.path != [] && DistinctIds(walked.path)
    ensures |walked.path| - 1 <= |walked.edges| <= |walked.path|
    ensures forall p :: p in walked.path ==> p.id in byId && byId[p.id] == p
    ensures forall i :: 0 <= i < |walked.edges| ==>
      walked.path[i].id in outgoing && walked.edges[i] == outgoing[walked.path[i].id]
    ensures forall i :: 0 <= i < |walked.path| - 1 ==>
      walked.edges[i].kind.Superseded? && walked.edges[i].kind.replacementId == walked.path[i + 1].id
    ensures |walked.edges| == |walked.path| ==> walked.edges[|walked.path| - 1].kind.Revoked?
    ensures |walked.edges| < |walked.path| ==> walked.path[|walked.path| - 1].id !in outgoing
    decreases byId.Keys - ProfileIdSet(path)
  {
    var path' := path + [current];
    assert current.id in byId.Keys - ProfileIdSet(path);
    assert ProfileIdSet(path') == ProfileIdSet(path) + {current.id};
    if current.id in outgoing && outgoing[current.id].kind.Superseded? {
      var transition := outgoing[current.id];
      WalkFacts(byId, outgoing, byId[transition.kind.replacementId], path', edges + [transition], walked);
    }
  }

  /** A complete walk has passed every transition: the unreachable-transition check cannot fire. */
  lemma WalkCoversTransitions(
    byId: map<Digest, Profile>, outgoing: map<Digest, Transition>, transitions: seq<Transition>, walked: Walked)
    requires Indexed(byId, transitions, outgoing)
    requires |walked.path| - 1 <= |walked.edges| <= |walked.path| && walked.path != []
    requires forall i :: 0 <= i < |walked.edges| ==>
      walked.path[i].id in outgoing && walked.edges[i] == outgoing[walked.path[i].id]
    requires |walked.edges| < |walked.path| ==> walked.path[|walked.path| - 1].id !in outgoing
    requires forall id :: id in byId ==> exists i :: 0 <= i < |walked.path| && walked.path[i].id == id
    ensures forall t :: t in walked.edges <==> t in transitions
  {
    forall t | t in transitions
      ensures t in walked.edges
    {
      var i :| 0 <= i < |walked.path| && walked.path[i].id == t.targetId;
      assert i < |walked.edges|;
      assert walked.edges[i] == t;
    }
  }

  /** A walk that visited every profile lists each of them exactly once. */
  lemma WalkCoversProfiles(
    workOrder: WorkOrder, profiles: seq<Profile>, byId: map<Digest, Profile>, path: seq<Profile>)
    requires IndexProfiles(workOrder, profiles) == Success(byId)
    requires DistinctIds(path) && ProfileIdSet(path) == ProfileIdSet(profiles)
    requires forall p :: p in path ==> p.id in byId && byId[p.id] == p
    ensures multiset(path) == multiset(profiles)
    ensures forall id :: id in byId ==> exists i :: 0 <= i < |path| && path[i].id == id
  {
    IndexProfilesFacts(workOrder, profiles, byId);
    forall p | p in profiles
      ensures p in path
    {
      assert p.id in ProfileIdSet(path);
      var q :| q in path && q.id == p.id;
      assert byId[q.id] == q;
    }
    SameElements(path, profiles);
    forall id | id in byId
      ensures exists i :: 0 <= i < |path| && path[i].id == id
    {
      assert byId[id] in path;
    }
  }

  lemma WalkEdgesDistinct(outgoing: map<Digest, Transition>, walked: Walked)
    requires DistinctIds(walked.path) && |walked.edges| <= |walked.path|
    requires forall id :: id in outgoing ==> outgoing[id].targetId == id
    requires forall i :: 0 <= i < |walked.edges| ==>
      walked.path[i].id in outgoing && walked.edges[i] == outgoing[walked.path[i].id]
    ensures NoDup(walked.edges)
  {
    forall i, j | 0 <= i < j < |walked.edges|
      ensures walked.edges[i] != walked.edges[j]
    {
      assert walked.edges[i].targetId == walked.path[i].id;
      assert walked.edges[j].targetId == walked.path[j].id;
    }
  }

  lemma CompleteWalkIsPath(
    workOrder: WorkOrder, profiles: seq<Profile>, transitions: seq<Transition>,
    byId: map<Digest, Profile>, outgoing: map<Digest, Transition>, start: Profile, walked: Walked)
    requires IndexProfiles(workOrder, profiles) == Success(byId)
    requires IndexTransitions(workOrder, byId, transitions) == Success(outgoing)
    requires Closed(byId, outgoing) && start.id in byId && byId[start.id] == start
    requires Walk(byId, outgoing, start, [], []) == Success(walked)
    requires ProfileIdSet(walked.path) == ProfileIdSet(profiles)
    ensures FormsPath(workOrder, profiles, transitions, walked.path, walked.edges)
  {
    var path, edges := walked.path, walked.edges;
    IndexProfilesFacts(workOrder, profiles, byId);
    IndexTransitionsFacts(workOrder, byId, transitions, outgoing);
    WalkFacts(byId, outgoing, start, [], [], walked);
    WalkCoversProfiles(workOrder, profiles, byId, path);
    WalkCoversTransitions(byId, outgoing, transitions, walked);
    WalkEdgesDistinct(outgoing, walked);
    assert NoDup(transitions);
    SameElements(edges, transitions);
    forall i | 0 <= i < |path| - 1
      ensures Supersedes(edges[i], path[i], path[i + 1])
    {
      assert edges[i] in transitions && path[i] in path && path[i + 1] in path;
    }
    assert edges != [] ==> edges[|edges| - 1] in transitions;
    assert path[|path| - 1] in path;
  }

  lemma ResolvedHistoryIsPath(workOrder: WorkOrder, profiles: seq<Profile>, transitions: seq<Transition>)
    returns (path: seq<Profile>, edges: seq<Transition>)
    requires ResolveStructure(workOrder, profiles, transitions).Success?
    ensures FormsPath(workOrder, profiles, transitions, path, edges)
    ensures ResolveStructure(workOrder, profiles, transitions) == Success(Describe(path, edges))
  {
    var byId := IndexProfiles(workOrder, profiles).value;
    var outgoing := IndexTransitions(workOrder, byId, transitions).value;
    IndexProfilesFacts(workOrder, profiles, byId);
    IndexTransitionsFacts(workOrder, byId, transitions, outgoing);
    var genesis := GenesisProfiles(profiles, ReplacementTargets(transitions));
    GenesisMembers(profiles, ReplacementTargets(transitions));
    assert genesis[0] in genesis;
    var walked := Walk(byId, outgoing, genesis[0], [], []).value;
    path, edges := walked.path, walked.edges;
    CompleteWalkIsPath(workOrder, profiles, transitions, byId, outgoing, genesis[0], walked);
  }

  // ----- and one simple path means success ----------------------------------

  lemma PathIndexes(workOrder: WorkOrder, profiles: seq<Profile>, transitions: seq<Transition>,
                    path: seq<Profile>, edges: seq<Transition>)
    returns (byId: map<Digest, Profile>, outgoing: map<Digest, Transition>)
    requires FormsPath(workOrder, profiles, transitions, path, edges)
    ensures IndexProfiles(workOrder, profiles) == Success(byId)
    ensures IndexTransitions(workOrder, byId, transitions) == Success(outgoing)
    ensures Closed(byId, outgoing)
    ensures forall i :: 0 <= i < |path| ==> path[i].id in byId && byId[path[i].id] == path[i]
    ensures forall i :: 0 <= i < |edges| ==> path[i].id in outgoing && outgoing[path[i].id] == edges[i]
    ensures |edges| < |path| ==> path[|path| - 1].id !in outgoing
  {
    NoDupTransfers(path, profiles);
    forall i, j | 0 <= i < j < |profiles|
      ensures profiles[i].id != profiles[j].id
    {
      SameMembers(path, profiles, profiles[i]);
      SameMembers(path, profiles, profiles[j]);
    }
    IndexProfilesSucceeds(workOrder, profiles);
    byId := IndexProfiles(workOrder, profiles).value;
    IndexProfilesFacts(workOrder, profiles, byId);
    forall i | 0 <= i < |path|
      ensures path[i].id in byId && byId[path[i].id] == path[i]
    {
      SameMembers(path, profiles, path[i]);
      assert path[i] in profiles;
    }
    forall t | t in transitions
      ensures t in edges
    {
      SameMembers(edges, transitions, t);
    }
    forall i | 0 <= i < |edges|
      ensures edges[i] in transitions && edges[i].targetId == path[i].id
    {
      SameMembers(edges, transitions, edges[i]);
      assert edges[i] in edges;
      assert i < |path| - 1 ==> Supersedes(edges[i], path[i], path[i + 1]);
    }
    assert NoDup(edges) by {
      forall i, j | 0 <= i < j < |edges| ensures edges[i] != edges[j] {
        assert edges[i].targetId != edges[j].targetId;
      }
    }
    NoDupTransfers(edges, transitions);
    forall i, j | 0 <= i < j < |transitions|
      ensures transitions[i].targetId != transitions[j].targetId
    {
      assert transitions[i] in edges && transitions[j] in edges;
    }
    forall t | t in transitions
      ensures && VerifyTransition(t, workOrder)
              && t.targetId in byId && t.targetDigest == byId[t.targetId].digest
              && t.transitionedAt >= byId[t.targetId].issuedAt
              && (t.kind.Superseded? ==> t.kind.replacementId in byId
                                         && t.kind.replacementDigest == byId[t.kind.replacementId].digest)
    {
      var i :| 0 <= i < |edges| && edges[i] == t;
      if i < |path| - 1 {
        assert Supersedes(edges[i], path[i], path[i + 1]);
      } else {
        assert Revokes(edges[i], path[i]);
      }
    }
    IndexTransitionsSucceeds(workOrder, byId, transitions);
    outgoing := IndexTransitions(workOrder, byId, transitions).value;
    IndexTransitionsFacts(workOrder, byId, transitions, outgoing);
    if |edges| < |path| {
      forall t | t in transitions
        ensures t.targetId != path[|path| - 1].id
      {
        var i :| 0 <= i < |edges| && edges[i] == t;
        assert edges[i].targetId == path[i].id;
      }
    }
  }

  lemma PathGenesis(workOrder: WorkOrder, profiles: seq<Profile>, transitions: seq<Transition>,
                    path: seq<Profile>, edges: seq<Transition>)
    requires FormsPath(workOrder, profiles, transitions, path, edges)
    ensures GenesisProfiles(profiles, ReplacementTargets(transitions)) == [path[0]]
  {
    var targets := ReplacementTargets(transitions);
    var genesis := GenesisProfiles(profiles, targets);
    GenesisMembers(profiles, targets);
    NoDupTransfers(path, profiles);
    forall p | p in profiles
      ensures p.id !in targets <==> p == path[0]
    {
      SameMembers(path, profiles, p);
      var k :| 0 <= k < |path| && path[k] == p;
      if k > 0 {
        assert Supersedes(edges[k - 1], path[k - 1], path[k]);
        SameMembers(edges, transitions, edges[k - 1]);
        assert edges[k - 1] in transitions;
      } else {
        forall t | t in transitions && t.kind.Superseded?
          ensures t.kind.replacementId != p.id
        {
          SameMembers(edges, transitions, t);
          var i :| 0 <= i < |edges| && edges[i] == t;
          assert i < |path| - 1;
          assert Supersedes(edges[i], path[i], path[i + 1]);
        }
      }
    }
    SameMembers(path, profiles, path[0]);
    assert path[0] in path;
    assert path[0] in genesis;
    OnlyElement(genesis, path[0]);
  }

  lemma {:induction false} WalkFollows(
    byId: map<Digest, Profile>, outgoing: map<Digest, Transition>,
    path: seq<Profile>, edges: seq<Transition>, i: nat)
    requires Closed(byId, outgoing) && SimplePath(path, edges) && i < |path|
    requires forall k :: 0 <= k < |path| ==> path[k].id in byId && byId[path[k].id] == path[k]
    requires forall k :: 0 <= k < |edges| ==> path[k].id in outgoing && outgoing[path[k].id] == edges[k]
    requires |edges| < |path| ==> path[|path| - 1].id !in outgoing
    ensures Walk(byId, outgoing, path[i], path[..i], edges[..i]) == Success(Walked(path, edges))
    decreases |path| - i
  {
    assert path[..i] + [path[i]] == path[..i + 1];
    if i < |path| - 1 {
      assert Supersedes(edges[i], path[i], path[i + 1]);
      assert edges[..i] + [edges[i]] == edges[..i + 1];
      WalkFollows(byId, outgoing, path, edges, i + 1);
    } else {
      assert path[..|path|] == path;
      if |edges| == |path| {
        assert edges[..i] + [edges[i]] == edges;
      } else {
        assert edges[..i] == edges;
      }
    }
  }

  lemma PathResolves(workOrder: WorkOrder, profiles: seq<Profile>, transitions: seq<Transition>,
                     path: seq<Profile>, edges: seq<Transition>)
    requires FormsPath(workOrder, profiles, transitions, path, edges)
    ensures ResolveStructure(workOrder, profiles, transitions) == Success(Describe(path, edges))
  {
    var byId, outgoing := PathIndexes(workOrder, profiles, transitions, path, edges);
    PathGenesis(workOrder, profiles, transitions, path, edges);
    WalkFollows(byId, outgoing, path, edges, 0);
    assert path[..0] == [] && edges[..0] == [];
    assert |multiset(path)| == |path| && |multiset(profiles)| == |profiles|;
    SameIdSets(profiles, transitions, path, edges);
  }

  lemma SameIdSets(profiles: seq<Profile>, transitions: seq<Transition>, path: seq<Profile>, edges: seq<Transition>)
    requires multiset(path) == multiset(profiles) && multiset(edges) == multiset(transitions)
    ensures ProfileIdSet(path) == ProfileIdSet(profiles)
    ensures TransitionIdSet(edges) == TransitionIdSet(transitions)
  {
    forall p
      ensures p in path <==> p in profiles
    {
      SameMembers(path, profiles, p);
    }
    forall t
      ensures t in edges <==> t in transitions
    {
      SameMembers(edges, transitions, t);
    }
  }

  /**
   The resolver succeeds exactly on histories that form one simple path, and then reports that path.
   */
  lemma ResolvesIffPath(workOrder: WorkOrder, profiles: seq<Profile>, transitions: seq<Transition>)
    ensures ResolveStructure(workOrder, profiles, transitions).Success?
       <==> exists path, edges :: FormsPath(workOrder, profiles, transitions, path, edges)
    ensures forall path, edges | FormsPath(workOrder, profiles, transitions, path, edges) ::
      ResolveStructure(workOrder, profiles, transitions) == Success(Describe(path, edges))
  {
    if ResolveStructure(workOrder, profiles, transitions).Success? {
      var path, edges := ResolvedHistoryIsPath(workOrder, profiles, transitions);
    }
    forall path, edges | FormsPath(workOrder, profiles, transitions, path, edges)
      ensures ResolveStructure(workOrder, profiles, transitions) == Success(Describe(path, edges))
    {
      PathResolves(workOrder, profiles, transitions, path, edges);
    }
  }
}

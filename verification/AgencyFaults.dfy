/** Why an agency history does not resolve: the fault that is reported is there (src/openworkproof/agency.py:508-677). */
module AgencyFaults {
  import opened Collections
  import opened AgencyHistory
  import opened AgencyResolver

  ghost predicate SomeProfile(profiles: seq<Profile>, id: Digest) {
    exists p :: p in profiles && p.id == id
  }

  ghost predicate Replaced(transitions: seq<Transition>, p: Profile) {
    exists t :: t in transitions && t.kind.Superseded? && t.kind.replacementId == p.id
  }

  ghost predicate OtherWorkOrder(workOrder: WorkOrder, profiles: seq<Profile>, transitions: seq<Transition>) {
    || (exists p :: p in profiles && p.workOrderDigest != workOrder.digest)
    || (exists t :: t in transitions && t.workOrderDigest != workOrder.digest)
  }

  /** One transition against the profiles. */
  ghost predicate TransitionFaulty(workOrder: WorkOrder, profiles: seq<Profile>, t: Transition, fault: Fault) {
    match fault
    case BadTransition => !VerifyTransition(t, workOrder)
    case UnknownTarget => !SomeProfile(profiles, t.targetId)
    case TargetDigestMismatch => exists p :: p in profiles && p.id == t.targetId && p.digest != t.targetDigest
    case TimeReversal => exists p :: p in profiles && p.id == t.targetId && t.transitionedAt < p.issuedAt
    case MissingReplacement => t.kind.Superseded? && !SomeProfile(profiles, t.kind.replacementId)
    case ReplacementDigestMismatch =>
      t.kind.Superseded? && exists p :: p in profiles && p.id == t.kind.replacementId && p.digest != t.kind.replacementDigest
    case _ => false
  }

  ghost predicate SomePath(workOrder: WorkOrder, profiles: seq<Profile>, transitions: seq<Transition>) {
    exists path, edges :: FormsPath(workOrder, profiles, transitions, path, edges)
  }

  ghost predicate SecondOf(transitions: seq<Transition>) {
    exists i, j :: 0 <= i < j < |transitions| && transitions[i].targetId == transitions[j].targetId
  }

  /** What each fault says of the history. */
  ghost predicate FaultHolds(workOrder: WorkOrder, profiles: seq<Profile>, transitions: seq<Transition>, fault: Fault) {
    match fault
    case BadProfile => exists p :: p in profiles && !VerifyProfile(p, workOrder)
    case DuplicateProfile => !DistinctIds(profiles)
    case SecondTransition => SecondOf(transitions)
    case NotOneGenesis => !exists p :: p in profiles && forall q :: q in profiles ==> (!Replaced(transitions, q) <==> q == p)
    case Cycle => !SomePath(workOrder, profiles, transitions)
    case DisconnectedProfile => !SomePath(workOrder, profiles, transitions)
    case UnreachableTransition => false
    case _ => exists t :: t in transitions && TransitionFaulty(workOrder, profiles, t, fault)
  }

  lemma {:induction false} ProfileFaultIsTrue(workOrder: WorkOrder, profiles: seq<Profile>)
    ensures var r := IndexProfiles(workOrder, profiles);
      r.Failure? ==>
        || (r.error == BindingInvalid && OtherWorkOrder(workOrder, profiles, []))
        || (r.error == HistoryInvalid(BadProfile) && exists p :: p in profiles && !VerifyProfile(p, workOrder))
        || (r.error == HistoryInvalid(DuplicateProfile) && !DistinctIds(profiles))
  {
    if profiles != [] {
      var n := |profiles| - 1;
      var rest, last := profiles[..n], profiles[n];
      ProfileFaultIsTrue(workOrder, rest);
      assert profiles == rest + [last];
      var byId := IndexProfiles(workOrder, rest);
      if byId.Success? {
        IndexProfilesFacts(workOrder, rest, byId.value);
        if last.id in byId.value {
          RepeatedId(workOrder, rest, byId.value, last);
        }
      } else if !DistinctIds(rest) {
        var i, j :| 0 <= i < j < |rest| && rest[i].id == rest[j].id;
        assert profiles[i].id == profiles[j].id;
      }
    }
  }

  lemma RepeatedId(workOrder: WorkOrder, rest: seq<Profile>, byId: map<Digest, Profile>, last: Profile)
    requires ProfilesIndexed(workOrder, rest, byId) && last.id in byId
    ensures !DistinctIds(rest + [last])
  {
    var p := byId[last.id];
    assert p in rest;
    var i :| 0 <= i < |rest| && rest[i] == p;
    assert (rest + [last])[i].id == (rest + [last])[|rest|].id;
  }

  lemma {:induction false} TransitionFaultIsTrue(
    workOrder: WorkOrder, profiles: seq<Profile>, byId: map<Digest, Profile>, transitions: seq<Transition>)
    requires ProfilesIndexed(workOrder, profiles, byId)
    ensures var r := IndexTransitions(workOrder, byId, transitions);
      r.Failure? ==>
        || (r.error == BindingInvalid && OtherWorkOrder(workOrder, [], transitions))
        || (r.error == HistoryInvalid(SecondTransition) && SecondOf(transitions))
        || (r.error.HistoryInvalid? && exists t :: t in transitions && TransitionFaulty(workOrder, profiles, t, r.error.fault))
  {
    if transitions != [] {
      var n := |transitions| - 1;
      var rest, last := transitions[..n], transitions[n];
      TransitionFaultIsTrue(workOrder, profiles, byId, rest);
      assert transitions == rest + [last];
      var outgoing := IndexTransitions(workOrder, byId, rest);
      if outgoing.Success? {
        LastFaultIsTrue(workOrder, profiles, byId, rest, outgoing.value, last);
      } else if SecondOf(rest) {
        var i, j :| 0 <= i < j < |rest| && rest[i].targetId == rest[j].targetId;
        assert transitions[i].targetId == transitions[j].targetId;
      }
    }
  }

  lemma LastFaultIsTrue(
    workOrder: WorkOrder, profiles: seq<Profile>, byId: map<Digest, Profile>,
    rest: seq<Transition>, outgoing: map<Digest, Transition>, last: Transition)
    requires ProfilesIndexed(workOrder, profiles, byId) && IndexTransitions(workOrder, byId, rest) == Success(outgoing)
    ensures var error := CheckTransition(workOrder, byId, outgoing, last);
      error.Some? ==>
        || (error.value == BindingInvalid && last.workOrderDigest != workOrder.digest)
        || (error.value == HistoryInvalid(SecondTransition) && SecondOf(rest + [last]))
        || (error.value.HistoryInvalid? && TransitionFaulty(workOrder, profiles, last, error.value.fault))
  {
    IndexTransitionsFacts(workOrder, byId, rest, outgoing);
    if last.targetId in outgoing {
      var t := outgoing[last.targetId];
      assert t in rest;
      var i :| 0 <= i < |rest| && rest[i] == t;
      assert (rest + [last])[i].targetId == (rest + [last])[|rest|].targetId;
    }
  }

  /** Without exactly one genesis, no profile is the only one that nothing replaces. */
  lemma GenesisFaultIsTrue(profiles: seq<Profile>, transitions: seq<Transition>)
    requires DistinctIds(profiles) && |GenesisProfiles(profiles, ReplacementTargets(transitions))| != 1
    ensures !exists p :: p in profiles && forall q :: q in profiles ==> (!Replaced(transitions, q) <==> q == p)
  {
    var targets := ReplacementTargets(transitions);
    var genesis := GenesisProfiles(profiles, targets);
    GenesisMembers(profiles, targets);
    assert NoDup(profiles) && NoDup(genesis);
    forall q
      ensures Replaced(transitions, q) <==> q.id in targets
    {
    }
    if exists p :: p in profiles && forall q :: q in profiles ==> (!Replaced(transitions, q) <==> q == p) {
      var p :| p in profiles && forall q :: q in profiles ==> (!Replaced(transitions, q) <==> q == p);
      OnlyElement(genesis, p);
    }
  }

  lemma WiderWorkOrder(workOrder: WorkOrder, profiles: seq<Profile>, transitions: seq<Transition>)
    ensures OtherWorkOrder(workOrder, profiles, []) || OtherWorkOrder(workOrder, [], transitions) ==>
      OtherWorkOrder(workOrder, profiles, transitions)
  {
  }

  /** Whatever the resolver reports of a history is true of it. */
  lemma FaultIsTrue(workOrder: WorkOrder, profiles: seq<Profile>, transitions: seq<Transition>)
    ensures var r := ResolveStructure(workOrder, profiles, transitions);
      r.Failure? ==>
        match r.error
        case ProfileRequired => profiles == []
        case BindingInvalid => OtherWorkOrder(workOrder, profiles, transitions)
        case HistoryInvalid(fault) => FaultHolds(workOrder, profiles, transitions, fault)
        case ProfileExpired => false
  {
    var r := ResolveStructure(workOrder, profiles, transitions);
    ResolvesIffPath(workOrder, profiles, transitions);
    UnreachableTransitionNeverReported(workOrder, profiles, transitions);
    ProfileFaultIsTrue(workOrder, profiles);
    WiderWorkOrder(workOrder, profiles, transitions);
    var byId := IndexProfiles(workOrder, profiles);
    if profiles != [] && byId.Success? {
      IndexProfilesFacts(workOrder, profiles, byId.value);
      TransitionFaultIsTrue(workOrder, profiles, byId.value, transitions);
      var outgoing := IndexTransitions(workOrder, byId.value, transitions);
      if outgoing.Success? {
        var genesis := GenesisProfiles(profiles, ReplacementTargets(transitions));
        if |genesis| != 1 {
          GenesisFaultIsTrue(profiles, transitions);
        } else {
          WalkErrorIsTrue(workOrder, profiles, transitions, byId.value, outgoing.value);
        }
      }
    }
  }

  lemma WalkErrorIsTrue(
    workOrder: WorkOrder, profiles: seq<Profile>, transitions: seq<Transition>,
    byId: map<Digest, Profile>, outgoing: map<Digest, Transition>)
    requires profiles != [] && IndexProfiles(workOrder, profiles) == Success(byId)
    requires IndexTransitions(workOrder, byId, transitions) == Success(outgoing)
    requires |GenesisProfiles(profiles, ReplacementTargets(transitions))| == 1
    ensures var r := ResolveStructure(workOrder, profiles, transitions);
      r.Failure? ==> r.error in {HistoryInvalid(Cycle), HistoryInvalid(DisconnectedProfile), HistoryInvalid(UnreachableTransition)}
  {
    var genesis := GenesisProfiles(profiles, ReplacementTargets(transitions));
    IndexProfilesFacts(workOrder, profiles, byId);
    IndexTransitionsFacts(workOrder, byId, transitions, outgoing);
    GenesisMembers(profiles, ReplacementTargets(transitions));
    assert genesis[0] in genesis;
    WalkErrors(byId, outgoing, genesis[0], [], []);
  }

  lemma {:induction false} WalkErrors(
    byId: map<Digest, Profile>, outgoing: map<Digest, Transition>,
    current: Profile, path: seq<Profile>, edges: seq<Transition>)
    requires Closed(byId, outgoing) && current.id in byId
    ensures var r := Walk(byId, outgoing, current, path, edges);
      if r.Failure? then r.error == HistoryInvalid(Cycle) else r.value.path != []
    decreases byId.Keys - ProfileIdSet(path)
  {
    if current.id !in ProfileIdSet(path) && current.id in outgoing && outgoing[current.id].kind.Superseded? {
      assert current.id in byId.Keys - ProfileIdSet(path);
      assert ProfileIdSet(path + [current]) == ProfileIdSet(path) + {current.id};
      WalkErrors(
        byId, outgoing, byId[outgoing[current.id].kind.replacementId], path + [current], edges + [outgoing[current.id]]);
    }
  }
}

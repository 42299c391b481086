/**
 The resolver as the program runs it, step by step, and the two laws its callers rely on:
 the enumeration order of a history does not matter, and a history only ever grows around
 what was resolved before.
 */
module AgencyResolver {
  import opened Collections
  import opened AgencyHistory

  // ----- prefixes that fail -------------------------------------------------

  lemma {:induction false} ProfilePrefixFails(workOrder: WorkOrder, profiles: seq<Profile>, n: nat)
    requires n <= |profiles| && IndexProfiles(workOrder, profiles[..n]).Failure?
    ensures IndexProfiles(workOrder, profiles) == IndexProfiles(workOrder, profiles[..n])
    decreases |profiles|
  {
    if n < |profiles| {
      var m := |profiles| - 1;
      assert profiles[..m][..n] == profiles[..n];
      ProfilePrefixFails(workOrder, profiles[..m], n);
    } else {
      assert profiles[..n] == profiles;
    }
  }

  lemma {:induction false} TransitionPrefixFails(
    workOrder: WorkOrder, byId: map<Digest, Profile>, transitions: seq<Transition>, n: nat)
    requires n <= |transitions| && IndexTransitions(workOrder, byId, transitions[..n]).Failure?
    ensures IndexTransitions(workOrder, byId, transitions) == IndexTransitions(workOrder, byId, transitions[..n])
    decreases |transitions|
  {
    if n < |transitions| {
      var m := |transitions| - 1;
      assert transitions[..m][..n] == transitions[..n];
      TransitionPrefixFails(workOrder, byId, transitions[..m], n);
    } else {
      assert transitions[..n] == transitions;
    }
  }

  // ----- the loops ------------------------------------------------------------

  method IndexProfilesLoop(workOrder: WorkOrder, profiles: seq<Profile>)
    returns (r: Result<map<Digest, Profile>, HistoryError>)
    ensures r == IndexProfiles(workOrder, profiles)
  {
    var profilesById: map<Digest, Profile> := map[];
    for i := 0 to |profiles|
      invariant IndexProfiles(workOrder, profiles[..i]) == Success(profilesById)
    {
      assert profiles[..i + 1][..i] == profiles[..i];
      var fault := CheckProfile(workOrder, profilesById, profiles[i]);
      if fault.Some? {
        ProfilePrefixFails(workOrder, profiles, i + 1);
        return Failure(fault.value);
      }
      profilesById := profilesById[profiles[i].id := profiles[i]];
    }
    assert profiles[..|profiles|] == profiles;
    return Success(profilesById);
  }

  lemma IndexOneTransition(
    workOrder: WorkOrder, byId: map<Digest, Profile>, transitions: seq<Transition>, next: Transition,
    outgoing: map<Digest, Transition>)
    requires IndexTransitions(workOrder, byId, transitions) == Success(outgoing)
    ensures IndexTransitions(workOrder, byId, transitions + [next])
         == match CheckTransition(workOrder, byId, outgoing, next)
            case Some(error) => Failure(error)
            case None => Success(outgoing[next.targetId := next])
  {
    assert (transitions + [next])[..|transitions|] == transitions;
  }

  lemma TargetsOfOneMore(transitions: seq<Transition>, next: Transition)
    ensures ReplacementTargets(transitions + [next])
         == ReplacementTargets(transitions) + if next.kind.Superseded? then {next.kind.replacementId} else {}
  {
    assert forall t :: t in transitions + [next] <==> t in transitions || t == next;
    assert next in transitions + [next];
  }

  method IndexTransitionsLoop(workOrder: WorkOrder, byId: map<Digest, Profile>, transitions: seq<Transition>)
    returns (r: Result<map<Digest, Transition>, HistoryError>, replacementTargets: set<Digest>)
    ensures r == IndexTransitions(workOrder, byId, transitions)
    ensures r.Success? ==> replacementTargets == ReplacementTargets(transitions)
  {
    var outgoing: map<Digest, Transition> := map[];
    replacementTargets := {};
    for i := 0 to |transitions|
      invariant IndexTransitions(workOrder, byId, transitions[..i]) == Success(outgoing)
      invariant replacementTargets == ReplacementTargets(transitions[..i])
    {
      var fault := CheckTransition(workOrder, byId, outgoing, transitions[i]);
      assert transitions[..i + 1] == transitions[..i] + [transitions[i]];
      IndexOneTransition(workOrder, byId, transitions[..i], transitions[i], outgoing);
      TargetsOfOneMore(transitions[..i], transitions[i]);
      if fault.Some? {
        TransitionPrefixFails(workOrder, byId, transitions, i + 1);
        return Failure(fault.value), replacementTargets;
      }
      outgoing := outgoing[transitions[i].targetId := transitions[i]];
      if transitions[i].kind.Superseded? {
        replacementTargets := replacementTargets + {transitions[i].kind.replacementId};
      }
    }
    assert transitions[..|transitions|] == transitions;
    return Success(outgoing), replacementTargets;
  }

  /** The walk from the genesis profile; it ends because every round visits a profile not visited before. */
  method WalkLoop(byId: map<Digest, Profile>, outgoing: map<Digest, Transition>, genesis: Profile)
    returns (r: Result<Walked, HistoryError>)
    requires Closed(byId, outgoing) && genesis.id in byId && byId[genesis.id] == genesis
    ensures r == Walk(byId, outgoing, genesis, [], [])
  {
    var current := genesis;
    var visited: set<Digest> := {};
    var orderedProfiles: seq<Profile> := [];
    var orderedTransitions: seq<Transition> := [];
    while true
      invariant current.id in byId && byId[current.id] == current
      invariant visited == ProfileIdSet(orderedProfiles)
      invariant Walk(byId, outgoing, current, orderedProfiles, orderedTransitions)
             == Walk(byId, outgoing, genesis, [], [])
      decreases byId.Keys - visited
    {
      if current.id in visited {
        return Failure(HistoryInvalid(Cycle));
      }
      visited := visited + {current.id};
      orderedProfiles := orderedProfiles + [current];
      if current.id !in outgoing {
        return Success(Walked(orderedProfiles, orderedTransitions));
      }
      var transition := outgoing[current.id];
      orderedTransitions := orderedTransitions + [transition];
      if transition.kind.Revoked? {
        return Success(Walked(orderedProfiles, orderedTransitions));
      }
      current := byId[transition.kind.replacementId];
    }
  }

  method ResolveHumanAgencyProfileStructure(
    workOrder: WorkOrder, profiles: seq<Profile>, transitions: seq<Transition>)
    returns (r: Result<Resolved, HistoryError>)
    ensures r == ResolveStructure(workOrder, profiles, transitions)
    ensures r.Success? <==> exists path, edges :: FormsPath(workOrder, profiles, transitions, path, edges)
    ensures forall path, edges | FormsPath(workOrder, profiles, transitions, path, edges) ::
      r == Success(Describe(path, edges))
  {
    ResolvesIffPath(workOrder, profiles, transitions);
    if profiles == [] {
      return Failure(ProfileRequired);
    }
    var indexed := IndexProfilesLoop(workOrder, profiles);
    if indexed.Failure? {
      return Failure(indexed.error);
    }
    var profilesById := indexed.value;
    var edges, replacementTargets := IndexTransitionsLoop(workOrder, profilesById, transitions);
    if edges.Failure? {
      return Failure(edges.error);
    }
    var genesis := GenesisProfiles(profiles, replacementTargets);
    if |genesis| != 1 {
      return Failure(HistoryInvalid(NotOneGenesis));
    }
    IndexProfilesFacts(workOrder, profiles, profilesById);
    IndexTransitionsFacts(workOrder, profilesById, transitions, edges.value);
    GenesisMembers(profiles, replacementTargets);
    assert genesis[0] in genesis;
    var walked := WalkLoop(profilesById, edges.value, genesis[0]);
    if walked.Failure? {
      return Failure(walked.error);
    }
    return FinishWalk(profiles, transitions, walked.value);
  }

  // ----- checks that cannot fire ---------------------------------------------

  /** Once every profile is visited every transition has been followed. */
  lemma UnreachableTransitionNeverReported(
    workOrder: WorkOrder, profiles: seq<Profile>, transitions: seq<Transition>)
    ensures ResolveStructure(workOrder, profiles, transitions) != Failure(HistoryInvalid(UnreachableTransition))
  {
    var indexed := IndexProfiles(workOrder, profiles);
    if profiles != [] && indexed.Success? && IndexTransitions(workOrder, indexed.value, transitions).Success? {
      var byId := indexed.value;
      var outgoing := IndexTransitions(workOrder, byId, transitions).value;
      var genesis := GenesisProfiles(profiles, ReplacementTargets(transitions));
      if |genesis| == 1 {
        IndexProfilesFacts(workOrder, profiles, byId);
        IndexTransitionsFacts(workOrder, byId, transitions, outgoing);
        GenesisMembers(profiles, ReplacementTargets(transitions));
        assert genesis[0] in genesis;
        var walk := Walk(byId, outgoing, genesis[0], [], []);
        WalkFailsOnlyOnCycle(byId, outgoing, genesis[0], [], []);
        if walk.Success? && ProfileIdSet(walk.value.path) == ProfileIdSet(profiles) {
          CompleteWalkIsPath(workOrder, profiles, transitions, byId, outgoing, genesis[0], walk.value);
          SameIdSets(profiles, transitions, walk.value.path, walk.value.edges);
        }
      }
    }
    if profiles != [] && indexed.Failure? {
      IndexErrors(workOrder, profiles);
    }
    if profiles != [] && indexed.Success? && IndexTransitions(workOrder, indexed.value, transitions).Failure? {
      TransitionErrors(workOrder, indexed.value, transitions);
    }
  }

  lemma {:induction false} WalkFailsOnlyOnCycle(
    byId: map<Digest, Profile>, outgoing: map<Digest, Transition>,
    current: Profile, path: seq<Profile>, edges: seq<Transition>)
    requires Closed(byId, outgoing) && current.id in byId
    ensures var r := Walk(byId, outgoing, current, path, edges); r.Failure? ==> r.error == HistoryInvalid(Cycle)
    decreases byId.Keys - ProfileIdSet(path)
  {
    var path' := path + [current];
    assert ProfileIdSet(path') == ProfileIdSet(path) + {current.id};
    if current.id !in ProfileIdSet(path) && current.id in outgoing && outgoing[current.id].kind.Superseded? {
      assert current.id in byId.Keys - ProfileIdSet(path);
      WalkFailsOnlyOnCycle(byId, outgoing, byId[outgoing[current.id].kind.replacementId],
                           path', edges + [outgoing[current.id]]);
    }
  }

  lemma {:induction false} IndexErrors(workOrder: WorkOrder, profiles: seq<Profile>)
    ensures var r := IndexProfiles(workOrder, profiles);
      r.Failure? ==> r.error in {BindingInvalid, HistoryInvalid(BadProfile), HistoryInvalid(DuplicateProfile)}
  {
    if profiles != [] {
      IndexErrors(workOrder, profiles[..|profiles| - 1]);
    }
  }

  lemma {:induction false} TransitionErrors(
    workOrder: WorkOrder, byId: map<Digest, Profile>, transitions: seq<Transition>)
    ensures var r := IndexTransitions(workOrder, byId, transitions);
      r.Failure? ==> r.error != HistoryInvalid(UnreachableTransition)
  {
    if transitions != [] {
      TransitionErrors(workOrder, byId, transitions[..|transitions| - 1]);
    }
  }

  // ----- order of enumeration ---------------------------------------------------

  /** Rearranging profiles and transitions changes neither whether a history resolves nor to what. */
  lemma ResolutionIgnoresOrder(
    workOrder: WorkOrder,
    profiles: seq<Profile>, transitions: seq<Transition>,
    profiles': seq<Profile>, transitions': seq<Transition>)
    requires multiset(profiles) == multiset(profiles') && multiset(transitions) == multiset(transitions')
    ensures ResolveStructure(workOrder, profiles, transitions).Success?
       <==> ResolveStructure(workOrder, profiles', transitions').Success?
    ensures ResolveStructure(workOrder, profiles, transitions).Success? ==>
      ResolveStructure(workOrder, profiles, transitions) == ResolveStructure(workOrder, profiles', transitions')
  {
    OrderCarriesOver(workOrder, profiles, transitions, profiles', transitions');
    OrderCarriesOver(workOrder, profiles', transitions', profiles, transitions);
  }

  lemma OrderCarriesOver(
    workOrder: WorkOrder,
    profiles: seq<Profile>, transitions: seq<Transition>,
    profiles': seq<Profile>, transitions': seq<Transition>)
    requires multiset(profiles) == multiset(profiles') && multiset(transitions) == multiset(transitions')
    ensures ResolveStructure(workOrder, profiles, transitions).Success? ==>
      ResolveStructure(workOrder, profiles, transitions) == ResolveStructure(workOrder, profiles', transitions')
  {
    if ResolveStructure(workOrder, profiles, transitions).Success? {
      var path, edges := ResolvedHistoryIsPath(workOrder, profiles, transitions);
      forall p
        ensures p in profiles <==> p in profiles'
      {
        SameMembers(profiles, profiles', p);
      }
      forall t
        ensures t in transitions <==> t in transitions'
      {
        SameMembers(transitions, transitions', t);
      }
      assert FormsPath(workOrder, profiles', transitions', path, edges);
      PathResolves(workOrder, profiles', transitions', path, edges);
    }
  }

  // ----- growth -------------------------------------------------------------------

  lemma {:induction false} BlockFrom(
    workOrder: WorkOrder,
    profiles: seq<Profile>, transitions: seq<Transition>, path: seq<Profile>, edges: seq<Transition>,
    profiles': seq<Profile>, transitions': seq<Transition>, path': seq<Profile>, edges': seq<Transition>,
    start: nat, i: nat)
    requires FormsPath(workOrder, profiles, transitions, path, edges)
    requires FormsPath(workOrder, profiles', transitions', path', edges')
    requires multiset(profiles) <= multiset(profiles') && multiset(transitions) <= multiset(transitions')
    requires i < |path| && start < |path'| && path'[start] == path[0]
    ensures start + i < |path'| && path'[start + i] == path[i]
    decreases i
  {
    if i > 0 {
      BlockFrom(workOrder, profiles, transitions, path, edges,
                profiles', transitions', path', edges', start, i - 1);
      var edge := edges[i - 1];
      assert Supersedes(edge, path[i - 1], path[i]);
      assert edge in multiset(edges) && edge in multiset(transitions');
      var j :| 0 <= j < |edges'| && edges'[j] == edge;
      assert j < |path'| - 1;
      assert Supersedes(edges'[j], path'[j], path'[j + 1]);
      assert path'[j].id == path'[start + i - 1].id;
      assert j == start + i - 1;
      assert path[i] in multiset(path) && path[i] in multiset(path');
      var k :| 0 <= k < |path'| && path'[k] == path[i];
      assert path'[k].id == path'[j + 1].id;
    }
  }

  /** The profiles resolved before a history grew are one contiguous block of those resolved after. */
  lemma OldPathIsBlock(
    workOrder: WorkOrder,
    profiles: seq<Profile>, transitions: seq<Transition>,
    profiles': seq<Profile>, transitions': seq<Transition>)
    returns (start: nat)
    requires ResolveStructure(workOrder, profiles, transitions).Success?
    requires ResolveStructure(workOrder, profiles', transitions').Success?
    requires multiset(profiles) <= multiset(profiles') && multiset(transitions) <= multiset(transitions')
    ensures var before := ResolveStructure(workOrder, profiles, transitions).value.profileIds;
      var after := ResolveStructure(workOrder, profiles', transitions').value.profileIds;
      start + |before| <= |after| && after[start..start + |before|] == before
  {
    var path, edges := ResolvedHistoryIsPath(workOrder, profiles, transitions);
    var path', edges' := ResolvedHistoryIsPath(workOrder, profiles', transitions');
    assert path[0] in multiset(path) && path[0] in multiset(path');
    start :| 0 <= start < |path'| && path'[start] == path[0];
    forall i | 0 <= i < |path|
      ensures start + i < |path'| && path'[start + i] == path[i]
    {
      BlockFrom(workOrder, profiles, transitions, path, edges,
                profiles', transitions', path', edges', start, i);
    }
    assert start + |path| - 1 < |path'|;
  }

  function Supersessions(transitions: seq<Transition>): set<Transition> {
    set t | t in transitions && t.kind.Superseded?
  }

  /** A resolved history has one profile more than it has supersessions. */
  lemma ProfilesCountSupersessions(workOrder: WorkOrder, profiles: seq<Profile>, transitions: seq<Transition>)
    requires ResolveStructure(workOrder, profiles, transitions).Success?
    ensures |profiles| == |Supersessions(transitions)| + 1
  {
    var path, edges := ResolvedHistoryIsPath(workOrder, profiles, transitions);
    assert |multiset(path)| == |path| && |multiset(profiles)| == |profiles|;
    var links := edges[..|path| - 1];
    forall i | 0 <= i < |links|
      ensures links[i].kind.Superseded? && links[i].targetId == path[i].id
    {
      assert Supersedes(edges[i], path[i], path[i + 1]);
    }
    assert NoDup(links) by {
      forall i, j | 0 <= i < j < |links| ensures links[i] != links[j] {
        assert links[i].targetId != links[j].targetId;
      }
    }
    SetOfNoDup(links);
    forall t
      ensures t in links <==> t in Supersessions(transitions)
    {
      SameMembers(edges, transitions, t);
      if t in edges && t.kind.Superseded? {
        var i :| 0 <= i < |edges| && edges[i] == t;
        assert links[i] == t;
      }
    }
    assert (set t | t in links) == Supersessions(transitions);
  }
}

/**
 Which agency ledgers can still be brought to resolve: the exact condition is the number of committed profiles
 no supersession accounts for (src/openworkproof/agency_ledger.py:520-533, src/openworkproof/agency.py:616-662).
 */
module AgencyGaps {
  import opened Collections
  import opened AgencyHistory
  import opened AgencyResolver
  import opened AgencyLedger
  import opened AgencySamples

  // ----- what a reachable ledger is made of -------------------------------------------------

  /** The profiles are those of a history that resolves with these transitions, and some more. */
  ghost predicate SplitAs(ledger: Ledger, core: seq<Profile>, rest: seq<Profile>) {
    && multiset(core) + multiset(rest) == multiset(ledger.profiles)
    && ResolveStructure(ledger.workOrder, core, ledger.transitions).Success?
  }

  ghost predicate HasCore(ledger: Ledger) {
    if ledger.profiles == [] then ledger.transitions == []
    else exists core, rest :: SplitAs(ledger, core, rest)
  }

  lemma OneProfileResolves(workOrder: WorkOrder, profile: Profile)
    requires VerifyProfile(profile, workOrder)
    ensures ResolveStructure(workOrder, [profile], []).Success?
  {
    PathResolves(workOrder, [profile], [], [profile], []);
  }

  lemma ProfileKeepsCore(ledger: Ledger, profile: Profile)
    requires HasCore(ledger) && CommitProfileOutcome(ledger, profile) == Committed
    ensures HasCore(Apply(ledger, AddProfile(profile)))
  {
    var after := Apply(ledger, AddProfile(profile));
    InsertRowAdds(ledger.profiles, profile, PROFILE_KEY);
    if ledger.profiles == [] {
      OneProfileResolves(ledger.workOrder, profile);
      assert SplitAs(after, [profile], []);
    } else {
      var core, rest :| SplitAs(ledger, core, rest);
      assert SplitAs(after, core, rest + [profile]);
    }
  }

  lemma TransitionKeepsCore(ledger: Ledger, transition: Transition)
    requires CommitTransitionOutcome(ledger, transition) == Committed
    ensures HasCore(Apply(ledger, AddTransition(transition)))
  {
    var after := Apply(ledger, AddTransition(transition));
    TransitionCommitResolves(ledger, transition);
    assert SplitAs(after, after.profiles, []);
  }

  lemma {:induction false} RunKeepsCore(ledger: Ledger, operations: seq<Operation>)
    requires HasCore(ledger)
    ensures HasCore(Run(ledger, operations))
    decreases |operations|
  {
    if operations != [] {
      var next := Apply(ledger, operations[0]);
      if OutcomeOf(ledger, operations[0]) == Committed {
        match operations[0]
        case AddProfile(profile) => ProfileKeepsCore(ledger, profile);
        case AddTransition(transition) => TransitionKeepsCore(ledger, transition);
        case AddAppeal(_) =>
          if ledger.profiles != [] {
            var core, rest :| SplitAs(ledger, core, rest);
            assert SplitAs(next, core, rest);
          }
      }
      RunKeepsCore(next, operations[1..]);
    }
  }

  lemma GapCountsRest(ledger: Ledger, core: seq<Profile>, rest: seq<Profile>)
    requires SplitAs(ledger, core, rest)
    ensures Gap(ledger) == 1 + |rest|
  {
    ProfilesCountSupersessions(ledger.workOrder, core, ledger.transitions);
    assert |multiset(ledger.profiles)| == |ledger.profiles| && |multiset(core)| == |core| && |multiset(rest)| == |rest|;
  }

  // ----- closing a gap of two -----------------------------------------------------------------

  function Signed(workOrder: WorkOrder, target: Profile, replacement: Profile, unused: nat): Transition
    requires UniqueBinding(workOrder, Acceptor).Some?
  {
    var key := UniqueBinding(workOrder, Acceptor).value.keyId;
    Transition(
      unused, workOrder.digest, target.id, target.digest, Superseded(replacement.id, replacement.digest),
      target.issuedAt, unused, unused, key, Signature(key, TransitionDomain, unused))
  }

  /** The transition supersedes one of these profiles by another. */
  ghost predicate Joins(transition: Transition, profiles: seq<Profile>) {
    exists target, replacement ::
      target in profiles && replacement in profiles && Supersedes(transition, target, replacement)
  }

  /** A verified supersession with the numbers asked for, from a target nothing supersedes or revokes yet. */
  ghost predicate FitsIn(
    workOrder: WorkOrder, supersession: Transition, transitions: seq<Transition>, profiles: seq<Profile>, unused: nat)
  {
    && VerifyTransition(supersession, workOrder) && supersession.kind.Superseded?
    && supersession.id == supersession.nonce == supersession.digest == unused
    && (forall t :: t in transitions ==> t.targetId != supersession.targetId)
    && Joins(supersession, profiles)
  }

  lemma SignedFits(
    workOrder: WorkOrder, target: Profile, replacement: Profile, transitions: seq<Transition>, profiles: seq<Profile>, unused: nat)
    requires VerifyProfile(target, workOrder) && target in profiles && replacement in profiles
    requires forall t :: t in transitions ==> t.targetId != target.id
    ensures FitsIn(workOrder, Signed(workOrder, target, replacement, unused), transitions, profiles, unused)
    ensures Supersedes(Signed(workOrder, target, replacement, unused), target, replacement)
  {
    assert Supersedes(Signed(workOrder, target, replacement, unused), target, replacement);
  }

  /** One more profile is joined to a path: after its end, or before its start when the end is revoked. */
  lemma PathTakesOneMore(
    workOrder: WorkOrder, core: seq<Profile>, transitions: seq<Transition>, profile: Profile, unused: nat)
    returns (supersession: Transition)
    requires ResolveStructure(workOrder, core, transitions).Success?
    requires VerifyProfile(profile, workOrder) && forall p :: p in core ==> p.id != profile.id
    ensures FitsIn(workOrder, supersession, transitions, core + [profile], unused)
    ensures ResolveStructure(workOrder, core + [profile], transitions + [supersession]).Success?
  {
    var path, edges := ResolvedHistoryIsPath(workOrder, core, transitions);
    forall p
      ensures p in path <==> p in core
    {
      SameMembers(path, core, p);
    }
    forall t
      ensures t in edges <==> t in transitions
    {
      SameMembers(edges, transitions, t);
    }
    EdgeTargets(path, edges);
    if |edges| < |path| {
      supersession := AfterEnd(workOrder, core, transitions, path, edges, profile, unused);
    } else {
      supersession := BeforeStart(workOrder, core, transitions, path, edges, profile, unused);
    }
  }

  lemma AfterEnd(
    workOrder: WorkOrder, core: seq<Profile>, transitions: seq<Transition>, path: seq<Profile>, edges: seq<Transition>,
    profile: Profile, unused: nat)
    returns (supersession: Transition)
    requires FormsPath(workOrder, core, transitions, path, edges) && |edges| < |path|
    requires VerifyProfile(profile, workOrder) && forall p :: p in path ==> p.id != profile.id
    requires forall p :: p in path ==> p in core
    requires forall t :: t in transitions ==> t.targetId != path[|path| - 1].id
    ensures FitsIn(workOrder, supersession, transitions, core + [profile], unused)
    ensures ResolveStructure(workOrder, core + [profile], transitions + [supersession]).Success?
  {
    var end := path[|path| - 1];
    assert end in path && profile in core + [profile];
    supersession := Signed(workOrder, end, profile, unused);
    SignedFits(workOrder, end, profile, transitions, core + [profile], unused);
    EndTakesOneMore(path, edges, profile, supersession);
    PathResolves(workOrder, core + [profile], transitions + [supersession], path + [profile], edges + [supersession]);
  }

  lemma BeforeStart(
    workOrder: WorkOrder, core: seq<Profile>, transitions: seq<Transition>, path: seq<Profile>, edges: seq<Transition>,
    profile: Profile, unused: nat)
    returns (supersession: Transition)
    requires FormsPath(workOrder, core, transitions, path, edges) && |edges| == |path|
    requires VerifyProfile(profile, workOrder) && forall p :: p in path ==> p.id != profile.id
    requires forall p :: p in path ==> p in core
    requires forall t :: t in transitions ==> exists p :: p in path && p.id == t.targetId
    ensures FitsIn(workOrder, supersession, transitions, core + [profile], unused)
    ensures ResolveStructure(workOrder, core + [profile], transitions + [supersession]).Success?
  {
    assert path[0] in path && profile in core + [profile];
    supersession := Signed(workOrder, profile, path[0], unused);
    SignedFits(workOrder, profile, path[0], transitions, core + [profile], unused);
    StartTakesOneMore(path, edges, profile, supersession);
    assert multiset([profile] + path) == multiset(core + [profile]);
    assert multiset([supersession] + edges) == multiset(transitions + [supersession]);
    PathResolves(workOrder, core + [profile], transitions + [supersession], [profile] + path, [supersession] + edges);
  }

  lemma EdgeTargets(path: seq<Profile>, edges: seq<Transition>)
    requires SimplePath(path, edges)
    ensures forall i :: 0 <= i < |edges| ==> edges[i].targetId == path[i].id
    ensures |edges| < |path| ==> forall t :: t in edges ==> t.targetId != path[|path| - 1].id
    ensures forall t :: t in edges ==> exists p :: p in path && p.id == t.targetId
  {
    forall i | 0 <= i < |edges|
      ensures edges[i].targetId == path[i].id && path[i] in path
    {
      assert i < |path| - 1 ==> Supersedes(edges[i], path[i], path[i + 1]);
    }
  }

  lemma EndTakesOneMore(path: seq<Profile>, edges: seq<Transition>, profile: Profile, link: Transition)
    requires SimplePath(path, edges) && |edges| < |path| && forall p :: p in path ==> p.id != profile.id
    requires Supersedes(link, path[|path| - 1], profile)
    ensures SimplePath(path + [profile], edges + [link])
  {
    var longer := path + [profile];
    forall i | 0 <= i < |longer| - 1
      ensures Supersedes((edges + [link])[i], longer[i], longer[i + 1])
    {
      assert i < |path| - 1 ==> Supersedes(edges[i], path[i], path[i + 1]);
    }
    forall i | 0 <= i < |path|
      ensures path[i].id != profile.id
    {
      assert path[i] in path;
    }
  }

  lemma StartTakesOneMore(path: seq<Profile>, edges: seq<Transition>, profile: Profile, link: Transition)
    requires SimplePath(path, edges) && |edges| == |path| && forall p :: p in path ==> p.id != profile.id
    requires Supersedes(link, profile, path[0])
    ensures SimplePath([profile] + path, [link] + edges)
  {
    var longer := [profile] + path;
    forall i | 0 <= i < |longer| - 1
      ensures Supersedes(([link] + edges)[i], longer[i], longer[i + 1])
    {
      assert i > 0 ==> Supersedes(edges[i - 1], path[i - 1], path[i]);
    }
    forall i | 0 <= i < |path|
      ensures path[i].id != profile.id
    {
      assert path[i] in path;
    }
  }

  /** A number no committed transition uses as id, nonce or digest. */
  function Above(transitions: seq<Transition>): nat {
    if transitions == [] then 0
    else
      var (t, rest) := (transitions[0], Above(transitions[1..]));
      1 + t.id + t.nonce + t.digest + rest
  }

  lemma {:induction false} AboveAll(transitions: seq<Transition>)
    ensures forall t :: t in transitions ==> t.id < Above(transitions) && t.nonce < Above(transitions) && t.digest < Above(transitions)
  {
    if transitions != [] {
      AboveAll(transitions[1..]);
      assert transitions == [transitions[0]] + transitions[1..];
    }
  }

  /** The one profile a ledger of gap two holds beyond a history that resolves. */
  lemma ExtraProfile(ledger: Ledger) returns (core: seq<Profile>, profile: Profile)
    requires Sound(ledger) && HasCore(ledger) && ledger.profiles != [] && Gap(ledger) == 2
    ensures ResolveStructure(ledger.workOrder, core, ledger.transitions).Success?
    ensures multiset(core + [profile]) == multiset(ledger.profiles)
    ensures profile in ledger.profiles && forall p :: p in core ==> p.id != profile.id
  {
    var rest;
    core, rest :| SplitAs(ledger, core, rest);
    GapCountsRest(ledger, core, rest);
    profile := rest[0];
    assert rest == [profile];
    assert multiset(core + [profile]) == multiset(ledger.profiles);
    SameMembers(core + [profile], ledger.profiles, profile);
    assert (core + [profile])[|core|] == profile;
    ExtraIsNew(ledger, core, profile);
  }

  /** In a sound ledger of gap two some supersession is accepted. */
  lemma GapTwoCloses(ledger: Ledger) returns (supersession: Transition)
    requires Sound(ledger) && HasCore(ledger) && ledger.profiles != [] && Gap(ledger) == 2
    ensures CommitTransitionOutcome(ledger, supersession) == Committed
  {
    var core, profile := ExtraProfile(ledger);
    var unused := Above(ledger.transitions);
    supersession := PathTakesOneMore(ledger.workOrder, core, ledger.transitions, profile, unused);
    JoinsAlike(supersession, core + [profile], ledger.profiles);
    ReferencesHold(ledger, supersession);
    ResolutionIgnoresOrder(
      ledger.workOrder, core + [profile], ledger.transitions + [supersession],
      ledger.profiles, ledger.transitions + [supersession]);
    NewEnough(ledger, supersession);
  }

  lemma JoinsAlike(transition: Transition, profiles: seq<Profile>, others: seq<Profile>)
    requires multiset(profiles) == multiset(others) && Joins(transition, profiles)
    ensures Joins(transition, others)
  {
    var target, replacement :|
      target in profiles && replacement in profiles && Supersedes(transition, target, replacement);
    SameMembers(profiles, others, target);
    SameMembers(profiles, others, replacement);
  }

  /** A verified transition with unused numbers is accepted when its references hold and the result resolves. */
  lemma NewEnough(ledger: Ledger, transition: Transition)
    requires Sound(ledger) && VerifyTransition(transition, ledger.workOrder)
    requires transition.id == transition.nonce == transition.digest == Above(ledger.transitions)
    requires ReferenceRefusal(ledger, transition).None?
    requires ResolveStructure(ledger.workOrder, ledger.profiles, ledger.transitions + [transition]).Success?
    ensures CommitTransitionOutcome(ledger, transition) == Committed
  {
    AboveAll(ledger.transitions);
  }

  lemma ExtraIsNew(ledger: Ledger, core: seq<Profile>, profile: Profile)
    requires Sound(ledger) && multiset(core + [profile]) == multiset(ledger.profiles)
    ensures forall p :: p in core ==> p.id != profile.id
  {
    assert NoDup(ledger.profiles);
    NoDupTransfers(ledger.profiles, core + [profile]);
    forall p | p in core
      ensures p.id != profile.id
    {
      var i :| 0 <= i < |core| && core[i] == p;
      assert (core + [profile])[i] == p && (core + [profile])[|core|] == profile;
      SameMembers(core + [profile], ledger.profiles, p);
      SameMembers(core + [profile], ledger.profiles, profile);
      assert p in ledger.profiles && profile in ledger.profiles && p != profile;
    }
  }

  lemma ReferencesHold(ledger: Ledger, supersession: Transition)
    requires forall t :: t in ledger.transitions ==> t.targetId != supersession.targetId
    requires Joins(supersession, ledger.profiles)
    ensures ReferenceRefusal(ledger, supersession).None?
  {
    var target, replacement :|
      target in ledger.profiles && replacement in ledger.profiles && Supersedes(supersession, target, replacement);
  }

  // ----- the condition -----------------------------------------------------------------------------

  lemma GapOneResolves(ledger: Ledger)
    requires HasCore(ledger) && ledger.profiles != [] && Gap(ledger) == 1
    ensures Resolution(ledger).Success?
  {
    var core, rest :| SplitAs(ledger, core, rest);
    GapCountsRest(ledger, core, rest);
    assert multiset(core) == multiset(ledger.profiles);
    ResolutionIgnoresOrder(ledger.workOrder, core, ledger.transitions, ledger.profiles, ledger.transitions);
  }

  /** For a ledger in the shape every run keeps, the gap decides. */
  lemma GapDecides(ledger: Ledger)
    requires Sound(ledger) && HasCore(ledger) && ledger.profiles != []
    ensures Gap(ledger) >= 1
    ensures Resolution(ledger).Success? <==> Gap(ledger) == 1
    ensures Closable(ledger) <==> Gap(ledger) <= 2
  {
    var core, rest :| SplitAs(ledger, core, rest);
    GapCountsRest(ledger, core, rest);
    if Resolution(ledger).Success? {
      ProfilesCountSupersessions(ledger.workOrder, ledger.profiles, ledger.transitions);
    }
    if Gap(ledger) == 1 {
      GapOneResolves(ledger);
      assert Run(ledger, []) == ledger;
    } else if Gap(ledger) == 2 {
      GapTwoResolves(ledger);
    } else {
      WideGapNeverResolves(ledger);
    }
  }

  /** Some run of further commits reaches a ledger that resolves. */
  ghost predicate Closable(ledger: Ledger) {
    exists more :: Resolution(Run(ledger, more)).Success?
  }

  /**
   A ledger that any run of commits reaches, with a profile in it, can still be brought to resolve if and only
   if its gap is at most two; with gap one it resolves as it is, with gap two one supersession is enough.
   */
  lemma ResolvesAgainIff(workOrder: WorkOrder, operations: seq<Operation>)
    requires Run(EmptyLedger(workOrder), operations).profiles != []
    ensures var ledger := Run(EmptyLedger(workOrder), operations);
      && Gap(ledger) >= 1
      && (Resolution(ledger).Success? <==> Gap(ledger) == 1)
      && (Closable(ledger) <==> Gap(ledger) <= 2)
  {
    EmptyIsSound(workOrder);
    RunKeepsSound(EmptyLedger(workOrder), operations);
    RunKeepsCore(EmptyLedger(workOrder), operations);
    GapDecides(Run(EmptyLedger(workOrder), operations));
  }

  lemma GapTwoResolves(ledger: Ledger)
    requires Sound(ledger) && HasCore(ledger) && ledger.profiles != [] && Gap(ledger) == 2
    ensures Closable(ledger)
  {
    var supersession := GapTwoCloses(ledger);
    TransitionCommitResolves(ledger, supersession);
    var more := [AddTransition(supersession)];
    assert more[1..] == [];
    assert Run(ledger, more) == Apply(ledger, AddTransition(supersession));
  }

  lemma WideGapNeverResolves(ledger: Ledger)
    requires Gap(ledger) >= 3
    ensures !Closable(ledger)
  {
    forall more
      ensures Resolution(Run(ledger, more)).Failure?
    {
      WideGapIsForever(ledger, more, SampleTransition());
    }
  }

  function SampleTransition(): Transition {
    Transition(0, 0, 0, 0, Revoked, 0, 0, 0, 0, Signature(0, TransitionDomain, 0))
  }

  /** Three profile commits reach such a ledger. */
  lemma WideGapIsReached() returns (ledger: Ledger, operations: seq<Operation>)
    ensures ledger == Run(EmptyLedger(SampleWorkOrder()), operations) && |operations| == 3
    ensures |ledger.profiles| == 3 && Gap(ledger) == 3 && !Closable(ledger)
  {
    operations := ProfileCommits(3);
    ledger := Run(EmptyLedger(SampleWorkOrder()), operations);
    ProfilesAreCommitted(3);
    assert Supersessions([]) == {};
    WideGapNeverResolves(ledger);
  }
}

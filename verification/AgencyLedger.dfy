/**
 The append-only agency ledger (src/openworkproof/agency_ledger.py): three tables that grow by
 guarded commits, and what holds over every run of commits. Rows are kept as the program reads
 them back, ordered by id.
 */
module AgencyLedger {
  import opened Collections
  import opened AgencyHistory
  import opened AgencyResolver

  datatype Appeal = Appeal(
    id: Digest,
    workOrderDigest: Digest,
    profileId: Digest,
    profileDigest: Digest,
    role: Role,
    subjectId: string,
    nonce: Digest,
    digest: Digest,
    signerKeyId: KeyId,
    signature: Signature)

  datatype Ledger = Ledger(
    workOrder: WorkOrder,
    profiles: seq<Profile>,
    transitions: seq<Transition>,
    appeals: seq<Appeal>)

  datatype Refusal =
    | InvalidObject
    | IdAlreadyUsed
    | TargetAlreadyTransitioned
    | UnknownProfile
    | ProfileDigestMismatch
    | UnknownReplacement
    | ReplacementMismatch
    | InvalidRow
    | WouldBreakHistory(error: HistoryError)
    | NonceUsed
    | DigestUsed

  datatype Outcome = Committed | AlreadyCommitted | Refused(refusal: Refusal)

  // ----- tables ordered by id ---------------------------------------------------

  function InsertRow<T>(rows: seq<T>, row: T, id: T -> nat): seq<T> {
    if rows == [] || id(row) < id(rows[0]) then [row] + rows
    else [rows[0]] + InsertRow(rows[1..], row, id)
  }

  ghost predicate OrderedById<T>(rows: seq<T>, id: T -> nat) {
    forall i, j :: 0 <= i < j < |rows| ==> id(rows[i]) < id(rows[j])
  }

  lemma {:induction false} InsertRowAdds<T>(rows: seq<T>, row: T, id: T -> nat)
    ensures multiset(InsertRow(rows, row, id)) == multiset(rows) + multiset{row}
    ensures forall x :: x in InsertRow(rows, row, id) <==> x in rows || x == row
    ensures |InsertRow(rows, row, id)| == |rows| + 1
  {
    if !(rows == [] || id(row) < id(rows[0])) {
      InsertRowAdds(rows[1..], row, id);
      assert rows == [rows[0]] + rows[1..];
    }
  }

  lemma {:induction false} InsertRowKeepsOrder<T>(rows: seq<T>, row: T, id: T -> nat)
    requires OrderedById(rows, id) && forall x :: x in rows ==> id(x) != id(row)
    ensures OrderedById(InsertRow(rows, row, id), id)
  {
    if !(rows == [] || id(row) < id(rows[0])) {
      InsertRowKeepsOrder(rows[1..], row, id);
      InsertRowAdds(rows[1..], row, id);
      assert rows[0] in rows && id(rows[0]) < id(row);
      var rest := InsertRow(rows[1..], row, id);
      forall j | 0 <= j < |rest|
        ensures id(rows[0]) < id(rest[j])
      {
        RowOrigin(rows[1..], row, id, j);
      }
    }
  }

  lemma {:induction false} RowOrigin<T>(rows: seq<T>, row: T, id: T -> nat, j: nat)
    requires j < |InsertRow(rows, row, id)|
    ensures InsertRow(rows, row, id)[j] == row || exists k :: 0 <= k < |rows| && rows[k] == InsertRow(rows, row, id)[j]
  {
    if !(rows == [] || id(row) < id(rows[0])) && j > 0 {
      RowOrigin(rows[1..], row, id, j - 1);
    }
  }

  const PROFILE_KEY: Profile -> nat := (p: Profile) => p.id
  const TRANSITION_KEY: Transition -> nat := (t: Transition) => t.id
  const APPEAL_KEY: Appeal -> nat := (a: Appeal) => a.id

  // ----- one commit, as a function of the tables ---------------------------------

  predicate VerifyAppeal(appeal: Appeal, workOrder: WorkOrder) {
    var matches := AppellantBindings(workOrder.keyBindings, appeal);
    && appeal.workOrderDigest == workOrder.digest
    && |matches| == 1
    && matches[0].decodable
    && VerifyPayload(appeal.signature, AppealDomain, appeal.digest, matches[0].keyId)
  }

  function AppellantBindings(bindings: seq<KeyBinding>, appeal: Appeal): seq<KeyBinding> {
    if bindings == [] then []
    else
      var b := bindings[0];
      (if b.role == appeal.role && b.subjectId == appeal.subjectId && b.keyId == appeal.signerKeyId then [b] else [])
      + AppellantBindings(bindings[1..], appeal)
  }

  predicate RowsVerified(ledger: Ledger) {
    && (forall p | p in ledger.profiles :: VerifyProfile(p, ledger.workOrder))
    && (forall t | t in ledger.transitions :: VerifyTransition(t, ledger.workOrder))
  }

  function CommitProfileOutcome(ledger: Ledger, profile: Profile): Outcome {
    if !VerifyProfile(profile, ledger.workOrder) then Refused(InvalidObject)
    else if profile in ledger.profiles then AlreadyCommitted
    else if exists p :: p in ledger.profiles && p.id == profile.id then Refused(IdAlreadyUsed)
    else if exists p :: p in ledger.profiles && p.nonce == profile.nonce then Refused(NonceUsed)
    else if exists p :: p in ledger.profiles && p.digest == profile.digest then Refused(DigestUsed)
    else Committed
  }

  function ReferenceRefusal(ledger: Ledger, transition: Transition): Option<Refusal> {
    if exists t :: t in ledger.transitions && t.targetId == transition.targetId then Some(TargetAlreadyTransitioned)
    else if !exists p :: p in ledger.profiles && p.id == transition.targetId then Some(UnknownProfile)
    else if !exists p :: p in ledger.profiles && p.id == transition.targetId && p.digest == transition.targetDigest
    then Some(ProfileDigestMismatch)
    else match transition.kind
      case Revoked => None
      case Superseded(id, digest) =>
        if !exists p :: p in ledger.profiles && p.id == id then Some(UnknownReplacement)
        else if !exists p :: p in ledger.profiles && p.id == id && p.digest == digest then Some(ReplacementMismatch)
        else None
  }

  function CommitTransitionOutcome(ledger: Ledger, transition: Transition): Outcome {
    if !VerifyTransition(transition, ledger.workOrder) then Refused(InvalidObject)
    else if transition in ledger.transitions then AlreadyCommitted
    else if exists t :: t in ledger.transitions && t.id == transition.id then Refused(IdAlreadyUsed)
    else if ReferenceRefusal(ledger, transition).Some? then Refused(ReferenceRefusal(ledger, transition).value)
    else if !RowsVerified(ledger) then Refused(InvalidRow)
    else
      var staged := ResolveStructure(ledger.workOrder, ledger.profiles, ledger.transitions + [transition]);
      if staged.Failure? then Refused(WouldBreakHistory(staged.error))
      else if exists t :: t in ledger.transitions && t.nonce == transition.nonce then Refused(NonceUsed)
      else if exists t :: t in ledger.transitions && t.digest == transition.digest then Refused(DigestUsed)
      else Committed
  }

  function CommitAppealOutcome(ledger: Ledger, appeal: Appeal): Outcome {
    if !VerifyAppeal(appeal, ledger.workOrder) then Refused(InvalidObject)
    else if appeal in ledger.appeals then AlreadyCommitted
    else if exists a :: a in ledger.appeals && a.id == appeal.id then Refused(IdAlreadyUsed)
    else if !exists p :: p in ledger.profiles && p.id == appeal.profileId then Refused(UnknownProfile)
    else if !exists p :: p in ledger.profiles && p.id == appeal.profileId && p.digest == appeal.profileDigest
    then Refused(ProfileDigestMismatch)
    else if exists a :: a in ledger.appeals && a.nonce == appeal.nonce then Refused(NonceUsed)
    else if exists a :: a in ledger.appeals && a.digest == appeal.digest then Refused(DigestUsed)
    else Committed
  }

  datatype Operation =
    | AddProfile(profile: Profile)
    | AddTransition(transition: Transition)
    | AddAppeal(appeal: Appeal)

  function OutcomeOf(ledger: Ledger, operation: Operation): Outcome {
    match operation
    case AddProfile(profile) => CommitProfileOutcome(ledger, profile)
    case AddTransition(transition) => CommitTransitionOutcome(ledger, transition)
    case AddAppeal(appeal) => CommitAppealOutcome(ledger, appeal)
  }

  function Apply(ledger: Ledger, operation: Operation): Ledger {
    if OutcomeOf(ledger, operation) != Committed then ledger
    else match operation
      case AddProfile(profile) => ledger.(profiles := InsertRow(ledger.profiles, profile, PROFILE_KEY))
      case AddTransition(transition) => ledger.(transitions := InsertRow(ledger.transitions, transition, TRANSITION_KEY))
      case AddAppeal(appeal) => ledger.(appeals := InsertRow(ledger.appeals, appeal, APPEAL_KEY))
  }

  function Run(ledger: Ledger, operations: seq<Operation>): Ledger
    decreases |operations|
  {
    if operations == [] then ledger
    else Run(Apply(ledger, operations[0]), operations[1..])
  }

  function EmptyLedger(workOrder: WorkOrder): Ledger {
    Ledger(workOrder, [], [], [])
  }

  // ----- the ledger file --------------------------------------------------------

  class LedgerFile {
    const workOrder: WorkOrder
    var profiles: seq<Profile>
    var transitions: seq<Transition>
    var appeals: seq<Appeal>

    ghost function Tables(): Ledger
      reads this
    {
      Ledger(workOrder, profiles, transitions, appeals)
    }

    constructor (authoritative: WorkOrder)
      ensures Tables() == EmptyLedger(authoritative)
    {
      workOrder := authoritative;
      profiles, transitions, appeals := [], [], [];
    }

    method CommitProfile(profile: Profile) returns (outcome: Outcome)
      modifies this
      ensures outcome == CommitProfileOutcome(old(Tables()), profile)
      ensures Tables() == Apply(old(Tables()), AddProfile(profile))
    {
      if !VerifyProfile(profile, workOrder) {
        return Refused(InvalidObject);
      }
      if exists p | p in profiles :: p.id == profile.id {
        return if profile in profiles then AlreadyCommitted else Refused(IdAlreadyUsed);
      }
      if exists p | p in profiles :: p.nonce == profile.nonce {
        return Refused(NonceUsed);
      }
      if exists p | p in profiles :: p.digest == profile.digest {
        return Refused(DigestUsed);
      }
      profiles := InsertRow(profiles, profile, PROFILE_KEY);
      return Committed;
    }

    method CheckTransitionReferences(transition: Transition) returns (refusal: Option<Refusal>)
      ensures refusal == ReferenceRefusal(Tables(), transition)
    {
      if exists t | t in transitions :: t.targetId == transition.targetId {
        return Some(TargetAlreadyTransitioned);
      }
      var targetKnown, targetMatches := false, false;
      for i := 0 to |profiles|
        invariant targetKnown <==> exists p :: p in profiles[..i] && p.id == transition.targetId
        invariant targetMatches <==> exists p :: p in profiles[..i] && p.id == transition.targetId
                                                 && p.digest == transition.targetDigest
      {
        assert profiles[..i + 1] == profiles[..i] + [profiles[i]];
        if profiles[i].id == transition.targetId {
          targetKnown := true;
          targetMatches := targetMatches || profiles[i].digest == transition.targetDigest;
        }
      }
      assert profiles[..|profiles|] == profiles;
      if !targetKnown {
        return Some(UnknownProfile);
      }
      if !targetMatches {
        return Some(ProfileDigestMismatch);
      }
      match transition.kind {
        case Revoked =>
          return None;
        case Superseded(id, digest) =>
          if !exists p | p in profiles :: p.id == id {
            return Some(UnknownReplacement);
          }
          if !exists p | p in profiles :: p.id == id && p.digest == digest {
            return Some(ReplacementMismatch);
          }
          return None;
      }
    }

    method CommitTransition(transition: Transition) returns (outcome: Outcome)
      modifies this
      ensures outcome == CommitTransitionOutcome(old(Tables()), transition)
      ensures Tables() == Apply(old(Tables()), AddTransition(transition))
    {
      if !VerifyTransition(transition, workOrder) {
        return Refused(InvalidObject);
      }
      if exists t | t in transitions :: t.id == transition.id {
        return if transition in transitions then AlreadyCommitted else Refused(IdAlreadyUsed);
      }
      var refusal := CheckTransitionReferences(transition);
      if refusal.Some? {
        return Refused(refusal.value);
      }
      if !((forall p | p in profiles :: VerifyProfile(p, workOrder))
           && (forall t | t in transitions :: VerifyTransition(t, workOrder))) {
        return Refused(InvalidRow);
      }
      var staged := ResolveHumanAgencyProfileStructure(workOrder, profiles, transitions + [transition]);
      if staged.Failure? {
        return Refused(WouldBreakHistory(staged.error));
      }
      if exists t | t in transitions :: t.nonce == transition.nonce {
        return Refused(NonceUsed);
      }
      if exists t | t in transitions :: t.digest == transition.digest {
        return Refused(DigestUsed);
      }
      transitions := InsertRow(transitions, transition, TRANSITION_KEY);
      return Committed;
    }

    method CommitAppeal(appeal: Appeal) returns (outcome: Outcome)
      modifies this
      ensures outcome == CommitAppealOutcome(old(Tables()), appeal)
      ensures Tables() == Apply(old(Tables()), AddAppeal(appeal))
    {
      if !VerifyAppeal(appeal, workOrder) {
        return Refused(InvalidObject);
      }
      if exists a | a in appeals :: a.id == appeal.id {
        return if appeal in appeals then AlreadyCommitted else Refused(IdAlreadyUsed);
      }
      if !exists p | p in profiles :: p.id == appeal.profileId {
        return Refused(UnknownProfile);
      }
      if !exists p | p in profiles :: p.id == appeal.profileId && p.digest == appeal.profileDigest {
        return Refused(ProfileDigestMismatch);
      }
      if exists a | a in appeals :: a.nonce == appeal.nonce {
        return Refused(NonceUsed);
      }
      if exists a | a in appeals :: a.digest == appeal.digest {
        return Refused(DigestUsed);
      }
      appeals := InsertRow(appeals, appeal, APPEAL_KEY);
      return Committed;
    }
  }

  // ----- what every commit keeps --------------------------------------------------

  ghost predicate ProfileRowsSound(ledger: Ledger) {
    && OrderedById(ledger.profiles, PROFILE_KEY)
    && (forall p :: p in ledger.profiles ==> VerifyProfile(p, ledger.workOrder))
  }

  ghost predicate TransitionRowsSound(ledger: Ledger) {
    && OrderedById(ledger.transitions, TRANSITION_KEY)
    && (forall t :: t in ledger.transitions ==> VerifyTransition(t, ledger.workOrder))
    && (forall t, u :: t in ledger.transitions && u in ledger.transitions && t.targetId == u.targetId ==> t == u)
  }

  ghost predicate Appealed(ledger: Ledger, appeal: Appeal) {
    exists p :: p in ledger.profiles && p.id == appeal.profileId && p.digest == appeal.profileDigest
  }

  ghost predicate AppealRowsSound(ledger: Ledger) {
    && OrderedById(ledger.appeals, APPEAL_KEY)
    && (forall a :: a in ledger.appeals ==> VerifyAppeal(a, ledger.workOrder) && Appealed(ledger, a))
  }

  /** Rows are verified and ordered by id, no profile is the target of two transitions, appeals name real profiles. */
  ghost predicate Sound(ledger: Ledger) {
    ProfileRowsSound(ledger) && TransitionRowsSound(ledger) && AppealRowsSound(ledger)
  }

  lemma ProfileCommitKeepsSound(ledger: Ledger, profile: Profile)
    requires Sound(ledger) && CommitProfileOutcome(ledger, profile) == Committed
    ensures Sound(Apply(ledger, AddProfile(profile)))
  {
    var after := Apply(ledger, AddProfile(profile));
    InsertRowAdds(ledger.profiles, profile, PROFILE_KEY);
    InsertRowKeepsOrder(ledger.profiles, profile, PROFILE_KEY);
    forall a | a in after.appeals
      ensures Appealed(after, a)
    {
      var p :| p in ledger.profiles && p.id == a.profileId && p.digest == a.profileDigest;
      assert p in after.profiles;
    }
  }

  lemma TransitionCommitKeepsSound(ledger: Ledger, transition: Transition)
    requires Sound(ledger) && CommitTransitionOutcome(ledger, transition) == Committed
    ensures Sound(Apply(ledger, AddTransition(transition)))
  {
    var after := Apply(ledger, AddTransition(transition));
    InsertRowAdds(ledger.transitions, transition, TRANSITION_KEY);
    InsertRowKeepsOrder(ledger.transitions, transition, TRANSITION_KEY);
    assert forall a :: Appealed(ledger, a) ==> Appealed(after, a);
  }

  lemma AppealCommitKeepsSound(ledger: Ledger, appeal: Appeal)
    requires Sound(ledger) && CommitAppealOutcome(ledger, appeal) == Committed
    ensures Sound(Apply(ledger, AddAppeal(appeal)))
  {
    var after := Apply(ledger, AddAppeal(appeal));
    InsertRowAdds(ledger.appeals, appeal, APPEAL_KEY);
    InsertRowKeepsOrder(ledger.appeals, appeal, APPEAL_KEY);
    assert forall a :: Appealed(ledger, a) ==> Appealed(after, a);
    assert Appealed(ledger, appeal);
  }

  lemma ApplyKeepsSound(ledger: Ledger, operation: Operation)
    requires Sound(ledger)
    ensures Sound(Apply(ledger, operation))
  {
    if OutcomeOf(ledger, operation) == Committed {
      match operation {
        case AddProfile(profile) => ProfileCommitKeepsSound(ledger, profile);
        case AddTransition(transition) => TransitionCommitKeepsSound(ledger, transition);
        case AddAppeal(appeal) => AppealCommitKeepsSound(ledger, appeal);
      }
    }
  }

  lemma {:induction false} RunKeepsSound(ledger: Ledger, operations: seq<Operation>)
    requires Sound(ledger)
    ensures Sound(Run(ledger, operations))
    decreases |operations|
  {
    if operations != [] {
      ApplyKeepsSound(ledger, operations[0]);
      RunKeepsSound(Apply(ledger, operations[0]), operations[1..]);
    }
  }

  lemma EmptyIsSound(workOrder: WorkOrder)
    ensures Sound(EmptyLedger(workOrder))
  {
  }

  ghost predicate Extends(before: Ledger, after: Ledger) {
    && after.workOrder == before.workOrder
    && multiset(before.profiles) <= multiset(after.profiles)
    && multiset(before.transitions) <= multiset(after.transitions)
    && multiset(before.appeals) <= multiset(after.appeals)
  }

  lemma ApplyExtends(ledger: Ledger, operation: Operation)
    ensures Extends(ledger, Apply(ledger, operation))
  {
    if OutcomeOf(ledger, operation) == Committed {
      match operation {
        case AddProfile(profile) => InsertRowAdds(ledger.profiles, profile, PROFILE_KEY);
        case AddTransition(transition) => InsertRowAdds(ledger.transitions, transition, TRANSITION_KEY);
        case AddAppeal(appeal) => InsertRowAdds(ledger.appeals, appeal, APPEAL_KEY);
      }
    }
  }

  lemma {:induction false} RunExtends(ledger: Ledger, operations: seq<Operation>)
    ensures Extends(ledger, Run(ledger, operations))
    decreases |operations|
  {
    if operations != [] {
      ApplyExtends(ledger, operations[0]);
      RunExtends(Apply(ledger, operations[0]), operations[1..]);
    }
  }

  /** The history a commit of a transition leaves behind resolves, whatever order its rows are read in. */
  lemma TransitionCommitResolves(ledger: Ledger, transition: Transition)
    requires CommitTransitionOutcome(ledger, transition) == Committed
    ensures var after := Apply(ledger, AddTransition(transition));
      ResolveStructure(after.workOrder, after.profiles, after.transitions).Success?
  {
    InsertRowAdds(ledger.transitions, transition, TRANSITION_KEY);
    ResolutionIgnoresOrder(ledger.workOrder, ledger.profiles, ledger.transitions + [transition],
                           ledger.profiles, InsertRow(ledger.transitions, transition, TRANSITION_KEY));
  }

  // ----- revocation is permanent ----------------------------------------------------

  ghost predicate HoldsRevocation(ledger: Ledger) {
    exists t :: t in ledger.transitions && t.kind == Revoked
  }

  function Resolution(ledger: Ledger): Result<Resolved, HistoryError> {
    ResolveStructure(ledger.workOrder, ledger.profiles, ledger.transitions)
  }

  lemma RevokedHistoryIsNotActive(
    workOrder: WorkOrder, profiles: seq<Profile>, transitions: seq<Transition>, revocation: Transition)
    requires revocation in transitions && revocation.kind == Revoked
    requires ResolveStructure(workOrder, profiles, transitions).Success?
    ensures ResolveStructure(workOrder, profiles, transitions).value.status == RevokedStatus
    ensures ResolveStructure(workOrder, profiles, transitions).value.current == None
  {
    var path, edges := ResolvedHistoryIsPath(workOrder, profiles, transitions);
    SameMembers(edges, transitions, revocation);
    var i :| 0 <= i < |edges| && edges[i] == revocation;
    assert i < |path| - 1 ==> Supersedes(edges[i], path[i], path[i + 1]);
  }

  /** After a revocation is committed no run of further commits reaches an active history. */
  lemma RevocationIsPermanent(ledger: Ledger, operations: seq<Operation>)
    requires HoldsRevocation(ledger)
    ensures HoldsRevocation(Run(ledger, operations))
    ensures var r := Resolution(Run(ledger, operations)); r.Failure? || r.value.status == RevokedStatus
  {
    var after := Run(ledger, operations);
    RunExtends(ledger, operations);
    var revocation :| revocation in ledger.transitions && revocation.kind == Revoked;
    assert revocation in multiset(ledger.transitions) && revocation in multiset(after.transitions);
    if Resolution(after).Success? {
      RevokedHistoryIsNotActive(after.workOrder, after.profiles, after.transitions, revocation);
    }
  }

  // ----- growth and gaps --------------------------------------------------------------

  /** Across any run, what was resolved before stays one contiguous block of what is resolved after. */
  lemma ResolvedHistoryGrowsAround(ledger: Ledger, operations: seq<Operation>)
    returns (start: nat)
    requires Resolution(ledger).Success? && Resolution(Run(ledger, operations)).Success?
    ensures var before := Resolution(ledger).value.profileIds;
      var after := Resolution(Run(ledger, operations)).value.profileIds;
      start + |before| <= |after| && after[start..start + |before|] == before
  {
    var after := Run(ledger, operations);
    RunExtends(ledger, operations);
    start := OldPathIsBlock(ledger.workOrder, ledger.profiles, ledger.transitions, after.profiles, after.transitions);
  }

  /** How many committed profiles no supersession accounts for. */
  function Gap(ledger: Ledger): int {
    |ledger.profiles| - |Supersessions(ledger.transitions)|
  }

  lemma SupersessionsInsert(transitions: seq<Transition>, transition: Transition)
    ensures Supersessions(InsertRow(transitions, transition, TRANSITION_KEY))
         == Supersessions(transitions) + if transition.kind.Superseded? then {transition} else {}
  {
    InsertRowAdds(transitions, transition, TRANSITION_KEY);
  }

  /** A resolvable ledger has gap one; a supersession needs gap two just before it, a revocation gap one. */
  lemma TransitionCommitClosesGap(ledger: Ledger, transition: Transition)
    requires CommitTransitionOutcome(ledger, transition) == Committed
    ensures Gap(Apply(ledger, AddTransition(transition))) == 1
    ensures Gap(ledger) == if transition.kind.Superseded? then 2 else 1
  {
    var after := Apply(ledger, AddTransition(transition));
    TransitionCommitResolves(ledger, transition);
    ProfilesCountSupersessions(after.workOrder, after.profiles, after.transitions);
    SupersessionsInsert(ledger.transitions, transition);
  }

  lemma {:induction false} WideGapStays(ledger: Ledger, operations: seq<Operation>)
    requires Gap(ledger) >= 3
    ensures Gap(Run(ledger, operations)) >= 3
    ensures Run(ledger, operations).transitions == ledger.transitions
    decreases |operations|
  {
    if operations != [] {
      var next := Apply(ledger, operations[0]);
      if OutcomeOf(ledger, operations[0]) == Committed {
        match operations[0] {
          case AddProfile(profile) => InsertRowAdds(ledger.profiles, profile, PROFILE_KEY);
          case AddTransition(transition) => TransitionCommitClosesGap(ledger, transition);
          case AddAppeal(_) =>
        }
      }
      WideGapStays(next, operations[1..]);
    }
  }

  /**
   A gap of three or more can never be closed: no later transition is ever accepted and the history
   never resolves again.
   */
  lemma WideGapIsForever(ledger: Ledger, operations: seq<Operation>, transition: Transition)
    requires Gap(ledger) >= 3
    ensures Resolution(Run(ledger, operations)).Failure?
    ensures OutcomeOf(Run(ledger, operations), AddTransition(transition)) != Committed
  {
    var after := Run(ledger, operations);
    WideGapStays(ledger, operations);
    if Resolution(after).Success? {
      ProfilesCountSupersessions(after.workOrder, after.profiles, after.transitions);
    }
    if OutcomeOf(after, AddTransition(transition)) == Committed {
      TransitionCommitClosesGap(after, transition);
    }
  }

  // ----- exactly when each commit is accepted -----------------------------------------

  lemma ProfileCommittedIff(ledger: Ledger, profile: Profile)
    ensures CommitProfileOutcome(ledger, profile) == Committed <==>
      && VerifyProfile(profile, ledger.workOrder)
      && forall p :: p in ledger.profiles ==> p.id != profile.id && p.nonce != profile.nonce && p.digest != profile.digest
    ensures CommitProfileOutcome(ledger, profile) == AlreadyCommitted <==>
      VerifyProfile(profile, ledger.workOrder) && profile in ledger.profiles
  {
  }

  lemma AppealCommittedIff(ledger: Ledger, appeal: Appeal)
    ensures CommitAppealOutcome(ledger, appeal) == Committed <==>
      && VerifyAppeal(appeal, ledger.workOrder) && Appealed(ledger, appeal)
      && forall a :: a in ledger.appeals ==> a.id != appeal.id && a.nonce != appeal.nonce && a.digest != appeal.digest
    ensures CommitAppealOutcome(ledger, appeal) == AlreadyCommitted <==>
      VerifyAppeal(appeal, ledger.workOrder) && appeal in ledger.appeals
  {
  }

  ghost predicate FreshTransition(ledger: Ledger, transition: Transition) {
    forall t :: t in ledger.transitions ==>
      t.id != transition.id && t.nonce != transition.nonce && t.digest != transition.digest
  }

  /**
   A transition is committed exactly when it is new and, with it, the profiles form one path. The reference checks
   before that refuse nothing more.
   */
  lemma TransitionCommittedIff(ledger: Ledger, transition: Transition)
    requires Sound(ledger)
    ensures CommitTransitionOutcome(ledger, transition) == Committed <==>
      && FreshTransition(ledger, transition)
      && exists path, edges ::
           FormsPath(ledger.workOrder, ledger.profiles, ledger.transitions + [transition], path, edges)
  {
    var staged := ledger.transitions + [transition];
    ResolvesIffPath(ledger.workOrder, ledger.profiles, staged);
    assert transition in staged;
    if FreshTransition(ledger, transition) && ResolveStructure(ledger.workOrder, ledger.profiles, staged).Success? {
      var path, edges := ResolvedHistoryIsPath(ledger.workOrder, ledger.profiles, staged);
      PathPassesReferences(ledger, transition, path, edges);
    }
  }

  /** On a path every reference check of its transitions passes. */
  lemma PathPassesReferences(ledger: Ledger, transition: Transition, path: seq<Profile>, edges: seq<Transition>)
    requires FormsPath(ledger.workOrder, ledger.profiles, ledger.transitions + [transition], path, edges)
    requires FreshTransition(ledger, transition)
    ensures VerifyTransition(transition, ledger.workOrder) && ReferenceRefusal(ledger, transition).None?
  {
    var staged := ledger.transitions + [transition];
    assert transition in staged;
    SameMembers(edges, staged, transition);
    var i :| 0 <= i < |edges| && edges[i] == transition;
    assert path[i] in path;
    SameMembers(path, ledger.profiles, path[i]);
    if i < |path| - 1 {
      assert Supersedes(edges[i], path[i], path[i + 1]) && path[i + 1] in path;
      SameMembers(path, ledger.profiles, path[i + 1]);
    }
    forall t | t in ledger.transitions
      ensures t.targetId != transition.targetId
    {
      assert t in staged;
      SameMembers(edges, staged, t);
      var j :| 0 <= j < |edges| && edges[j] == t;
      assert j < |path| - 1 ==> Supersedes(edges[j], path[j], path[j + 1]);
    }
  }

  /** The reason given for refusing an operation is true of the tables. */
  ghost predicate RefusalHolds(ledger: Ledger, operation: Operation, refusal: Refusal) {
    match refusal
    case InvalidObject => !Verified(ledger, operation)
    case IdAlreadyUsed => IdTaken(ledger, operation) && !Present(ledger, operation)
    case TargetAlreadyTransitioned =>
      operation.AddTransition? && exists t :: t in ledger.transitions && t.targetId == operation.transition.targetId
    case UnknownProfile =>
      !operation.AddProfile? && forall p :: p in ledger.profiles ==> p.id != NamedProfile(operation).0
    case ProfileDigestMismatch =>
      && !operation.AddProfile?
      && (exists p :: p in ledger.profiles && p.id == NamedProfile(operation).0)
      && forall p :: p in ledger.profiles && p.id == NamedProfile(operation).0 ==> p.digest != NamedProfile(operation).1
    case UnknownReplacement =>
      && operation.AddTransition? && operation.transition.kind.Superseded?
      && forall p :: p in ledger.profiles ==> p.id != operation.transition.kind.replacementId
    case ReplacementMismatch =>
      && operation.AddTransition? && operation.transition.kind.Superseded?
      && (exists p :: p in ledger.profiles && p.id == operation.transition.kind.replacementId)
      && forall p :: p in ledger.profiles && p.id == operation.transition.kind.replacementId ==>
           p.digest != operation.transition.kind.replacementDigest
    case InvalidRow => !RowsVerified(ledger)
    case WouldBreakHistory(_) =>
      && operation.AddTransition?
      && !exists path, edges ::
           FormsPath(ledger.workOrder, ledger.profiles, ledger.transitions + [operation.transition], path, edges)
    case NonceUsed => NonceTaken(ledger, operation)
    case DigestUsed => DigestTaken(ledger, operation)
  }

  predicate Verified(ledger: Ledger, operation: Operation) {
    match operation
    case AddProfile(profile) => VerifyProfile(profile, ledger.workOrder)
    case AddTransition(transition) => VerifyTransition(transition, ledger.workOrder)
    case AddAppeal(appeal) => VerifyAppeal(appeal, ledger.workOrder)
  }

  predicate Present(ledger: Ledger, operation: Operation) {
    match operation
    case AddProfile(profile) => profile in ledger.profiles
    case AddTransition(transition) => transition in ledger.transitions
    case AddAppeal(appeal) => appeal in ledger.appeals
  }

  ghost predicate IdTaken(ledger: Ledger, operation: Operation) {
    match operation
    case AddProfile(profile) => exists p :: p in ledger.profiles && p.id == profile.id
    case AddTransition(transition) => exists t :: t in ledger.transitions && t.id == transition.id
    case AddAppeal(appeal) => exists a :: a in ledger.appeals && a.id == appeal.id
  }

  ghost predicate NonceTaken(ledger: Ledger, operation: Operation) {
    match operation
    case AddProfile(profile) => exists p :: p in ledger.profiles && p.nonce == profile.nonce
    case AddTransition(transition) => exists t :: t in ledger.transitions && t.nonce == transition.nonce
    case AddAppeal(appeal) => exists a :: a in ledger.appeals && a.nonce == appeal.nonce
  }

  ghost predicate DigestTaken(ledger: Ledger, operation: Operation) {
    match operation
    case AddProfile(profile) => exists p :: p in ledger.profiles && p.digest == profile.digest
    case AddTransition(transition) => exists t :: t in ledger.transitions && t.digest == transition.digest
    case AddAppeal(appeal) => exists a :: a in ledger.appeals && a.digest == appeal.digest
  }

  /** The profile a transition or an appeal is about, by id and digest. */
  function NamedProfile(operation: Operation): (Digest, Digest)
    requires !operation.AddProfile?
  {
    match operation
    case AddTransition(transition) => (transition.targetId, transition.targetDigest)
    case AddAppeal(appeal) => (appeal.profileId, appeal.profileDigest)
  }

  lemma ProfileRefusalIsTrue(ledger: Ledger, profile: Profile)
    ensures var outcome := CommitProfileOutcome(ledger, profile);
      outcome.Refused? ==> RefusalHolds(ledger, AddProfile(profile), outcome.refusal)
  {
  }

  lemma TransitionRefusalIsTrue(ledger: Ledger, transition: Transition)
    ensures var outcome := CommitTransitionOutcome(ledger, transition);
      outcome.Refused? ==> RefusalHolds(ledger, AddTransition(transition), outcome.refusal)
  {
    ResolvesIffPath(ledger.workOrder, ledger.profiles, ledger.transitions + [transition]);
  }

  lemma AppealRefusalIsTrue(ledger: Ledger, appeal: Appeal)
    ensures var outcome := CommitAppealOutcome(ledger, appeal);
      outcome.Refused? ==> RefusalHolds(ledger, AddAppeal(appeal), outcome.refusal)
  {
  }

  /** Every refusal is for a reason that holds, and what was committed before is never refused. */
  lemma RefusalIsTrue(ledger: Ledger, operation: Operation)
    ensures OutcomeOf(ledger, operation).Refused? ==> RefusalHolds(ledger, operation, OutcomeOf(ledger, operation).refusal)
    ensures Verified(ledger, operation) && Present(ledger, operation) ==> OutcomeOf(ledger, operation) == AlreadyCommitted
  {
    match operation
    case AddProfile(profile) => ProfileRefusalIsTrue(ledger, profile);
    case AddTransition(transition) => TransitionRefusalIsTrue(ledger, transition);
    case AddAppeal(appeal) => AppealRefusalIsTrue(ledger, appeal);
  }
}

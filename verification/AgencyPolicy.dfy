/**
 The human agency layer of authorization (src/openworkproof/agency_policy.py): a tool call is allowed
 only by an active profile that delegates the tool, on top of an unchanged base decision.
 */
module AgencyPolicy {
  import opened Collections
  import opened AgencyHistory
  import opened AgencyResolver
  import opened AgencyLedger
  import opened AgencyFaults

  datatype DenyCode =
    | NoActiveProfile
    | HistoryIsInvalid
    | ProfileHasExpired
    | WrongWorkOrder
    | HumanDecisionRequired
    | ActionNotDelegated
    | BasePolicy(code: string)

  datatype Decision = Allow | Deny(code: DenyCode)

  function ResolverErrorCode(error: HistoryError): DenyCode {
    match error
    case ProfileRequired => NoActiveProfile
    case BindingInvalid => WrongWorkOrder
    case HistoryInvalid(_) => HistoryIsInvalid
    case ProfileExpired => ProfileHasExpired
  }

  function AuthorizeProfileLayer(
    workOrder: WorkOrder, profiles: seq<Profile>, transitions: seq<Transition>, now: Instant, tool: Tool
  ): Decision {
    var resolved := ResolveCurrent(workOrder, profiles, transitions, now);
    if resolved.Failure? then Deny(ResolverErrorCode(resolved.error))
    else if resolved.value.status == RevokedStatus || resolved.value.current.None? then Deny(NoActiveProfile)
    else
      var profile := resolved.value.current.value;
      if !VerifyProfile(profile, workOrder) then Deny(HistoryIsInvalid)
      else if tool in profile.reservedTools then Deny(HumanDecisionRequired)
      else if tool !in profile.delegatedTools then Deny(ActionNotDelegated)
      else Allow
  }

  /** The base policy runs first and its denial always wins. */
  function AuthorizeToolCall(
    base: Decision,
    workOrder: WorkOrder, profiles: seq<Profile>, transitions: seq<Transition>, now: Instant, tool: Tool
  ): Decision {
    if base != Allow then base
    else AuthorizeProfileLayer(workOrder, profiles, transitions, now, tool)
  }

  /** The end of an unrevoked path, inside its validity window at `now`. */
  ghost predicate ActiveAt(
    workOrder: WorkOrder, profiles: seq<Profile>, transitions: seq<Transition>, now: Instant, profile: Profile
  ) {
    exists path, edges ::
      && FormsPath(workOrder, profiles, transitions, path, edges)
      && |edges| < |path|
      && path[|path| - 1] == profile
      && profile.validFrom <= now <= profile.expiresAt
  }

  lemma ResolveCurrentIffActive(
    workOrder: WorkOrder, profiles: seq<Profile>, transitions: seq<Transition>, now: Instant, profile: Profile)
    ensures ActiveAt(workOrder, profiles, transitions, now, profile)
       <==> var r := ResolveCurrent(workOrder, profiles, transitions, now);
            r.Success? && r.value.status == Active && r.value.current == Some(profile)
  {
    ResolvesIffPath(workOrder, profiles, transitions);
    if ResolveStructure(workOrder, profiles, transitions).Success? {
      var path, edges := ResolvedHistoryIsPath(workOrder, profiles, transitions);
    }
  }

  /** A call passes exactly when the base policy passes and some active profile delegates and does not reserve it. */
  lemma AllowedIffDelegated(
    base: Decision,
    workOrder: WorkOrder, profiles: seq<Profile>, transitions: seq<Transition>, now: Instant, tool: Tool)
    ensures AuthorizeToolCall(base, workOrder, profiles, transitions, now, tool) == Allow
       <==> base == Allow
            && exists profile :: ActiveAt(workOrder, profiles, transitions, now, profile)
                                 && tool in profile.delegatedTools && tool !in profile.reservedTools
  {
    var r := ResolveCurrent(workOrder, profiles, transitions, now);
    forall profile
      ensures ActiveAt(workOrder, profiles, transitions, now, profile)
         <==> r.Success? && r.value.status == Active && r.value.current == Some(profile)
    {
      ResolveCurrentIffActive(workOrder, profiles, transitions, now, profile);
    }
    if r.Success? && r.value.current.Some? {
      var path, edges := ResolvedHistoryIsPath(workOrder, profiles, transitions);
      var profile := r.value.current.value;
      assert path[|path| - 1] in path;
      SameMembers(path, profiles, profile);
      assert VerifyProfile(profile, workOrder);
    }
  }

  /** On a path the profile layer says exactly why it denies: revoked, out of its window, reserved, or not delegated. */
  lemma DecisionOnPath(
    workOrder: WorkOrder, profiles: seq<Profile>, transitions: seq<Transition>,
    path: seq<Profile>, edges: seq<Transition>, now: Instant, tool: Tool)
    requires FormsPath(workOrder, profiles, transitions, path, edges)
    ensures path != []
    ensures var end := path[|path| - 1];
      AuthorizeProfileLayer(workOrder, profiles, transitions, now, tool)
      == if |edges| == |path| then Deny(NoActiveProfile)
         else if !(end.validFrom <= now <= end.expiresAt) then Deny(ProfileHasExpired)
         else if tool in end.reservedTools then Deny(HumanDecisionRequired)
         else if tool !in end.delegatedTools then Deny(ActionNotDelegated)
         else Allow
  {
    ResolvesIffPath(workOrder, profiles, transitions);
    var end := path[|path| - 1];
    assert end in path;
    SameMembers(path, profiles, end);
  }

  /** Without a path it denies: no profile at all, or a history that is not one, or not of this work order. */
  lemma DecisionOffPath(
    workOrder: WorkOrder, profiles: seq<Profile>, transitions: seq<Transition>, now: Instant, tool: Tool)
    requires !exists path, edges :: FormsPath(workOrder, profiles, transitions, path, edges)
    ensures var decision := AuthorizeProfileLayer(workOrder, profiles, transitions, now, tool);
      && (profiles == [] ==> decision == Deny(NoActiveProfile))
      && (profiles != [] ==> decision in {Deny(HistoryIsInvalid), Deny(WrongWorkOrder)})
      && (decision == Deny(WrongWorkOrder) ==> OtherWorkOrder(workOrder, profiles, transitions))
  {
    ResolvesIffPath(workOrder, profiles, transitions);
    FaultIsTrue(workOrder, profiles, transitions);
  }

  /** Once a revocation is committed, every later ledger denies every tool at every time. */
  lemma RevocationDeniesForever(ledger: Ledger, operations: seq<Operation>, now: Instant, tool: Tool)
    requires HoldsRevocation(ledger)
    ensures var after := Run(ledger, operations);
      AuthorizeProfileLayer(after.workOrder, after.profiles, after.transitions, now, tool).Deny?
  {
    RevocationIsPermanent(ledger, operations);
  }

  /** So does every ledger that ever had three profiles more than supersessions. */
  lemma WideGapDeniesForever(ledger: Ledger, operations: seq<Operation>, now: Instant, tool: Tool)
    requires Gap(ledger) >= 3
    ensures var after := Run(ledger, operations);
      AuthorizeProfileLayer(after.workOrder, after.profiles, after.transitions, now, tool).Deny?
  {
    var after := Run(ledger, operations);
    WideGapStays(ledger, operations);
    if Resolution(after).Success? {
      ProfilesCountSupersessions(after.workOrder, after.profiles, after.transitions);
    }
  }
}

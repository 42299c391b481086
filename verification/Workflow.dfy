/**
 The one-task Manager, Developer, Verifier workflow (src/openworkproof/agentteams_workflow.py:319-560):
 messages may be delivered any number of times, the core commits before the announcement, and either may
 fail on the way back.
 */
module Workflow {
  import opened Collections

  datatype Role = Manager | Developer | Verifier
  datatype Phase = Dispatch | Development | Verification
  datatype Verdict = Verified | Refuted | Unknown
  datatype State = AwaitingDispatch | AwaitingDevelopment | AwaitingVerification | ReadyForAcceptance | NotReady

  datatype Message = Message(
    taskId: nat, eventId: nat, sender: nat, role: Role, phase: Phase, attempt: nat,
    artifactPath: Option<string>, artifactDigest: Option<nat>, decision: Option<Verdict>)

  datatype Snapshot = Snapshot(
    state: State, attempt: nat, artifactPath: Option<string>, artifactDigest: Option<nat>, lastEventId: Option<nat>)

  datatype Binding = Binding(user: nat, key: nat)

  datatype Config = Config(
    taskId: nat, manager: Binding, developer: Binding, verifier: Binding, hasCore: bool, hasAnnouncer: bool)

  datatype Delivery = Committed | Announced | CommittedButUnannounced

  datatype Outcome = Outcome(eventId: nat, state: State, attempt: nat, key: nat, delivery: Delivery)

  datatype Refusal =
    | InvalidMessage | WrongTask | EventConflict | WrongSender | AlreadyTerminal
    | OutOfOrder | WrongAttempt | WrongArtifact | CoreConflict | CoreFailed

  /**
   What becomes of one commit: it lands; lands and the acknowledgement is lost; fails; lands and an unrelated
   error is raised; or something else lands in its place.
   */
  datatype Fate = Lands | LandsSilently | Fails | LandsThenRaises | LandsAs(other: Snapshot)

  datatype Attempt = Attempt(message: Message, fate: Fate, announceFails: bool)

  datatype View = View(snapshot: Snapshot, events: map<nat, (Message, Outcome)>, log: seq<Snapshot>)

  const START := View(Snapshot(AwaitingDispatch, 1, None, None, None), map[], [])

  // ----- messages ---------------------------------------------------------------------------------

  function PhaseOf(role: Role): Phase {
    match role
    case Manager => Dispatch
    case Developer => Development
    case Verifier => Verification
  }

  predicate WellFormed(message: Message) {
    && message.attempt in {1, 2}
    && message.phase == PhaseOf(message.role)
    && (message.artifactPath.Some? <==> message.artifactDigest.Some?)
    && (message.artifactPath.Some? <==> message.role != Manager)
    && (message.decision.Some? <==> message.role == Verifier)
  }

  function BindingOf(config: Config, role: Role): Binding {
    match role
    case Manager => config.manager
    case Developer => config.developer
    case Verifier => config.verifier
  }

  // ----- one delivery -------------------------------------------------------------------------------

  function Expected(state: State): Option<(Role, Phase)> {
    match state
    case AwaitingDispatch => Some((Manager, Dispatch))
    case AwaitingDevelopment => Some((Developer, Development))
    case AwaitingVerification => Some((Verifier, Verification))
    case _ => None
  }

  function Transition(snapshot: Snapshot, message: Message): Result<Snapshot, Refusal> {
    if Expected(snapshot.state) != Some((message.role, message.phase)) then Failure(OutOfOrder)
    else if message.attempt != snapshot.attempt then Failure(WrongAttempt)
    else if snapshot.state == AwaitingDispatch then
      Success(snapshot.(state := AwaitingDevelopment, lastEventId := Some(message.eventId)))
    else if snapshot.state == AwaitingDevelopment then
      Success(Snapshot(
        AwaitingVerification, snapshot.attempt, message.artifactPath, message.artifactDigest, Some(message.eventId)))
    else if message.artifactPath != snapshot.artifactPath || message.artifactDigest != snapshot.artifactDigest then
      Failure(WrongArtifact)
    else if message.decision == Some(Verified) then
      Success(snapshot.(state := ReadyForAcceptance, lastEventId := Some(message.eventId)))
    else if snapshot.attempt == 1 then
      Success(Snapshot(AwaitingDevelopment, 2, None, None, Some(message.eventId)))
    else
      Success(snapshot.(state := NotReady, lastEventId := Some(message.eventId)))
  }

  /** The core's log after one commit of `proposed`, and the error it makes the workflow raise. */
  function Commit(config: Config, log: seq<Snapshot>, proposed: Snapshot, fate: Fate): (seq<Snapshot>, Option<Refusal>) {
    if !config.hasCore then (log, None)
    else
      match fate
      case Lands => (log + [proposed], None)
      case LandsSilently => (log + [proposed], None)
      case Fails => (log, Some(CoreFailed))
      case LandsThenRaises => (log + [proposed], Some(CoreFailed))
      case LandsAs(other) => (log + [other], if other != proposed then Some(CoreConflict) else None)
  }

  function DeliveryStatus(config: Config, announceFails: bool): Delivery {
    if !config.hasAnnouncer then Committed
    else if announceFails then CommittedButUnannounced
    else Announced
  }

  function Step(config: Config, view: View, attempt: Attempt): (View, Result<Outcome, Refusal>) {
    var message := attempt.message;
    if !WellFormed(message) then (view, Failure(InvalidMessage))
    else if message.taskId != config.taskId then (view, Failure(WrongTask))
    else if message.eventId in view.events then
      var (known, outcome) := view.events[message.eventId];
      (view, if known != message then Failure(EventConflict) else Success(outcome))
    else if BindingOf(config, message.role).user != message.sender then (view, Failure(WrongSender))
    else if view.snapshot.state in {ReadyForAcceptance, NotReady} then (view, Failure(AlreadyTerminal))
    else
      match Transition(view.snapshot, message)
      case Failure(refusal) => (view, Failure(refusal))
      case Success(next) =>
        var (log, refusal) := Commit(config, view.log, next, attempt.fate);
        if refusal.Some? then (view.(log := log), Failure(refusal.value))
        else
          var outcome := Outcome(
            message.eventId, next.state, next.attempt, BindingOf(config, message.role).key,
            DeliveryStatus(config, attempt.announceFails));
          (View(next, view.events[message.eventId := (message, outcome)], log), Success(outcome))
  }

  function Run(config: Config, view: View, attempts: seq<Attempt>): View
    decreases |attempts|
  {
    if attempts == [] then view else Run(config, Step(config, view, attempts[0]).0, attempts[1..])
  }

  function Outcomes(config: Config, view: View, attempts: seq<Attempt>): (outcomes: seq<Result<Outcome, Refusal>>)
    ensures |outcomes| == |attempts|
    decreases |attempts|
  {
    if attempts == [] then []
    else
      var (after, outcome) := Step(config, view, attempts[0]);
      [outcome] + Outcomes(config, after, attempts[1..])
  }

  // ----- the workflow object --------------------------------------------------------------------------

  /** The system behind the commit callback. */
  class Core {
    var log: seq<Snapshot>

    constructor ()
      ensures log == []
    {
      log := [];
    }

    method Receive(proposed: Snapshot, fate: Fate) returns (acknowledged: bool, lost: Option<Snapshot>)
      modifies this
      ensures log == match fate case Fails => old(log) case LandsAs(other) => old(log) + [other] case _ => old(log) + [proposed]
      ensures acknowledged <==> fate.Lands?
      ensures lost == match fate case LandsSilently => Some(proposed) case LandsAs(other) => Some(other) case _ => None
    {
      match fate {
        case Lands =>
          log := log + [proposed];
          return true, None;
        case LandsSilently =>
          log := log + [proposed];
          return false, Some(proposed);
        case Fails =>
          return false, None;
        case LandsThenRaises =>
          log := log + [proposed];
          return false, None;
        case LandsAs(other) =>
          log := log + [other];
          return false, Some(other);
      }
    }
  }

  class AgentTeamsWorkflow {
    const config: Config
    const core: Core
    var snapshot: Snapshot
    var events: map<nat, (Message, Outcome)>

    ghost function Current(): View
      reads this, core
    {
      View(snapshot, events, core.log)
    }

    constructor (bound: Config)
      ensures config == bound && fresh(core) && Current() == START
    {
      config := bound;
      core := new Core();
      snapshot := Snapshot(AwaitingDispatch, 1, None, None, None);
      events := map[];
    }

    method CommitCore(next: Snapshot, fate: Fate) returns (refusal: Option<Refusal>)
      modifies core
      ensures (core.log, refusal) == Commit(config, old(core.log), next, fate)
    {
      if !config.hasCore {
        return None;
      }
      var acknowledged, lost := core.Receive(next, fate);
      if lost.Some? {
        return if lost.value != next then Some(CoreConflict) else None;
      }
      return if acknowledged then None else Some(CoreFailed);
    }

    method Accept(attempt: Attempt) returns (outcome: Result<Outcome, Refusal>)
      modifies this, core
      ensures (Current(), outcome) == Step(config, old(Current()), attempt)
    {
      var message := attempt.message;
      if !WellFormed(message) {
        return Failure(InvalidMessage);
      }
      if message.taskId != config.taskId {
        return Failure(WrongTask);
      }
      if message.eventId in events {
        var previous := events[message.eventId];
        return if previous.0 != message then Failure(EventConflict) else Success(previous.1);
      }
      var binding := BindingOf(config, message.role);
      if binding.user != message.sender {
        return Failure(WrongSender);
      }
      if snapshot.state in {ReadyForAcceptance, NotReady} {
        return Failure(AlreadyTerminal);
      }
      var next := Transition(snapshot, message);
      if next.Failure? {
        return Failure(next.error);
      }
      var refusal := CommitCore(next.value, attempt.fate);
      if refusal.Some? {
        return Failure(refusal.value);
      }
      snapshot := next.value;
      var status := DeliveryStatus(config, attempt.announceFails);
      var result := Outcome(message.eventId, next.value.state, next.value.attempt, binding.key, status);
      events := events[message.eventId := (message, result)];
      return Success(result);
    }
  }
}

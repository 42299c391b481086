/** What holds of every run of the workflow, whatever is delivered twice, refused or lost on the way back. */
module WorkflowRuns {
  import opened Collections
  import opened Workflow

  /** The message accepted at place `i` of a task: dispatch, then development and verification up to twice. */
  ghost predicate Fits(config: Config, messages: seq<Message>, i: nat)
    requires i < |messages|
  {
    var message := messages[i];
    && WellFormed(message)
    && message.taskId == config.taskId
    && message.sender == BindingOf(config, message.role).user
    && message.role == (if i == 0 then Manager else if i % 2 == 1 then Developer else Verifier)
    && message.attempt == (if i <= 2 then 1 else 2)
    && (i in {2, 4} ==>
          && message.artifactPath == messages[i - 1].artifactPath
          && message.artifactDigest == messages[i - 1].artifactDigest)
    && (i == 3 ==> messages[2].decision != Some(Verified))
  }

  ghost predicate DistinctEvents(messages: seq<Message>) {
    forall i, j :: 0 <= i < j < |messages| ==> messages[i].eventId != messages[j].eventId
  }

  ghost predicate Transcript(config: Config, messages: seq<Message>) {
    && |messages| <= 5
    && (forall i {:trigger Fits(config, messages, i)} :: 0 <= i < |messages| ==> Fits(config, messages, i))
    && DistinctEvents(messages)
  }

  /** The state a transcript leads to, read off its length and last message. */
  function StateAfter(messages: seq<Message>): Snapshot {
    var n := |messages|;
    if n == 0 then START.snapshot
    else
      var last := messages[n - 1];
      if n == 1 then Snapshot(AwaitingDevelopment, 1, None, None, Some(last.eventId))
      else
        var attempt := if n <= 3 then 1 else 2;
        if n % 2 == 0 then Snapshot(AwaitingVerification, attempt, last.artifactPath, last.artifactDigest, Some(last.eventId))
        else if last.decision == Some(Verified) then
          Snapshot(ReadyForAcceptance, attempt, last.artifactPath, last.artifactDigest, Some(last.eventId))
        else if n == 3 then Snapshot(AwaitingDevelopment, 2, None, None, Some(last.eventId))
        else Snapshot(NotReady, attempt, last.artifactPath, last.artifactDigest, Some(last.eventId))
  }

  function StatesOf(messages: seq<Message>): seq<Snapshot> {
    seq(|messages|, i requires 0 <= i < |messages| => StateAfter(messages[..i + 1]))
  }

  /** The message of this delivery, if it is accepted now. */
  function Taken(config: Config, view: View, attempt: Attempt): seq<Message> {
    if Step(config, view, attempt).0.events != view.events then [attempt.message] else []
  }

  /** The messages accepted over a run, in order. */
  function Accepted(config: Config, view: View, attempts: seq<Attempt>): seq<Message>
    decreases |attempts|
  {
    if attempts == [] then []
    else Taken(config, view, attempts[0]) + Accepted(config, Step(config, view, attempts[0]).0, attempts[1..])
  }

  /** The view is the one this transcript leads to. */
  ghost predicate Explains(config: Config, view: View, messages: seq<Message>) {
    && Transcript(config, messages)
    && view.snapshot == StateAfter(messages)
    && view.events.Keys == EventIds(messages)
    && forall i :: 0 <= i < |messages| ==> messages[i].eventId in view.events && view.events[messages[i].eventId].0 == messages[i]
  }

  function EventIds(messages: seq<Message>): set<nat> {
    set m | m in messages :: m.eventId
  }

  lemma EventIdsAppend(messages: seq<Message>, message: Message)
    ensures EventIds(messages + [message]) == EventIds(messages) + {message.eventId}
  {
    assert forall m :: m in messages + [message] <==> m in messages || m == message;
    assert message in messages + [message];
  }

  /** A message that the transition takes is one that fits at the end of the transcript. */
  lemma TakenFits(config: Config, messages: seq<Message>, message: Message)
    requires Transcript(config, messages) && WellFormed(message) && message.taskId == config.taskId
    requires message.sender == BindingOf(config, message.role).user
    requires message.eventId !in EventIds(messages)
    requires Transition(StateAfter(messages), message).Success?
    ensures Transcript(config, messages + [message])
    ensures Transition(StateAfter(messages), message).value == StateAfter(messages + [message])
  {
    var grown := messages + [message];
    assert |messages| < 5 && Fits(config, grown, |messages|) by {
      if |messages| > 0 {
        assert Fits(config, messages, |messages| - 1);
      }
    }
    forall i | 0 <= i < |grown|
      ensures Fits(config, grown, i)
    {
      if i < |messages| {
        assert Fits(config, messages, i);
      }
    }
    forall i | 0 <= i < |messages|
      ensures messages[i].eventId != message.eventId
    {
      assert messages[i] in messages;
    }
  }

  /** An accepted message passed every check, and is all that is added. */
  lemma TakenShape(config: Config, view: View, attempt: Attempt)
    requires Taken(config, view, attempt) != []
    ensures var (message, after) := (attempt.message, Step(config, view, attempt).0);
      && WellFormed(message) && message.taskId == config.taskId && message.eventId !in view.events
      && message.sender == BindingOf(config, message.role).user
      && Transition(view.snapshot, message) == Success(after.snapshot)
      && after.events.Keys == view.events.Keys + {message.eventId}
      && after.events[message.eventId].0 == message
      && forall id :: id in view.events ==> after.events[id] == view.events[id]
  {
  }

  lemma NotTakenKeeps(config: Config, view: View, attempt: Attempt)
    requires Taken(config, view, attempt) == []
    ensures Step(config, view, attempt).0.events == view.events
    ensures Step(config, view, attempt).0.snapshot == view.snapshot
  {
    if attempt.message.eventId !in view.events {
      assert attempt.message.eventId !in Step(config, view, attempt).0.events;
    }
  }

  lemma StepExplains(config: Config, view: View, messages: seq<Message>, attempt: Attempt)
    requires Explains(config, view, messages)
    ensures Explains(config, Step(config, view, attempt).0, messages + Taken(config, view, attempt))
  {
    if Taken(config, view, attempt) == [] {
      assert messages + [] == messages;
      NotTakenKeeps(config, view, attempt);
    } else {
      TakenShape(config, view, attempt);
      TakenFits(config, messages, attempt.message);
      EventIdsAppend(messages, attempt.message);
    }
  }

  lemma AcceptedStep(config: Config, view: View, messages: seq<Message>, attempts: seq<Attempt>)
    requires attempts != []
    ensures messages + Accepted(config, view, attempts)
         == messages + Taken(config, view, attempts[0]) + Accepted(config, Step(config, view, attempts[0]).0, attempts[1..])
    ensures Run(config, view, attempts) == Run(config, Step(config, view, attempts[0]).0, attempts[1..])
  {
  }

  lemma {:induction false} RunExplains(config: Config, view: View, messages: seq<Message>, attempts: seq<Attempt>)
    requires Explains(config, view, messages)
    ensures Explains(config, Run(config, view, attempts), messages + Accepted(config, view, attempts))
    decreases |attempts|
  {
    if attempts == [] {
      assert messages + [] == messages;
    } else {
      StepExplains(config, view, messages, attempts[0]);
      AcceptedStep(config, view, messages, attempts);
      RunExplains(config, Step(config, view, attempts[0]).0, messages + Taken(config, view, attempts[0]), attempts[1..]);
    }
  }

  lemma StartExplains(config: Config)
    ensures Explains(config, START, [])
  {
  }

  /** Every run ends where the transcript of what it accepted says, and accepts at most five events. */
  lemma RunFollowsTranscript(config: Config, attempts: seq<Attempt>)
    ensures var view := Run(config, START, attempts);
      var accepted := Accepted(config, START, attempts);
      && Transcript(config, accepted)
      && view.snapshot == StateAfter(accepted)
      && view.events.Keys == EventIds(accepted)
      && |view.events| == |accepted| <= 5
  {
    StartExplains(config);
    RunExplains(config, START, [], attempts);
    assert [] + Accepted(config, START, attempts) == Accepted(config, START, attempts);
    EventIdCount(Accepted(config, START, attempts));
    assert |Run(config, START, attempts).events| == |Run(config, START, attempts).events.Keys|;
  }

  lemma {:induction false} EventIdCount(messages: seq<Message>)
    requires DistinctEvents(messages)
    ensures |EventIds(messages)| == |messages|
  {
    if messages != [] {
      var n := |messages| - 1;
      EventIdCount(messages[..n]);
      assert messages[..n] + [messages[n]] == messages;
      EventIdsAppend(messages[..n], messages[n]);
    }
  }

  /**
   Ready for acceptance means the last accepted message is a VERIFIED verdict, in the snapshot's attempt, on
   the artifact of the message accepted just before it, which is the latest one from the Developer.
   */
  lemma ReadyMeansVerified(config: Config, attempts: seq<Attempt>)
    requires Run(config, START, attempts).snapshot.state == ReadyForAcceptance
    ensures var accepted := Accepted(config, START, attempts);
      var n := |accepted|;
      var snapshot := Run(config, START, attempts).snapshot;
      && n in {3, 5}
      && accepted[n - 1].role == Verifier && accepted[n - 1].decision == Some(Verified)
      && accepted[n - 2].role == Developer
      && accepted[n - 1].attempt == accepted[n - 2].attempt == snapshot.attempt
      && accepted[n - 1].artifactPath == accepted[n - 2].artifactPath == snapshot.artifactPath
      && accepted[n - 1].artifactDigest == accepted[n - 2].artifactDigest == snapshot.artifactDigest
      && snapshot.artifactDigest.Some?
  {
    RunFollowsTranscript(config, attempts);
    ReadyTranscript(config, Accepted(config, START, attempts));
  }

  lemma ReadyTranscript(config: Config, messages: seq<Message>)
    requires Transcript(config, messages) && StateAfter(messages).state == ReadyForAcceptance
    ensures var n := |messages|;
      var snapshot := StateAfter(messages);
      && n in {3, 5}
      && messages[n - 1].role == Verifier && messages[n - 1].decision == Some(Verified)
      && messages[n - 2].role == Developer
      && messages[n - 1].attempt == messages[n - 2].attempt == snapshot.attempt
      && messages[n - 1].artifactPath == messages[n - 2].artifactPath == snapshot.artifactPath
      && messages[n - 1].artifactDigest == messages[n - 2].artifactDigest == snapshot.artifactDigest
      && snapshot.artifactDigest.Some?
  {
    var n := |messages|;
    assert n in {3, 5};
    assert Fits(config, messages, n - 1);
    assert Fits(config, messages, n - 2);
  }

  lemma ShorterTranscript(config: Config, messages: seq<Message>)
    requires messages != [] && Transcript(config, messages)
    ensures Transcript(config, messages[..|messages| - 1])
  {
    var shorter := messages[..|messages| - 1];
    forall i | 0 <= i < |shorter|
      ensures Fits(config, shorter, i)
    {
      assert Fits(config, messages, i);
    }
  }

  lemma DeliveriesLast(messages: seq<Message>)
    requires messages != []
    ensures Deliveries(messages)
         == Deliveries(messages[..|messages| - 1]) + [Attempt(messages[|messages| - 1], Lands, false)]
  {
  }

  /** After a run that accepted all but the last message of a transcript, the last one is accepted too. */
  lemma LastIsTaken(config: Config, messages: seq<Message>, attempts: seq<Attempt>)
    requires messages != [] && Transcript(config, messages)
    requires Accepted(config, START, attempts) == messages[..|messages| - 1]
    ensures Taken(config, Run(config, START, attempts), Attempt(messages[|messages| - 1], Lands, false))
         == [messages[|messages| - 1]]
  {
    var shorter := messages[..|messages| - 1];
    StartExplains(config);
    RunExplains(config, START, [], attempts);
    assert [] + shorter == shorter;
    FitsIsTaken(config, messages, Run(config, START, attempts));
  }

  /** Conversely every transcript can be had: deliver its messages in order to a core that lands them. */
  lemma {:induction false} TranscriptIsAccepted(config: Config, messages: seq<Message>)
    requires Transcript(config, messages)
    ensures Accepted(config, START, Deliveries(messages)) == messages
  {
    if messages != [] {
      var n := |messages| - 1;
      ShorterTranscript(config, messages);
      TranscriptIsAccepted(config, messages[..n]);
      LastIsTaken(config, messages, Deliveries(messages[..n]));
      DeliveriesLast(messages);
      RunAppend(config, START, Deliveries(messages[..n]), Attempt(messages[n], Lands, false));
      assert messages[..n] + [messages[n]] == messages;
    }
  }

  function Deliveries(messages: seq<Message>): seq<Attempt> {
    seq(|messages|, i requires 0 <= i < |messages| => Attempt(messages[i], Lands, false))
  }

  lemma FitsIsTaken(config: Config, messages: seq<Message>, view: View)
    requires messages != [] && Transcript(config, messages) && Explains(config, view, messages[..|messages| - 1])
    ensures Step(config, view, Attempt(messages[|messages| - 1], Lands, false)).0.events != view.events
  {
    var n := |messages| - 1;
    assert Fits(config, messages, n);
    assert messages[n].eventId !in view.events by {
      assert forall m :: m in messages[..n] ==> m.eventId != messages[n].eventId;
    }
    if n > 0 {
      assert Fits(config, messages, n - 1);
    }
    assert Transition(StateAfter(messages[..n]), messages[n]).Success?;
  }

  lemma {:induction false} RunAppend(config: Config, view: View, attempts: seq<Attempt>, last: Attempt)
    ensures Run(config, view, attempts + [last]) == Step(config, Run(config, view, attempts), last).0
    ensures Accepted(config, view, attempts + [last])
         == Accepted(config, view, attempts) + Taken(config, Run(config, view, attempts), last)
    decreases |attempts|
  {
    if attempts == [] {
      assert [last][1..] == [];
    } else {
      assert (attempts + [last])[1..] == attempts[1..] + [last];
      RunAppend(config, Step(config, view, attempts[0]).0, attempts[1..], last);
    }
  }

  /** The core has what it was asked to record, and the workflow can tell. */
  predicate Confirmed(config: Config, fate: Fate, proposed: Snapshot) {
    !config.hasCore || fate in {Lands, LandsSilently, LandsAs(proposed)}
  }

  /**
   At any point of a run a message is accepted exactly when it continues the transcript and its commit is confirmed;
   the answer says where the transcript then stands, who may act on it, and whether it was announced.
   */
  lemma TakenIff(config: Config, view: View, messages: seq<Message>, attempt: Attempt)
    requires Explains(config, view, messages)
    ensures var grown := messages + [attempt.message];
      Taken(config, view, attempt) != [] <==>
        Transcript(config, grown) && Confirmed(config, attempt.fate, StateAfter(grown))
    ensures Taken(config, view, attempt) != [] ==>
      var (message, next) := (attempt.message, StateAfter(messages + [attempt.message]));
      Step(config, view, attempt).1
      == Success(Outcome(
           message.eventId, next.state, next.attempt, BindingOf(config, message.role).key,
           if !config.hasAnnouncer then Committed else if attempt.announceFails then CommittedButUnannounced else Announced))
  {
    var grown := messages + [attempt.message];
    if Taken(config, view, attempt) != [] {
      TakenShape(config, view, attempt);
      TakenFits(config, messages, attempt.message);
    }
    if Transcript(config, grown) {
      ContinuesPasses(config, view, messages, attempt.message);
    }
  }

  /** The role whose turn it is after this many accepted messages. */
  function Turn(accepted: nat): Role {
    if accepted == 0 then Manager else if accepted % 2 == 1 then Developer else Verifier
  }

  /** What each refusal says of the message and of what was accepted before. */
  ghost predicate RefusalHolds(config: Config, messages: seq<Message>, attempt: Attempt, refusal: Refusal) {
    var (message, n) := (attempt.message, |messages|);
    match refusal
    case InvalidMessage => !WellFormed(message)
    case WrongTask => message.taskId != config.taskId
    case EventConflict => exists m :: m in messages && m.eventId == message.eventId && m != message
    case WrongSender => message.sender != BindingOf(config, message.role).user
    case AlreadyTerminal => n == 5 || (n == 3 && messages[2].decision == Some(Verified))
    case OutOfOrder => message.role != Turn(n)
    case WrongAttempt => message.attempt != if n <= 2 then 1 else 2
    case WrongArtifact =>
      && n in {2, 4} && message.role == Verifier
      && (message.artifactPath, message.artifactDigest) != (messages[n - 1].artifactPath, messages[n - 1].artifactDigest)
    case CoreConflict => config.hasCore && attempt.fate.LandsAs? && attempt.fate.other != StateAfter(messages + [message])
    case CoreFailed => config.hasCore && attempt.fate in {Fails, LandsThenRaises}
  }

  /** At any point of a run every refusal is for a reason that holds. */
  lemma RefusalIsTrue(config: Config, view: View, messages: seq<Message>, attempt: Attempt)
    requires Explains(config, view, messages)
    ensures var answer := Step(config, view, attempt).1;
      answer.Failure? ==> RefusalHolds(config, messages, attempt, answer.error)
  {
    var (message, n) := (attempt.message, |messages|);
    if n > 0 {
      assert Fits(config, messages, n - 1);
    }
    if message.eventId in view.events {
      assert message.eventId in EventIds(messages);
      var m :| m in messages && m.eventId == message.eventId;
      var i :| 0 <= i < n && messages[i] == m;
    } else if WellFormed(message) && message.taskId == config.taskId && message.sender == BindingOf(config, message.role).user
              && Transition(view.snapshot, message).Success? {
      TakenFits(config, messages, message);
    }
  }

  /** A message that continues the transcript passes every check. */
  lemma ContinuesPasses(config: Config, view: View, messages: seq<Message>, message: Message)
    requires Explains(config, view, messages) && Transcript(config, messages + [message])
    ensures WellFormed(message) && message.taskId == config.taskId && message.eventId !in view.events
    ensures BindingOf(config, message.role).user == message.sender
    ensures view.snapshot.state !in {ReadyForAcceptance, NotReady}
    ensures Transition(view.snapshot, message) == Success(StateAfter(messages + [message]))
  {
    var grown, n := messages + [message], |messages|;
    assert Fits(config, grown, n);
    assert message.eventId !in EventIds(messages) by {
      assert forall i :: 0 <= i < n ==> grown[i] == messages[i] && grown[i].eventId != grown[n].eventId;
    }
    if n > 0 {
      assert Fits(config, grown, n - 1);
    }
    assert Transition(StateAfter(messages), message).Success?;
    TakenFits(config, messages, message);
  }

  // ----- the core's log ---------------------------------------------------------------------------

  /** The core records what it was asked to and nothing else, and says so in one way or the other. */
  ghost predicate Honest(attempts: seq<Attempt>) {
    forall a :: a in attempts ==> !a.fate.LandsAs? && !a.fate.LandsThenRaises?
  }

  lemma StepLogs(config: Config, view: View, messages: seq<Message>, attempt: Attempt)
    requires config.hasCore && !attempt.fate.LandsAs? && !attempt.fate.LandsThenRaises?
    requires Explains(config, view, messages) && view.log == StatesOf(messages)
    ensures Step(config, view, attempt).0.log == StatesOf(messages + Taken(config, view, attempt))
  {
    var (after, outcome) := Step(config, view, attempt);
    StepExplains(config, view, messages, attempt);
    if after.events == view.events {
      LogUnlessTaken(config, view, attempt);
      assert messages + [] == messages;
    } else {
      StatesAppend(messages, attempt.message);
    }
  }

  lemma {:induction false} HonestLog(config: Config, view: View, messages: seq<Message>, attempts: seq<Attempt>)
    requires config.hasCore && Honest(attempts) && Explains(config, view, messages) && view.log == StatesOf(messages)
    ensures Run(config, view, attempts).log == StatesOf(messages + Accepted(config, view, attempts))
    decreases |attempts|
  {
    if attempts == [] {
      assert messages + [] == messages;
    } else {
      assert attempts[0] in attempts;
      StepLogs(config, view, messages, attempts[0]);
      StepExplains(config, view, messages, attempts[0]);
      AcceptedStep(config, view, messages, attempts);
      HonestLog(config, Step(config, view, attempts[0]).0, messages + Taken(config, view, attempts[0]), attempts[1..]);
    }
  }

  lemma StatesAppend(messages: seq<Message>, message: Message)
    ensures StatesOf(messages + [message]) == StatesOf(messages) + [StateAfter(messages + [message])]
  {
    var grown := messages + [message];
    assert grown[..|messages| + 1] == grown;
    forall i | 0 <= i < |messages|
      ensures StatesOf(grown)[i] == StatesOf(messages)[i]
    {
      assert grown[..i + 1] == messages[..i + 1];
    }
  }

  lemma LogUnlessTaken(config: Config, view: View, attempt: Attempt)
    requires !attempt.fate.LandsAs? && !attempt.fate.LandsThenRaises? && Step(config, view, attempt).0.events == view.events
    ensures Step(config, view, attempt).0 == view
  {
    var (after, outcome) := Step(config, view, attempt);
    if attempt.message.eventId !in view.events {
      assert attempt.message.eventId !in after.events;
    }
  }

  /** An honest core's log is the sequence of accepted states, whatever was lost or could not be announced. */
  lemma HonestLogIsAcceptedStates(config: Config, attempts: seq<Attempt>)
    requires config.hasCore && Honest(attempts)
    ensures Run(config, START, attempts).log == StatesOf(Accepted(config, START, attempts))
  {
    StartExplains(config);
    HonestLog(config, START, [], attempts);
    assert [] + Accepted(config, START, attempts) == Accepted(config, START, attempts);
  }

  // ----- commits that land and raise ------------------------------------------------------------------

  /** One record of the core: the state, and whether the workflow learned that it was committed. */
  datatype Entry = Entry(state: Snapshot, acknowledged: bool)

  /** What one delivery makes the core record. */
  function Recorded(config: Config, view: View, attempt: Attempt): seq<Entry> {
    var (after, outcome) := Step(config, view, attempt);
    if after.events != view.events then [Entry(after.snapshot, true)]
    else if after.log != view.log then [Entry(after.log[|after.log| - 1], false)]
    else []
  }

  function Entries(config: Config, view: View, attempts: seq<Attempt>): seq<Entry>
    decreases |attempts|
  {
    if attempts == [] then []
    else Recorded(config, view, attempts[0]) + Entries(config, Step(config, view, attempts[0]).0, attempts[1..])
  }

  function StatesIn(entries: seq<Entry>): seq<Snapshot> {
    seq(|entries|, i requires 0 <= i < |entries| => entries[i].state)
  }

  function Acknowledged(entries: seq<Entry>): seq<Snapshot> {
    if entries == [] then []
    else (if entries[0].acknowledged then [entries[0].state] else []) + Acknowledged(entries[1..])
  }

  lemma RecordedIsLogged(config: Config, view: View, messages: seq<Message>, attempt: Attempt)
    requires config.hasCore && !attempt.fate.LandsAs? && Explains(config, view, messages)
    ensures var after := Step(config, view, attempt).0;
      && after.log == view.log + StatesIn(Recorded(config, view, attempt))
      && StatesOf(messages + Taken(config, view, attempt))
         == StatesOf(messages) + Acknowledged(Recorded(config, view, attempt))
      && (forall e :: e in Recorded(config, view, attempt) && !e.acknowledged ==>
            && after.snapshot == view.snapshot
            && Transition(view.snapshot, attempt.message) == Success(e.state))
  {
    StepExplains(config, view, messages, attempt);
    if Taken(config, view, attempt) == [] {
      NotTakenKeeps(config, view, attempt);
      assert messages + [] == messages;
    } else {
      TakenShape(config, view, attempt);
      StatesAppend(messages, attempt.message);
    }
  }

  lemma {:induction false} AcknowledgedAppend(some: seq<Entry>, more: seq<Entry>)
    ensures Acknowledged(some + more) == Acknowledged(some) + Acknowledged(more)
    decreases |some|
  {
    if some == [] {
      assert some + more == more;
    } else {
      var first := if some[0].acknowledged then [some[0].state] else [];
      assert (some + more)[0] == some[0] && (some + more)[1..] == some[1..] + more;
      AcknowledgedAppend(some[1..], more);
      assert first + (Acknowledged(some[1..]) + Acknowledged(more)) == first + Acknowledged(some[1..]) + Acknowledged(more);
    }
  }

  lemma EntriesJoin(log: seq<Snapshot>, now: seq<Entry>, later: seq<Entry>)
    ensures (log + StatesIn(now)) + StatesIn(later) == log + StatesIn(now + later)
    ensures (log + Acknowledged(now)) + Acknowledged(later) == log + Acknowledged(now + later)
  {
    AcknowledgedAppend(now, later);
  }

  lemma EntriesStep(config: Config, view: View, attempts: seq<Attempt>)
    requires attempts != []
    ensures Entries(config, view, attempts)
         == Recorded(config, view, attempts[0]) + Entries(config, Step(config, view, attempts[0]).0, attempts[1..])
    ensures Run(config, view, attempts) == Run(config, Step(config, view, attempts[0]).0, attempts[1..])
  {
  }

  /** The log is what was recorded. */
  lemma {:induction false} EntriesAreLog(config: Config, view: View, messages: seq<Message>, attempts: seq<Attempt>)
    requires config.hasCore && Explains(config, view, messages)
    requires forall a :: a in attempts ==> !a.fate.LandsAs?
    ensures Run(config, view, attempts).log == view.log + StatesIn(Entries(config, view, attempts))
    decreases |attempts|
  {
    if attempts != [] {
      var after, now := Step(config, view, attempts[0]).0, Recorded(config, view, attempts[0]);
      var later := Entries(config, after, attempts[1..]);
      assert attempts[0] in attempts;
      RecordedIsLogged(config, view, messages, attempts[0]);
      StepExplains(config, view, messages, attempts[0]);
      EntriesAreLog(config, after, messages + Taken(config, view, attempts[0]), attempts[1..]);
      EntriesJoin(view.log, now, later);
      EntriesStep(config, view, attempts);
    }
  }

  /** What was acknowledged of it, in order, is the accepted states. */
  lemma {:induction false} AcknowledgedAreAccepted(
    config: Config, view: View, messages: seq<Message>, attempts: seq<Attempt>)
    requires config.hasCore && Explains(config, view, messages)
    requires forall a :: a in attempts ==> !a.fate.LandsAs?
    ensures StatesOf(messages + Accepted(config, view, attempts))
         == StatesOf(messages) + Acknowledged(Entries(config, view, attempts))
    decreases |attempts|
  {
    if attempts == [] {
      assert messages + [] == messages;
    } else {
      var after, now := Step(config, view, attempts[0]).0, Recorded(config, view, attempts[0]);
      var later := Entries(config, after, attempts[1..]);
      assert attempts[0] in attempts;
      RecordedIsLogged(config, view, messages, attempts[0]);
      StepExplains(config, view, messages, attempts[0]);
      AcknowledgedAreAccepted(config, after, messages + Taken(config, view, attempts[0]), attempts[1..]);
      EntriesJoin(StatesOf(messages), now, later);
      EntriesStep(config, view, attempts);
      AcceptedStep(config, view, messages, attempts);
    }
  }

  /**
   A core that may also raise after it has recorded: its log holds the accepted states in order, and between
   them only states whose commit it reported as failed; those left the workflow where it was.
   */
  lemma LogHoldsAcceptedStates(config: Config, attempts: seq<Attempt>)
    requires config.hasCore && forall a :: a in attempts ==> !a.fate.LandsAs?
    ensures Run(config, START, attempts).log == StatesIn(Entries(config, START, attempts))
    ensures StatesOf(Accepted(config, START, attempts)) == Acknowledged(Entries(config, START, attempts))
  {
    StartExplains(config);
    EntriesAreLog(config, START, [], attempts);
    AcknowledgedAreAccepted(config, START, [], attempts);
    assert [] + Accepted(config, START, attempts) == Accepted(config, START, attempts);
    assert StatesOf([]) == [];
  }

  // ----- deliveries that come again -------------------------------------------------------------------

  ghost predicate Known(view: View, attempt: Attempt) {
    attempt.message.eventId in view.events && view.events[attempt.message.eventId].0 == attempt.message
  }

  /** The run without the deliveries of messages it has already accepted. */
  ghost function Once(config: Config, view: View, attempts: seq<Attempt>): seq<Attempt>
    decreases |attempts|
  {
    if attempts == [] then []
    else
      (if Known(view, attempts[0]) then [] else [attempts[0]])
      + Once(config, Step(config, view, attempts[0]).0, attempts[1..])
  }

  /** Every accepted message was well formed and for this task. */
  ghost predicate SoundEvents(config: Config, view: View) {
    forall id :: id in view.events ==>
      view.events[id].0.eventId == id && WellFormed(view.events[id].0) && view.events[id].0.taskId == config.taskId
  }

  lemma StepKeepsSound(config: Config, view: View, attempt: Attempt)
    requires SoundEvents(config, view)
    ensures SoundEvents(config, Step(config, view, attempt).0)
    ensures forall id :: id in view.events ==>
      id in Step(config, view, attempt).0.events && Step(config, view, attempt).0.events[id] == view.events[id]
  {
  }

  /** Once accepted, a message is answered the same way however often it comes, and changes nothing. */
  lemma KnownIsAnsweredAlike(config: Config, view: View, attempt: Attempt)
    requires SoundEvents(config, view) && Known(view, attempt)
    ensures Step(config, view, attempt) == (view, Success(view.events[attempt.message.eventId].1))
  {
  }

  /** The outcomes of the deliveries that are left, in a run with all of them. */
  ghost function FirstOutcomes(config: Config, view: View, attempts: seq<Attempt>): seq<Result<Outcome, Refusal>>
    decreases |attempts|
  {
    if attempts == [] then []
    else
      var (after, outcome) := Step(config, view, attempts[0]);
      (if Known(view, attempts[0]) then [] else [outcome]) + FirstOutcomes(config, after, attempts[1..])
  }

  /** At-least-once delivery equals exactly-once delivery: same end, same log, same outcomes. */
  lemma {:induction false} RedeliveriesChangeNothing(config: Config, view: View, attempts: seq<Attempt>)
    requires SoundEvents(config, view)
    ensures Run(config, view, Once(config, view, attempts)) == Run(config, view, attempts)
    ensures Outcomes(config, view, Once(config, view, attempts)) == FirstOutcomes(config, view, attempts)
    decreases |attempts|
  {
    if attempts != [] {
      var after := Step(config, view, attempts[0]).0;
      StepKeepsSound(config, view, attempts[0]);
      RedeliveriesChangeNothing(config, after, attempts[1..]);
      if Known(view, attempts[0]) {
        KnownIsAnsweredAlike(config, view, attempts[0]);
        assert after == view;
        assert Once(config, view, attempts) == Once(config, view, attempts[1..]);
      } else {
        var rest := Once(config, after, attempts[1..]);
        assert ([attempts[0]] + rest)[1..] == rest;
      }
    }
  }

  /** Every answer to a delivery of an accepted message is the outcome it was accepted with. */
  lemma {:induction false} EveryAnswerIsTheFirst(config: Config, view: View, attempts: seq<Attempt>, id: nat, i: nat)
    requires SoundEvents(config, view) && id in view.events
    requires i < |attempts| && attempts[i].message == view.events[id].0
    ensures Outcomes(config, view, attempts)[i] == Success(view.events[id].1)
    decreases |attempts|
  {
    StepKeepsSound(config, view, attempts[0]);
    if i == 0 {
      KnownIsAnsweredAlike(config, view, attempts[0]);
    } else {
      EveryAnswerIsTheFirst(config, Step(config, view, attempts[0]).0, attempts[1..], id, i - 1);
    }
  }
}

/**
 The commit wrapper every binding transaction goes through
 (src/openworkproof/binding_transactions.py): stage under BEGIN IMMEDIATE, COMMIT, read back, clean up,
 and classify what happened when any of these raises.

 `S` is the durable store, `T` the object being committed. A COMMIT may land and still raise; a COMMIT
 that returns has landed. A readback either raises or tells the truth.
 */
module BindingCommit {
  import opened Collections

  datatype StageResult<S, T> =
    | Staged(store: S, value: T)
    | StageInputError
    | StageTransactionError
    | StageCommitted(value: T)
    | StageFailure

  datatype Outcome<T> =
    | Returned(value: T)
    | CommittedError(committed: T)
    | Indeterminate
    | InputError
    | TransactionError

  /** Faults the program can be asked to inject. */
  datatype Fault =
    | NoFault
    | InsertFailure
    | BeforeCommit
    | CommitFailure
    | CommitAckLoss
    | ReadbackFailure
    | CleanupFailure
    | UnknownFault

  /** What the surroundings do during one attempt. */
  datatype Environment = Environment(
    fileExists: bool,
    opens: bool,
    commitLands: bool,
    commitRaises: bool,
    readbackRaises: bool,
    secondReadbackRaises: bool,
    cleanupFails: bool)

  predicate CommitIsHonest(env: Environment) {
    env.commitRaises || env.commitLands
  }

  /** How the program sees a failure inside the attempt. */
  datatype Raised<T> = Nothing | RaisedCommitted(value: T) | RaisedIndeterminate | RaisedInput | RaisedTransaction | RaisedOther

  /** Everything that can be learned about one attempt: the store it leaves and the outcome it reports. */
  function Attempt<S, T>(
    store: S, stage: S -> StageResult<S, T>, holds: (S, T) -> bool, env: Environment, fault: Fault
  ): (S, Outcome<T>) {
    if fault == UnknownFault || !env.fileExists || !env.opens then (store, TransactionError)
    else match stage(store)
      case StageCommitted(value) => (store, CommittedError(value))
      case StageInputError => (store, if env.cleanupFails then TransactionError else InputError)
      case StageTransactionError => (store, TransactionError)
      case StageFailure => (store, TransactionError)
      case Staged(staged, value) =>
        if fault in {BeforeCommit, InsertFailure, CommitFailure} then (store, TransactionError)
        else
          var durable := if env.commitLands then staged else store;
          var confirmed := if !env.secondReadbackRaises && holds(durable, value) then CommittedError(value) else Indeterminate;
          if env.commitRaises || fault == CommitAckLoss then (durable, confirmed)
          else if fault == ReadbackFailure then (durable, Indeterminate)
          else if env.readbackRaises then (durable, confirmed)
          else if !holds(durable, value) then (durable, Indeterminate)
          else if env.cleanupFails || fault == CleanupFailure then (durable, CommittedError(value))
          else (durable, Returned(value))
  }

  class LedgerFile<S> {
    var durable: S

    constructor (initial: S)
      ensures durable == initial
    {
      durable := initial;
    }

    method CommitWithReadback<T(==)>(
      stage: S -> StageResult<S, T>, holds: (S, T) -> bool, env: Environment, fault: Fault)
      returns (outcome: Outcome<T>)
      modifies this
      ensures (durable, outcome) == Attempt(old(durable), stage, holds, env, fault)
    {
      if fault == UnknownFault || !env.fileExists {
        return TransactionError;
      }
      var commitAttempted := false;
      var result: Option<T> := None;
      var raised: Raised<T> := Nothing;
      if !env.opens {
        raised := RaisedOther;
      } else {
        match stage(durable) {
          case StageCommitted(value) => raised := RaisedCommitted(value);
          case StageInputError => raised := RaisedInput;
          case StageTransactionError => raised := RaisedTransaction;
          case StageFailure => raised := RaisedOther;
          case Staged(staged, value) =>
            result := Some(value);
            if fault in {BeforeCommit, InsertFailure, CommitFailure} {
              raised := RaisedTransaction;
            } else {
              commitAttempted := true;
              if env.commitLands {
                durable := staged;
              }
              if env.commitRaises || fault == CommitAckLoss {
                raised := RaisedOther;
              } else if fault == ReadbackFailure {
                raised := RaisedIndeterminate;
              } else if env.readbackRaises {
                raised := RaisedOther;
              } else if !holds(durable, value) {
                raised := RaisedIndeterminate;
              }
            }
        }
      }
      if raised != Nothing {
        if raised.RaisedCommitted? {
          return CommittedError(raised.value);
        }
        if raised == RaisedIndeterminate {
          return Indeterminate;
        }
        if commitAttempted && result.Some? {
          if env.secondReadbackRaises {
            return Indeterminate;
          }
          return if holds(durable, result.value) then CommittedError(result.value) else Indeterminate;
        }
        if raised == RaisedInput && !env.cleanupFails {
          return InputError;
        }
        return TransactionError;
      }
      if env.cleanupFails || fault == CleanupFailure {
        return CommittedError(result.value);
      }
      return Returned(result.value);
    }
  }

  // ----- the outcome is the truth ---------------------------------------------------

  /**
   A stage that only claims what its store holds, and whose readback can tell the old store from the new.
   `present` says that the object is durable, whenever it was committed; the readback also compares the time.
   */
  ghost predicate FaithfulStage<S(!new), T(!new)>(
    store: S, stage: S -> StageResult<S, T>, holds: (S, T) -> bool, present: (S, T) -> bool)
  {
    && (stage(store).Staged? ==>
          && holds(stage(store).store, stage(store).value) && !holds(store, stage(store).value)
          && present(stage(store).store, stage(store).value))
    && (stage(store).StageCommitted? ==> present(store, stage(store).value))
  }

  /**
   A return or a committed error means the exact object is durable; a plain input or transaction error
   means the store is unchanged; in every case the store is the old one or the staged one.
   */
  lemma OutcomeIsTruth<S(!new), T(!new)>(
    store: S, stage: S -> StageResult<S, T>, holds: (S, T) -> bool, present: (S, T) -> bool, env: Environment, fault: Fault)
    requires CommitIsHonest(env) && FaithfulStage(store, stage, holds, present)
    ensures var (after, outcome) := Attempt(store, stage, holds, env, fault);
      && (after == store || (stage(store).Staged? && after == stage(store).store))
      && (outcome.Returned? ==>
            && stage(store).Staged? && after == stage(store).store && outcome.value == stage(store).value
            && present(after, outcome.value))
      && (outcome.CommittedError? ==>
            && present(after, outcome.committed)
            && (|| (stage(store) == StageCommitted(outcome.committed) && after == store)
                || stage(store) == Staged(after, outcome.committed)))
      && (outcome in {InputError, TransactionError} ==> after == store)
  {
  }

  /** Only a COMMIT whose readback could not be used, or did not find the object, is reported as indeterminate. */
  lemma IndeterminateOnlyWhenUnproven<S(!new), T(!new)>(
    store: S, stage: S -> StageResult<S, T>, holds: (S, T) -> bool, present: (S, T) -> bool, env: Environment, fault: Fault)
    requires CommitIsHonest(env) && FaithfulStage(store, stage, holds, present)
    ensures Attempt(store, stage, holds, env, fault).1 == Indeterminate <==>
      && fault !in {UnknownFault, BeforeCommit, InsertFailure, CommitFailure}
      && env.fileExists && env.opens && stage(store).Staged?
      && (if env.commitRaises || fault == CommitAckLoss then env.secondReadbackRaises || !env.commitLands
          else fault == ReadbackFailure || (env.readbackRaises && env.secondReadbackRaises))
  {
  }

  // ----- exactly when each outcome is reported ---------------------------------------

  /** The attempt gets as far as its stage. */
  predicate Starts(env: Environment, fault: Fault) {
    fault != UnknownFault && env.fileExists && env.opens
  }

  /** Nothing goes wrong around the attempt. */
  predicate Undisturbed(env: Environment, fault: Fault) {
    && fault == NoFault && env.fileExists && env.opens
    && !env.commitRaises && !env.readbackRaises && !env.cleanupFails
  }

  /** The program goes on to COMMIT what it has staged. */
  predicate Commits(env: Environment, fault: Fault) {
    Starts(env, fault) && fault !in {BeforeCommit, InsertFailure, CommitFailure}
  }

  /** The first look at what was committed does not confirm it, and a second one is taken. */
  predicate LooksAgain(env: Environment, fault: Fault) {
    env.commitRaises || fault == CommitAckLoss || (env.readbackRaises && fault != ReadbackFailure)
  }

  /** The store advances exactly when something staged goes to a COMMIT that lands. */
  lemma StoreAdvancesIff<S(!new), T(!new)>(
    store: S, stage: S -> StageResult<S, T>, holds: (S, T) -> bool, env: Environment, fault: Fault)
    ensures Attempt(store, stage, holds, env, fault).0
         == if Commits(env, fault) && stage(store).Staged? && env.commitLands then stage(store).store else store
  {
  }

  /** An attempt returns exactly when its object was staged and nothing went wrong. */
  lemma ReturnedIff<S(!new), T(!new)>(
    store: S, stage: S -> StageResult<S, T>, holds: (S, T) -> bool, present: (S, T) -> bool, env: Environment, fault: Fault)
    requires CommitIsHonest(env) && FaithfulStage(store, stage, holds, present)
    ensures var (after, outcome) := Attempt(store, stage, holds, env, fault);
      && (outcome.Returned? <==> stage(store).Staged? && Undisturbed(env, fault))
      && (outcome.Returned? ==> stage(store) == Staged(after, outcome.value))
  {
  }

  /**
   A committed error is reported exactly when the object was there already, or when its COMMIT landed, something
   then went wrong, and a readback still found it.
   */
  lemma CommittedErrorIff<S(!new), T(!new)>(
    store: S, stage: S -> StageResult<S, T>, holds: (S, T) -> bool, present: (S, T) -> bool, env: Environment, fault: Fault)
    requires CommitIsHonest(env) && FaithfulStage(store, stage, holds, present)
    ensures Attempt(store, stage, holds, env, fault).1.CommittedError? <==>
      || (Starts(env, fault) && stage(store).StageCommitted?)
      || (&& Commits(env, fault) && stage(store).Staged? && env.commitLands
          && if LooksAgain(env, fault) then !env.secondReadbackRaises
             else fault == CleanupFailure || (fault != ReadbackFailure && env.cleanupFails))
  {
  }

  /** The two refusals, exactly; an input error is only passed on when the clean-up works. */
  lemma RefusedIff<S(!new), T(!new)>(
    store: S, stage: S -> StageResult<S, T>, holds: (S, T) -> bool, env: Environment, fault: Fault)
    ensures Attempt(store, stage, holds, env, fault).1 == InputError <==>
      Starts(env, fault) && stage(store) == StageInputError && !env.cleanupFails
    ensures Attempt(store, stage, holds, env, fault).1 == TransactionError <==>
      || !Starts(env, fault)
      || stage(store) in {StageTransactionError, StageFailure}
      || (stage(store) == StageInputError && env.cleanupFails)
      || (stage(store).Staged? && !Commits(env, fault))
  {
  }

  // ----- judgments: one table committed through the wrapper ---------------------------

  type Digest = nat
  type Instant = int

  /** A committed object as others name it. */
  datatype Reference = Reference(id: Digest, digest: Digest)

  datatype Signature = Signature(key: nat, covers: Digest)

  datatype Judgment = Judgment(
    id: Digest, digest: Digest, namespace: string, subjectId: string,
    validFrom: Instant, expiresAt: Instant, nonce: Digest, signerKeyId: nat, signature: Signature)

  /** The customer authority a judgment is committed under. */
  datatype Authority = Authority(namespace: string, isAcceptor: bool, keyId: nat, decodable: bool)

  predicate Authorized(judgment: Judgment, authority: Authority) {
    && authority.namespace == judgment.namespace
    && authority.isAcceptor && authority.decodable
    && judgment.signerKeyId == authority.keyId
    && judgment.signature == Signature(authority.keyId, judgment.digest)
  }

  datatype JudgmentRow = JudgmentRow(judgment: Judgment, committedAt: Instant)

  type JudgmentTable = seq<JudgmentRow>

  function StageJudgment(judgment: Judgment, now: Instant, table: JudgmentTable): StageResult<JudgmentTable, JudgmentRow> {
    if exists r :: r in table && r.judgment == judgment then StageCommitted(JudgmentRow(judgment, now))
    else if exists r :: r in table && r.judgment.id == judgment.id then StageTransactionError
    else if !(judgment.validFrom <= now < judgment.expiresAt) then StageInputError
    else if exists r :: r in table && r.judgment.signerKeyId == judgment.signerKeyId && r.judgment.nonce == judgment.nonce
    then StageTransactionError
    else Staged(table + [JudgmentRow(judgment, now)], JudgmentRow(judgment, now))
  }

  predicate JudgmentReadback(table: JudgmentTable, row: JudgmentRow) {
    row in table
  }

  /** The judgment is in the table, whenever it was committed. */
  predicate JudgmentPresent(table: JudgmentTable, row: JudgmentRow) {
    exists r :: r in table && r.judgment == row.judgment
  }

  /** One attempt to commit `judgment` under `authority`, whatever the surroundings do. */
  function JudgmentAttempt(
    table: JudgmentTable, judgment: Judgment, authority: Authority, now: Instant, env: Environment, fault: Fault)
    : (JudgmentTable, Outcome<JudgmentRow>)
  {
    if !Authorized(judgment, authority) then (table, InputError)
    else Attempt(table, (t: JudgmentTable) => StageJudgment(judgment, now, t), JudgmentReadback, env, fault)
  }

  lemma JudgmentStageFaithful(table: JudgmentTable, judgment: Judgment, now: Instant)
    ensures FaithfulStage(table, (t: JudgmentTable) => StageJudgment(judgment, now, t), JudgmentReadback, JudgmentPresent)
  {
    var row := JudgmentRow(judgment, now);
    assert row in table ==> row.judgment == judgment;
    assert row in table + [row];
  }

  /** No row of the table has this judgment's id, nor its signer's nonce. */
  ghost predicate FreshJudgment(table: JudgmentTable, judgment: Judgment) {
    forall r :: r in table ==>
      r.judgment.id != judgment.id && (r.judgment.signerKeyId, r.judgment.nonce) != (judgment.signerKeyId, judgment.nonce)
  }

  /**
   A judgment is committed and returned exactly when it is its customer's own, in force, new, and nothing went
   wrong; it is then the one new row.
   */
  lemma JudgmentReturnedIff(
    table: JudgmentTable, judgment: Judgment, authority: Authority, now: Instant, env: Environment, fault: Fault)
    requires CommitIsHonest(env)
    ensures var (after, outcome) := JudgmentAttempt(table, judgment, authority, now, env, fault);
      && (outcome.Returned? <==>
            && Undisturbed(env, fault) && Authorized(judgment, authority)
            && judgment.validFrom <= now < judgment.expiresAt && FreshJudgment(table, judgment))
      && (outcome.Returned? ==> outcome.value == JudgmentRow(judgment, now) && after == table + [outcome.value])
  {
    JudgmentStageFaithful(table, judgment, now);
    ReturnedIff(table, (t: JudgmentTable) => StageJudgment(judgment, now, t), JudgmentReadback, JudgmentPresent, env, fault);
  }

  /** A judgment is an input error exactly when it is not its customer's own, or is new and not in force. */
  lemma JudgmentInputErrorIff(
    table: JudgmentTable, judgment: Judgment, authority: Authority, now: Instant, env: Environment, fault: Fault)
    ensures JudgmentAttempt(table, judgment, authority, now, env, fault).1 == InputError <==>
      || !Authorized(judgment, authority)
      || (&& Starts(env, fault) && !env.cleanupFails && !(judgment.validFrom <= now < judgment.expiresAt)
          && forall r :: r in table ==> r.judgment.id != judgment.id)
  {
    RefusedIff(table, (t: JudgmentTable) => StageJudgment(judgment, now, t), JudgmentReadback, env, fault);
  }

  method CommitJudgment(
    file: LedgerFile<JudgmentTable>, judgment: Judgment, authority: Authority, now: Instant, env: Environment, fault: Fault)
    returns (outcome: Outcome<JudgmentRow>)
    requires CommitIsHonest(env)
    modifies file
    ensures (file.durable, outcome) == JudgmentAttempt(old(file.durable), judgment, authority, now, env, fault)
    ensures outcome.Returned? || outcome.CommittedError? ==>
      Authorized(judgment, authority) && exists r :: r in file.durable && r.judgment == judgment
    ensures outcome.InputError? || outcome.TransactionError? ==> file.durable == old(file.durable)
    ensures old(file.durable) <= file.durable <= old(file.durable) + [JudgmentRow(judgment, now)]
  {
    if !Authorized(judgment, authority) {
      return InputError;
    }
    var stage := (t: JudgmentTable) => StageJudgment(judgment, now, t);
    JudgmentStageFaithful(file.durable, judgment, now);
    OutcomeIsTruth(file.durable, stage, JudgmentReadback, JudgmentPresent, env, fault);
    outcome := file.CommitWithReadback(stage, JudgmentReadback, env, fault);
  }

  datatype Try = Try(judgment: Judgment, authority: Authority, now: Instant, env: Environment, fault: Fault)

  /** The table and the outcome of one try. */
  function Tried(table: JudgmentTable, t: Try): (JudgmentTable, Outcome<JudgmentRow>) {
    JudgmentAttempt(table, t.judgment, t.authority, t.now, t.env, t.fault)
  }

  function Tries(table: JudgmentTable, tries: seq<Try>): JudgmentTable
    decreases |tries|
  {
    if tries == [] then table else Tries(Tried(table, tries[0]).0, tries[1..])
  }

  ghost predicate UniqueRows(table: JudgmentTable) {
    && (forall i, j :: 0 <= i < j < |table| ==> table[i].judgment.id != table[j].judgment.id)
    && (forall i, j :: 0 <= i < j < |table| ==>
          (table[i].judgment.signerKeyId, table[i].judgment.nonce) != (table[j].judgment.signerKeyId, table[j].judgment.nonce))
    && (forall i :: 0 <= i < |table| ==>
          && table[i].judgment.validFrom <= table[i].committedAt < table[i].judgment.expiresAt
          && table[i].judgment.signature == Signature(table[i].judgment.signerKeyId, table[i].judgment.digest))
  }

  lemma TryKeeps(table: JudgmentTable, t: Try)
    requires UniqueRows(table)
    ensures UniqueRows(Tried(table, t).0) && table <= Tried(table, t).0
  {
  }

  /**
   However often objects are retried, and whatever fails, each id and nonce ends in at most one row, every row
   is signed by its signer and was committed in its window, and rows stay.
   */
  lemma {:induction false} RetriesLeaveOneRow(table: JudgmentTable, tries: seq<Try>)
    requires UniqueRows(table)
    ensures UniqueRows(Tries(table, tries)) && table <= Tries(table, tries)
    decreases |tries|
  {
    if tries != [] {
      TryKeeps(table, tries[0]);
      RetriesLeaveOneRow(Tried(table, tries[0]).0, tries[1..]);
    }
  }

  /**
   An object whose commit was reported, by return or by committed error, is found by every later attempt:
   after any number of other tries a retry changes nothing and never reports anything but committed or
   a transaction that did not start, or, under an authority that is not its own, an input error.
   */
  lemma RetryAfterCommit(table: JudgmentTable, first: Try, between: seq<Try>, again: Try)
    requires UniqueRows(table) && CommitIsHonest(first.env)
    requires first.judgment == again.judgment
    requires Tried(table, first).1.Returned? || Tried(table, first).1.CommittedError?
    ensures var after := Tries(Tried(table, first).0, between);
      var (final, outcome) := Tried(after, again);
      && final == after
      && (if Authorized(again.judgment, again.authority) then outcome.CommittedError? || outcome == TransactionError
          else outcome == InputError)
  {
    TryKeeps(table, first);
    ReportedIsPresent(table, first);
    RetriesLeaveOneRow(Tried(table, first).0, between);
    PresentStays(Tried(table, first).0, Tries(Tried(table, first).0, between), first.judgment);
    PresentIsFound(Tries(Tried(table, first).0, between), again);
  }

  ghost predicate InTable(table: JudgmentTable, judgment: Judgment) {
    exists r :: r in table && r.judgment == judgment
  }

  /** What a try reports as committed is in the table it leaves. */
  lemma ReportedIsPresent(table: JudgmentTable, t: Try)
    requires CommitIsHonest(t.env) && (Tried(table, t).1.Returned? || Tried(table, t).1.CommittedError?)
    ensures InTable(Tried(table, t).0, t.judgment)
  {
    JudgmentStageFaithful(table, t.judgment, t.now);
    OutcomeIsTruth(
      table, (u: JudgmentTable) => StageJudgment(t.judgment, t.now, u), JudgmentReadback, JudgmentPresent, t.env, t.fault);
  }

  lemma PresentStays(table: JudgmentTable, longer: JudgmentTable, judgment: Judgment)
    requires InTable(table, judgment) && table <= longer
    ensures InTable(longer, judgment)
  {
    var r :| r in table && r.judgment == judgment;
    assert r in longer;
  }

  /** A try of a judgment that is in the table finds it. */
  lemma PresentIsFound(table: JudgmentTable, t: Try)
    requires InTable(table, t.judgment)
    ensures var (final, outcome) := Tried(table, t);
      && final == table
      && (if Authorized(t.judgment, t.authority) then outcome.CommittedError? || outcome == TransactionError
          else outcome == InputError)
  {
    assert StageJudgment(t.judgment, t.now, table).StageCommitted?;
  }
}

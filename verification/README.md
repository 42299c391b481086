# A verified model of OpenWorkProof's histories, commits and scanners

OpenWorkProof keeps signed, append-only protocol histories and decides, again and again, whether what it has
just written can be believed. This project models the parts where that is hardest and proves what they keep
over every run.

- **Supersession histories.** Human agency profiles (`AgencyHistory`, `AgencyResolver`, `AgencyLedger`,
  `AgencyFaults`, `AgencyGaps`, `AgencyPolicy`, `AgencyBundle`, `AgencySamples`), action binding manifests (`ManifestHistory`,
  `ManifestFaults`, `ManifestRuns`, `ManifestAsOf`),
  binding decisions (`BindingDecisions`, `DecisionComposition`, `DecisionSamples`) and authority checkpoints (`Authority`). The
  program never checks the global shape of these graphs directly. Here it is proved that its local checks force
  one simple path, one chain, a forest of chains, or a ladder, and what follows from that.
- **Commits whose acknowledgement may be lost.** The commit wrapper of the binding store (`BindingCommit`) and
  the schema directory swap with its rollback, recovery and clean-up (`SchemaFiles`, `SchemaStates`,
  `SchemaInstall`, `SchemaRollback`, `SchemaSwap`, `SchemaRecovery`, `SchemaTransaction`). Every step may land and still raise, and a crash may come anywhere.
- **The acceptance run.** Compose, request, then accept or reject through compare-and-set counters
  (`Receipts`, `AcceptanceRun`, `AcceptanceHistory`, `AcceptanceCompositions`, `AcceptanceStore`), against the offline checks
  (`AcceptanceBindings`, `CompositionBundle`, `AcceptanceTheorems`, `AcceptanceSteps`).
- **The AgentTeams workflow** (`Workflow`, `WorkflowRuns`), with repeated deliveries, lost commit
  acknowledgements and failed announcements.
- **Scanners and checks on text.** The patch scanner and its grammar (`PatchScanner`, `PatchGrammar`), the bounded
  line reader (`LineFraming`) and path root coverage (`PathRoots`).

Code that changes things step by step is a class or a method with loops, proved equal to a specification
function; the theorems are lemmas about those functions. Digests and signatures are symbolic: equal digests mean
equal content, and a signature verifies when it was made with the key over the content. Identifiers that the
program orders by their text are natural numbers. Times are seconds. Choices outside the program (does a COMMIT
land, does a rename raise, how many bytes does a read return) are inputs or nondeterministic.

`dafny verify dfyconfig.toml` checks the whole project.

## Where the code falls short of its promise

Each of these is proved with its exact condition and, where that does not name the run itself, with an input or a run
that shows it.

- A full agency bundle cannot be read back. The snapshot writer counts its files without the manifest against the
  limit of 4096, the reader counts the manifest too. Because the export verifies its stage before it publishes it,
  no unreadable bundle is published; a full ledger just cannot be exported. Condition: `ReachableBundleRoundTrip` and
  `ExportsIffFits`. Run: `FullBundleExists`.
- An agency ledger can be left where it never resolves again: with three profiles committed beyond what
  supersessions account for, no transition is ever accepted, and every request is denied for good. Condition: a
  reachable ledger can still be brought to resolve if and only if that number is at most two (`ResolvesAgainIff`,
  with `WideGapDeniesForever` for the denials). Run: three profile commits, `WideGapIsReached`.
- A recorded denial makes the ledger unreadable for good. The audit entry of a denied call
  (`src/openworkproof/mcp_server.py:3898-4100`) names the last receipt by its id where every other receipt carries its
  digest, and advances neither counter, so every later reader refuses the history. Condition: a ledger that any run
  reaches can be read if and only if no denial was recorded on the way (`ReadableIffNoDenial`), and from any readable
  undecided one a denial under an unused id is recorded and ends it (`DenialSticks`). Run: one event and one denial,
  `StuckIsReached`.
- A crash while rollback takes an installed directory apart file by file can lose both the old and the new: recovery
  finds the target standing, keeps what is left of it and deletes the backup. Condition: every point of the removal is
  recovered to the old or the new if and only if there are no new files, or one over an empty old directory
  (`TakenApartIff`). Run: with any other contents every rollback that completes the removal of an installed target
  has passed such a state (`Rollback`). A call with a single target, as the one caller in the repository makes, takes
  nothing apart unless the final readback fails with an I/O error, which counts as a mismatch: a failed
  call whose rollback completed has passed such a state if and only if that readback failed and the contents are of
  the other kind (`CommitStagedDirectories`).
- A failed schema swap can leave new files standing. If the target did not exist, its stage is renamed into place, the
  rename raises all the same and the readback fails, the target does not count as installed and rollback does not
  remove it. Condition: after a failed swap that listed no target twice every target holds exactly what it held
  before, except that such a target holds the new files (`CommitStagedDirectories`); without a failed readback there
  is none.
- A rollback restores a target listed twice and then takes it away again: without an error an installed target is
  restored if and only if it is listed once (`Rollback`). The one caller in the repository passes a single target.
- The decision composer copies replay reasons that its own object validator refuses: a replay that ends UNBOUND or
  INDETERMINATE without reasons, with unsorted ones, or with a checkpoint reason makes it raise. Condition:
  `ComposesIff`. Input: `CheckpointReplayRaises`. The one adapter in the repository
  (`src/openworkproof/adapters/code_delivery_github.py:409-428`) always gives exactly one reason and never a checkpoint
  one, so such a replay can only come from another implementation of the open replay protocol.
- A composed BOUND decision is refused at commit when its verification was decided after it; the composer does not
  compare the two times. Condition: `BoundDecisionCommitsIff`. Input: `LateVerificationIsRefused`.

## Model

| member | source | states |
|---|---|---|
| AgencyResolver.ResolveHumanAgencyProfileStructure | src/openworkproof/agency.py:508-677 | the resolver's loops over profiles, transitions and the walk compute the specification function, error for error |
| AgencyResolver.IndexProfilesLoop | src/openworkproof/agency.py:546-565 | one pass indexes the profiles or reports the first fault in list order |
| AgencyResolver.IndexTransitionsLoop | src/openworkproof/agency.py:567-615 | one pass indexes the transitions by target or reports the first fault |
| AgencyResolver.WalkLoop | src/openworkproof/agency.py:627-650 | the walk ends, and with the same path or cycle fault as the recursive walk |
| AgencyHistory.ResolvesIffPath | src/openworkproof/agency.py:567-677 | resolution succeeds if and only if profiles and transitions form one simple path: every profile once, consecutive ones joined by supersessions, at most one revocation, at the end |
| AgencyHistory.ResolvedHistoryIsPath | src/openworkproof/agency.py:627-677 | the resolved ids, current profile and status are those of the path |
| AgencyHistory.PathResolves | src/openworkproof/agency.py:567-677 | every such path resolves, to its own end and status |
| AgencyHistory.WalkCoversTransitions | src/openworkproof/agency.py:653-662 | a walk that has visited every profile has used every transition |
| AgencyFaults.FaultIsTrue | src/openworkproof/agency.py:508-677 | whatever fault the resolver reports of a history is there: an unverified or repeated profile, a transition that does not fit its profiles, a second transition, not one genesis, or no path |
| AgencyResolver.UnreachableTransitionNeverReported | src/openworkproof/agency.py:657-662 | the unreachable-transition fault is never the answer, for any input |
| AgencyResolver.ResolutionIgnoresOrder | src/openworkproof/agency.py:508-677 | permuting profiles and transitions changes neither success nor the resolved history |
| AgencyResolver.OldPathIsBlock | src/openworkproof/agency.py:616-662 | if one resolved history extends another, the old path is a contiguous block of the new one |
| AgencyResolver.ProfilesCountSupersessions | src/openworkproof/agency.py:616-662 | a resolved history has exactly one profile more than it has supersessions |
| AgencyLedger.LedgerFile.CommitProfile | src/openworkproof/agency_ledger.py:559-702 | one profile commit: duplicate id, nonce and digest checks, then one row in id order; refusals leave the tables alone |
| AgencyLedger.LedgerFile.CheckTransitionReferences | src/openworkproof/agency_ledger.py:323-353 | the reference checks of a transition, refusal for refusal, by one pass over the profiles |
| AgencyLedger.LedgerFile.CommitTransition | src/openworkproof/agency_ledger.py:705-748 | one transition commit: references, then the whole resulting history must resolve |
| AgencyLedger.LedgerFile.CommitAppeal | src/openworkproof/agency_ledger.py:751-790 | one appeal commit: its profile must be there, exactly as referenced |
| AgencyLedger.TransitionCommitResolves | src/openworkproof/agency_ledger.py:520-533 | a committed transition leaves a history that resolves |
| AgencyLedger.ProfileCommittedIff | src/openworkproof/agency_ledger.py:559-702 | a profile is committed if and only if it verifies and its id, nonce and digest are new |
| AgencyLedger.TransitionCommittedIff | src/openworkproof/agency_ledger.py:705-748 | on a sound ledger a transition is committed if and only if its id, nonce and digest are new and the profiles form one path with it: the reference checks refuse nothing more |
| AgencyLedger.AppealCommittedIff | src/openworkproof/agency_ledger.py:751-790 | an appeal is committed if and only if it verifies, its profile is there as referenced, and its id, nonce and digest are new |
| AgencyLedger.RefusalIsTrue | src/openworkproof/agency_ledger.py:323-353 | every refusal of a commit is for a reason that holds of the tables, and what is committed already is never refused |
| AgencyLedger.RunKeepsSound | src/openworkproof/agency_ledger.py:381-482 | over any run every row stays verified, in id order, with its references in the tables |
| AgencyLedger.RunExtends | src/openworkproof/agency_ledger.py:559-662 | over any run the tables only grow |
| AgencyLedger.RevocationIsPermanent | src/openworkproof/agency_ledger.py:323-353 | once a revocation is committed, no ledger reached by any further commits resolves to anything but revoked |
| AgencyLedger.ResolvedHistoryGrowsAround | src/openworkproof/agency_ledger.py:520-533 | if a ledger resolves before and after any commits, the old profile list is a contiguous block of the new one |
| AgencyLedger.TransitionCommitClosesGap | src/openworkproof/agency_ledger.py:595-616 | every transition commit leaves profiles = supersessions + 1, and needs a gap of at most two before |
| AgencyLedger.WideGapIsForever | src/openworkproof/agency_ledger.py:520-533 | from a gap of three or more no later ledger resolves and no transition is ever accepted |
| AgencyGaps.RunKeepsCore | src/openworkproof/agency_ledger.py:520-533 | in every reachable ledger some of the profiles resolve with exactly the transitions there are |
| AgencyGaps.PathTakesOneMore | src/openworkproof/agency.py:616-670 | a history that resolves takes in one more profile by one supersession: after its end, or before its start when the end is revoked |
| AgencyGaps.GapTwoCloses | src/openworkproof/agency_ledger.py:323-353 | in a reachable ledger of gap two some supersession is accepted |
| AgencyGaps.ResolvesAgainIff | src/openworkproof/agency_ledger.py:520-533 | a ledger any run reaches, with a profile in it, resolves if and only if its gap is one, and can still be brought to resolve if and only if its gap is at most two |
| AgencyGaps.WideGapIsReached | src/openworkproof/agency_ledger.py:664-702 | three profile commits reach a ledger that can never be brought to resolve |
| AgencyPolicy.ResolveCurrentIffActive | src/openworkproof/agency.py:680-706 | the current-profile resolver gives an unrevoked profile exactly when the signed history is a path ending in it, in its window |
| AgencyPolicy.AllowedIffDelegated | src/openworkproof/agency_policy.py:67-171 | a call is allowed if and only if the base policy allows it and an active profile delegates the tool and does not reserve it |
| AgencyPolicy.DecisionOnPath | src/openworkproof/agency_policy.py:67-171 | on a path the layer allows, or says why not: revoked, out of its window, reserved, or not delegated |
| AgencyPolicy.DecisionOffPath | src/openworkproof/agency_policy.py:67-171 | without a path it denies for a missing profile exactly when there is none, and otherwise for an invalid history or the wrong work order |
| AgencyPolicy.RevocationDeniesForever | src/openworkproof/agency_policy.py:89-109 | after a committed revocation the profile layer denies every request at every time, whatever is committed later |
| AgencyPolicy.WideGapDeniesForever | src/openworkproof/agency_policy.py:89-109 | the same after a gap of three |
| AgencyBundle.LoadAgencyObjects | src/openworkproof/agency_bundle.py:661-696 | one pass loads the objects of a kind or reports the first bad file |
| AgencyBundle.BundleRoundTrip | src/openworkproof/agency_bundle.py:699-767 | for every sound ledger that resolves, a written bundle verifies, under any enumeration of its files, to the same status, profile and appeal count if and only if it fits the reader's limits |
| AgencyBundle.ReachableBundleRoundTrip | src/openworkproof/agency_bundle.py:699-767 | the same for every ledger that any run of commits reaches |
| AgencyBundle.ExportsIffFits | src/openworkproof/agency_bundle.py:1011-1032 | for every reachable ledger the export goes through if and only if its snapshot is written and fits the reader; it never diverges from its snapshot, and what it publishes verifies in any enumeration |
| AgencyBundle.FullBundleNeverVerifies | src/openworkproof/agency_bundle.py:299-348 | a bundle with as many objects as the writer allows is never accepted by the reader |
| AgencyBundle.FullBundleExists | src/openworkproof/agency_bundle.py:910-957 | a run of commits reaches a ledger whose snapshot the writer accepts and the reader refuses |
| AgencyBundle.ReadersFindRows | src/openworkproof/agency_bundle.py:661-696 | the three readers find exactly the snapshot's rows among the written files |
| AgencyBundle.ReplayAgrees | src/openworkproof/agency_bundle.py:438-456 | status and profile derived from the loaded rows equal those derived from the ledger's |
| AgencyBundle.ManifestFixesFiles | src/openworkproof/agency_bundle.py:567-606 | two trees with the same accepted manifest hold the same files |
| AgencyBundle.StatusMeansPath | src/openworkproof/agency_bundle.py:438-456 | what each bundle status says about the path of profiles |
| BindingCommit.LedgerFile.CommitWithReadback | src/openworkproof/binding_transactions.py:140-217 | the commit wrapper with its flags, handlers and clean-up computes the specified store and outcome for every combination of faults |
| BindingCommit.OutcomeIsTruth | src/openworkproof/binding_transactions.py:140-217 | return or a committed error means the exact object is durable; an input or transaction error means the store is unchanged; nothing else ever changes it |
| BindingCommit.StoreAdvancesIff | src/openworkproof/binding_transactions.py:140-217 | the store advances if and only if something staged goes to a COMMIT that lands |
| BindingCommit.ReturnedIff | src/openworkproof/binding_transactions.py:140-217 | an attempt returns if and only if its object was staged and nothing went wrong, and then the store is the staged one |
| BindingCommit.CommittedErrorIff | src/openworkproof/binding_transactions.py:166-216 | a committed error is reported if and only if the object was there already, or its COMMIT landed, something then went wrong and a readback still found it |
| BindingCommit.RefusedIff | src/openworkproof/binding_transactions.py:166-207 | exactly when an input error and when a transaction error is reported |
| BindingCommit.IndeterminateOnlyWhenUnproven | src/openworkproof/binding_transactions.py:166-207 | exactly when the outcome is reported as indeterminate |
| BindingCommit.CommitJudgment | src/openworkproof/binding_transactions.py:98-124 | judgment commits are this wrapper around the judgment stage, behind the check of the customer authority; what is reported committed is authorized and in the table |
| BindingCommit.JudgmentReturnedIff | src/openworkproof/binding_transactions.py:248-327 | a judgment is returned if and only if it is its customer's own, in force, new in id and nonce, and nothing goes wrong; it is then the one new row |
| BindingCommit.JudgmentInputErrorIff | src/openworkproof/binding_transactions.py:248-327 | a judgment is an input error if and only if it is not its customer's own, or its id is new and it is not in force |
| BindingCommit.RetriesLeaveOneRow | src/openworkproof/binding_transactions.py:267-320 | any number of tries, under any faults, keeps one row per id and per nonce, each signed and committed in its window, and never changes a row |
| BindingCommit.RetryAfterCommit | src/openworkproof/binding_transactions.py:267-320 | after a commit, retrying the same object, at any later point, changes nothing and never returns normally |
| ManifestRuns.ValidatedManifestHistory | src/openworkproof/binding_transactions.py:496-638 | the validating passes over rows, relations, roots and the walk compute the specification function, fault for fault |
| ManifestRuns.IndexRelationRows | src/openworkproof/binding_transactions.py:588-613 | the relation pass fills both indexes or reports its first fault |
| ManifestRuns.WalkFromRoot | src/openworkproof/binding_transactions.py:623-633 | the walk ends, with the same rows or fault as the recursive one |
| ManifestHistory.ValidIffChain | src/openworkproof/binding_transactions.py:496-638 | a history validates if and only if its rows form one chain, parents committed and created before children, whose links are exactly the relation table; the last one is current |
| ManifestHistory.CycleAndDisconnectedNeverReported | src/openworkproof/binding_transactions.py:619-636 | for any input, the cycle and disconnected checks are never what fails |
| ManifestHistory.WalkReachesEveryRow | src/openworkproof/binding_transactions.py:613-636 | after the count, relation and root checks the walk passes every row exactly once |
| ManifestFaults.FaultIsTrue | src/openworkproof/binding_transactions.py:496-638 | whatever fault validation reports of the tables is there: an invalid row, a wrong count, a forked or dangling relation, one that its rows contradict, or not one root |
| ManifestRuns.CommitActionBindingManifest | src/openworkproof/binding_transactions.py:760-911 | manifest commits are the wrapper around the manifest stage |
| ManifestRuns.ManifestStagedIff | src/openworkproof/binding_transactions.py:782-896 | on a ledger that is one chain a manifest is staged if and only if it is new, authorized, and continues the chain at its end |
| ManifestRuns.ManifestReturnedIff | src/openworkproof/binding_transactions.py:760-911 | it is returned if and only if it is also well formed and nothing goes wrong; it is then the last row and the current manifest |
| ManifestRuns.ValidAtIffAuthorized | src/openworkproof/binding_transactions.py:496-587 | validity at an instant is: windows nested in those of judgment, scope and work order, the instant inside the manifest's own, references by id and digest |
| ManifestRuns.StageExtendsChain | src/openworkproof/binding_transactions.py:782-896 | a staged manifest extends the chain by one and becomes current |
| ManifestRuns.AttemptExtendsChain | src/openworkproof/binding_transactions.py:760-911 | whatever the faults, an attempt leaves the chain as it was or longer by this manifest, as its outcome says |
| ManifestRuns.RunKeepsLedger | src/openworkproof/binding_transactions.py:760-911 | any run of commits, failed commits and new authorities keeps a ledger one chain, with its rows |
| ManifestRuns.ReachableHistoryValidates | src/openworkproof/binding_transactions.py:760-911 | every ledger a run reaches from an empty one, whatever has expired since, validates with the last committed manifest as current |
| ManifestAsOf.LoadHistoricalManifest | src/openworkproof/binding_transactions.py:698-757 | the historical loader's pass over rows and relations computes its specification |
| ManifestAsOf.AsOfFormsChain | src/openworkproof/binding_transactions.py:698-757 | the history restricted to commits at or before an instant is again a valid chain |
| ManifestAsOf.LookupIffCurrentThen | src/openworkproof/binding_transactions.py:698-757 | the lookup returns a manifest at an instant exactly when it is the current one of the history as of then, matches the request, and the instant lies in its window |
| ManifestAsOf.AtMostOneInForce | src/openworkproof/binding_transactions.py:698-757 | at most one manifest is accepted for any instant, equal commit times included |
| ManifestAsOf.InForceMeansAuthorized | src/openworkproof/binding_transactions.py:698-757 | a manifest accepted for an instant has its judgment, its scope and the work order in force at that instant |
| ManifestAsOf.LookupFaultIs | src/openworkproof/binding_transactions.py:698-757 | why a lookup fails, check by check, in terms of the rows |
| BindingDecisions.CommitBindingDecision | src/openworkproof/binding_transactions.py:1027-1223 | decision commits are the wrapper around the decision stage |
| BindingDecisions.DecisionStagedIff | src/openworkproof/binding_transactions.py:1027-1216 | in a store that is a union of chains a decision is staged if and only if it is new in id and nonce, its references hold, and it supersedes nothing or the end of a chain |
| BindingDecisions.DecisionReturnedIff | src/openworkproof/binding_transactions.py:1027-1223 | it is returned if and only if also nothing goes wrong, and is then the one new row |
| BindingDecisions.ReferenceFaultIff | src/openworkproof/binding_transactions.py:1080-1139 | the reference checks pass if and only if the rows are there and agree with each other and the decision; a missing row is an input error, anything else a transaction error |
| BindingDecisions.StageGrowsForest | src/openworkproof/binding_transactions.py:1140-1216 | a staged decision starts a chain or extends one at its end |
| BindingDecisions.RunKeepsForest | src/openworkproof/binding_transactions.py:1140-1216 | no attempt, failed or not, merges two chains or reorders commit times |
| BindingDecisions.ReachableStoreIsForest | src/openworkproof/binding_transactions.py:1140-1216 | every store a run reaches from an empty one is a disjoint union of chains with non-decreasing commit times |
| BindingDecisions.HeadsCountRoots | src/openworkproof/binding_transactions.py:1242-1260 | heads, roots and chains are equally many: decisions minus supersessions |
| BindingDecisions.LoadCurrentBindingDecision | src/openworkproof/binding_transactions.py:1226-1268 | the loader's passes compute its specification |
| BindingDecisions.CurrentIffOneRoot | src/openworkproof/binding_transactions.py:1242-1268 | the loader succeeds if and only if exactly one root was ever committed, and returns the end of its chain |
| BindingDecisions.ReachableCurrentIffOneRoot | src/openworkproof/binding_transactions.py:1226-1268 | the same over any run from an empty store, with the heads numbering decisions minus supersessions |
| Authority.CommitAuthorityCheckpoint | src/openworkproof/binding_transactions.py:1311-1427 | checkpoint commits are the wrapper around the checkpoint stage |
| Authority.CheckpointStagedIff | src/openworkproof/binding_transactions.py:1331-1418 | a checkpoint is staged if and only if it is new and the next rung of its subject's ladder, not earlier than the one below |
| Authority.CheckpointReturnedIff | src/openworkproof/binding_transactions.py:1311-1427 | it is returned if and only if it is also well formed and nothing goes wrong; it is then the one new row |
| Authority.RunClimbs | src/openworkproof/binding_transactions.py:1331-1418 | in any run every namespace and subject has revisions 1 to n once each, each linked to the one below |
| Authority.ValidateAuthorityChain | src/openworkproof/authority.py:32-100 | the validator's loops compute its specification |
| Authority.CurrentIffLadder | src/openworkproof/authority.py:32-100 | validation says current if and only if the input is a non-empty signed ladder in order, and the head is its last rung |
| Authority.StatusIs | src/openworkproof/authority.py:32-100 | what validation reports for any chain: the first of a bad signature, a fork, a step back and a rung out of place, or current |
| Authority.CommittedChainIsCurrent | src/openworkproof/binding_transactions.py:1430-1455 | what any run commits, loaded and properly signed, validates as current with the highest revision as head |
| DecisionComposition.ComposesIff | src/openworkproof/binding.py:624-835 | exactly when composing yields an object |
| DecisionComposition.ComposedCarriesInputs | src/openworkproof/binding.py:664-835 | the object names the judgment, manifest, verification, executions, superseded decision, time and nonce it was composed from, and the finding |
| DecisionComposition.FindingIsFirstFailing | src/openworkproof/binding.py:664-801 | verdict and reasons are those of the first check that fails, in this order |
| DecisionComposition.AuthorityFindingIs | src/openworkproof/binding.py:765-792 | at high risk the finding says what is wrong with the authority's chain first |
| DecisionComposition.CheckpointReasonBreaksComposition | src/openworkproof/models.py:3620-3718 | a replay that reports a stale checkpoint makes the composer raise |
| DecisionComposition.OwnFindingsValid | src/openworkproof/models.py:3620-3718 | every finding the composer makes up itself passes the object validator |
| DecisionComposition.BoundIff | src/openworkproof/binding.py:664-801 | a decision is BOUND exactly when digests agree, every window contains the decision time, every execution names the manifest, and high risk has a current chain |
| DecisionComposition.AuthorityFindingBoundIff | src/openworkproof/binding.py:765-792 | high risk is BOUND exactly on a signed ladder whose head's window contains the decision time |
| DecisionComposition.BoundDecisionCommitsIff | src/openworkproof/binding_transactions.py:1080-1139 | a BOUND decision passes the commit's reference checks if and only if its verification was not decided later than it |
| DecisionComposition.ComposedBecomesCurrentIff | src/openworkproof/binding_transactions.py:1027-1268 | composed as BOUND and committed next to one chain, a decision is returned and loads as the current one if and only if nothing goes wrong, its verification is not late, its id and nonce are new, and the request supersedes the end of the chain, committed no later |
| DecisionComposition.ComposedBecomesFirstIff | src/openworkproof/binding_transactions.py:1027-1268 | on an empty store it is returned if and only if nothing goes wrong, its verification is not late and the request supersedes nothing; it then loads as the current one |
| DecisionComposition.CommittedIsCurrentIff | src/openworkproof/binding_transactions.py:1226-1268 | next to one chain what is staged becomes the current decision if and only if it supersedes one |
| DecisionComposition.StrictMeansDistinct | src/openworkproof/models.py:3620-3718 | sorted receipt references are strictly increasing only if no execution is repeated |
| DecisionSamples.CheckpointReplayRaises | src/openworkproof/binding.py:744-764 | inputs with all evidence in order on which a stale-checkpoint replay makes the composer raise |
| DecisionSamples.LateVerificationIsRefused | src/openworkproof/binding_transactions.py:1080-1139 | inputs composed as BOUND, every row in its table, that the commit refuses |
| SchemaFiles.FileSystem.RemoveOnce | src/openworkproof/agency_schema_registry.py:578-585 | one round of removal leaves some of the files or none, passes every size on the way, and fails only by a fault |
| SchemaFiles.FileSystem.RemoveSchemaDirectory | src/openworkproof/agency_schema_registry.py:553-587 | up to three rounds of removal touch one directory only; every state on the way holds part of its old files or no directory, every size is passed through, and a normal return means it is gone; a foreign entry fails it at once and untouched, and otherwise only a fault in each of three rounds does |
| SchemaFiles.FileSystem.UnusedBackupPath | src/openworkproof/agency_schema_registry.py:590-598 | the backup name is free; an error may leave its empty probe behind, and only a fault is one |
| SchemaFiles.FileSystem.ReadbackMatches | src/openworkproof/agency_schema_registry.py:614-631 | a directory reads back exactly when it holds these files and the read does not fail |
| SchemaInstall.MoveAside | src/openworkproof/agency_schema_registry.py:682-697 | a backup rename that raises counts as done only when the old target is gone and its backup is there, and then the old content is under the backup name |
| SchemaInstall.MoveIntoPlace | src/openworkproof/agency_schema_registry.py:698-702 | a stage rename that raises counts as done exactly when it landed and the new files can be read back; with its stage there only a fault makes it fail |
| SchemaInstall.InstallOne | src/openworkproof/agency_schema_registry.py:680-703 | installing one target leaves it new with its old content aside, or undoable, or new but reported as failed when its readback failed; it touches no other target |
| SchemaInstall.InstallAll | src/openworkproof/agency_schema_registry.py:679-703 | after the loop, complete or cut short, every target listed once can be undone, and every state passed through is recoverable; a single target that raised is not installed; with no target listed twice only a fault cuts it short |
| SchemaRollback.UndoOne | src/openworkproof/agency_schema_registry.py:711-718 | undoing one target without an error puts its backup back or takes away what was installed; every state on the way is a rollback point, and of an installed target one of them is lost unless the contents survive being taken apart; any other stays recoverable throughout |
| SchemaRollback.RestoreBackup | src/openworkproof/agency_schema_registry.py:714-716 | a backup is renamed into place unless a fault or a full directory prevents it; the target stays recoverable |
| SchemaRollback.Rollback | src/openworkproof/agency_schema_registry.py:709-720 | a rollback without an error restores every target, except installed ones listed again, which it takes away, and new files nothing knows of where no target was, which stay; every state passed is a rollback point for every target; a completed rollback of contents that do not survive being taken apart has passed a state recovered to neither old nor new; with nothing installed every state is recoverable; only a fault or such unknown files stop it |
| SchemaSwap.RemoveBackups | src/openworkproof/agency_schema_registry.py:730-744 | removing backups touches no target, and every crash point stays recoverable; it fails with a foreign entry in a backup, and otherwise only after three faults |
| SchemaSwap.CommitStagedDirectories | src/openworkproof/agency_schema_registry.py:672-744 | for any list of targets a normal return or a committed clean-up error means every target holds exactly the new files and, listed once, no backup is left; with no target listed twice any error but a failed rollback means every target holds exactly its old content, or the new files if it did not exist and its install landed, raised and could not be read back; crash points are recoverable until a rollback of installed targets starts and rollback points from then on; a single target put back has passed a lost state if and only if its final readback failed and its contents do not survive being taken apart; with no target listed twice every error has its cause: a fault or a failed read for a failed swap, a fault for a stuck rollback, three faults or a foreign entry in an old target for backups left, and a normal return means there was no such entry |
| SchemaStates.BackupRenameKeepsRecoverable | src/openworkproof/agency_schema_registry.py:682-697 | moving a target aside leaves it recoverable |
| SchemaSwap.InstalledStaysRecoverable | src/openworkproof/agency_schema_registry.py:730-737 | a backup removed in part leaves an installed target recoverable |
| SchemaRecovery.RecoverTarget | src/openworkproof/agency_schema_registry.py:634-669 | a completed recovery leaves no stage or backup and the content to be recovered; wherever it stops, that content is still what will be recovered; an ambiguous target is left alone; it completes only when there is no doubt and nothing foreign in the way, and then only a fault stops it |
| SchemaRecovery.PutOnlyBackupBack | src/openworkproof/agency_schema_registry.py:637-648 | a missing target gets its only backup back; several are refused untouched |
| SchemaRecovery.RecoverAfterCrashes | src/openworkproof/agency_schema_registry.py:634-669 | any number of crashes inside recovery does not change what the completed one gives, nor, without a fault, that it completes |
| SchemaStates.RecoverableMeansOldOrNew | src/openworkproof/agency_schema_registry.py:634-648 | a recoverable disk is recovered to the old content or to the new files |
| SchemaStates.TakenApartIff | src/openworkproof/agency_schema_registry.py:711-718 | taking an installed target apart, every state on the way is recovered to old or new if and only if there are no new files, or one over an empty old directory |
| SchemaStates.SafePointRecovers | src/openworkproof/agency_schema_registry.py:711-718 | with such contents every rollback point is recovered to old or new |
| SchemaStates.UnsafePassesLoss | src/openworkproof/agency_schema_registry.py:553-587 | with any other contents a removal that completes has passed a state recovered to neither |
| SchemaRecovery.CleanUpBoth | src/openworkproof/agency_schema_registry.py:650-662 | the two clean-up loops touch backups and stages only, and without an error leave none; they fail with a foreign entry, and otherwise only after three faults |
| SchemaTransaction.RecoverAll | src/openworkproof/agency_schema_registry.py:765-766 | recovering targets one after another settles each and keeps every crash point safe for all; with no target listed twice it fails if some target cannot be recovered, and otherwise only by a fault |
| SchemaTransaction.StageDirectory | src/openworkproof/agency_schema_registry.py:527-550 | staging touches only its own new directory, and success means it holds exactly the files; only a fault or a failed read makes it fail |
| SchemaTransaction.StageAll | src/openworkproof/agency_schema_registry.py:768-771 | staging keeps every target, and every crash point safe; only a fault or a failed read makes it fail |
| SchemaTransaction.StageAndSwap | src/openworkproof/agency_schema_registry.py:768-775 | staging and swap together, whether or not the swap is reached, with the stages there are to clear |
| SchemaTransaction.StageSwapAndClear | src/openworkproof/agency_schema_registry.py:767-790 | what follows recovery: undisturbed, and with no target listed twice, the files are written unless an old target holds something foreign, and then only its backup is left |
| SchemaTransaction.SwapStaged | src/openworkproof/agency_schema_registry.py:772-775 | the swap, seen from the transaction: what it leaves is new or recovered, up to one failed readback, with nothing left behind on success; each outcome has its cause |
| SchemaTransaction.ClearStages | src/openworkproof/agency_schema_registry.py:776-790 | clearing stages touches no target, and cannot fail when they were all renamed away; only a foreign entry or three faults make it fail |
| SchemaTransaction.WriteAgencyTransaction | src/openworkproof/agency_schema_registry.py:747-796 | a swap that took place is never reported as anything but written or backups left; a normal return leaves no stage and no backup; a swap that did not take place leaves every target as recovered unless rollback failed, or new if it did not exist and its install could not be read back; until a rollback of installed targets starts every crash point of recovery, staging, swap and clean-up is safe, and with a single target whose final readback does not fail all of them are; with no target listed twice and no fault or failed read the files are written if and only if every target is tidy (no doubt what to recover, nothing but generated files in its directories), recovery is what fails if and only if a target cannot be recovered, and disturbed or not each error has its cause |
| SchemaTransaction.AllTidyIff | src/openworkproof/agency_schema_registry.py:634-669 | all targets are tidy if and only if all can be recovered and none is recovered to foreign contents |
| SchemaTransaction.RecoverFromCrash | src/openworkproof/agency_schema_registry.py:634-669 | from any crash point of the forward path, and through any further crashes inside recovery, a completed recovery leaves no stage or backup and the target exactly old or exactly new; without a fault and with nothing foreign left over it completes |
| Receipts.SameIncreasing | src/openworkproof/acceptance.py:2907-2942 | as many ordered positions, all among the others, are the same positions: why counting suffices |
| CompositionBundle.VerifiesIffInOrder | src/openworkproof/acceptance.py:2902-2950 | a composition bundle is accepted if and only if the i-th report's initiator is directly followed by the i-th proof_composed event, with the report covering exactly that prefix, and there are no other such events |
| CompositionBundle.BoundIdsAgree | src/openworkproof/acceptance.py:2936-2942 | the comparison of trigger ids never refuses what the other checks accept |
| CompositionBundle.PrefixesGrow | src/openworkproof/acceptance.py:2803-2844 | each report's receipt list is a strict prefix of every later one's |
| CompositionBundle.OneBundlePerHistory | src/openworkproof/acceptance.py:2902-2950 | one history admits one list of reports: none skipped, repeated, swapped or replaced |
| AcceptanceBindings.VersionCountsTransactions | src/openworkproof/evidence.py:5769-5871 | the derived protocol version counts receipts, a composition's two as one |
| AcceptanceBindings.DeriveContinues | src/openworkproof/evidence.py:5769-5871 | a history that has a version is read to its end whatever follows it |
| AcceptanceStore.LedgerFile.InsertComposeRows | src/openworkproof/acceptance.py:828-941 | both receipts, the report, the state and the sequence advance together, or nothing changes |
| AcceptanceStore.LedgerFile.ComposeProof | src/openworkproof/acceptance.py:944-1095 | the composition transaction is the specified step on the tables |
| AcceptanceStore.LedgerFile.RequestAcceptance | src/openworkproof/acceptance.py:1607-1717 | the request transaction is the specified step on the tables |
| AcceptanceStore.LedgerFile.CommitDecision | src/openworkproof/acceptance.py:2016-2160 | the acceptance transaction, and the rejection transaction, are the specified step on the tables |
| AcceptanceStore.LedgerFile.ProduceDenyReceipt | src/openworkproof/mcp_server.py:3898-4100 | the denial entry is the specified step on the tables: one receipt row, and no counter moves |
| AcceptanceStore.LedgerFile.CurrentRequest | src/openworkproof/acceptance.py:1850-1871 | the current request is the last allowed final-acceptance request |
| AcceptanceHistory.StepKeepsHealthy | src/openworkproof/acceptance.py:828-941 | no step by any client but a denial, stale or not, breaks sequence, links, states, counters, report order or the bound between request and report |
| AcceptanceHistory.StepKeepsDirect | src/openworkproof/state.py:615-766 | in proof_ready the last receipt is a proof_composed event, and in awaiting_human the request directly follows one: every step keeps this |
| AcceptanceHistory.StepKeepsReached | src/openworkproof/mcp_server.py:3898-4100 | every step keeps a ledger healthy and direct, up to one last denial after which nothing is ever added |
| AcceptanceHistory.RunKeepsReached | src/openworkproof/acceptance.py:828-941 | so over whole runs; and the ledger ends in a denial exactly if one was taken |
| AcceptanceTheorems.RunsKeepTheLedger | src/openworkproof/evidence.py:6143-6349 | in every run receipts, up to a denial if one was recorded, are a gap-free sequence with linked digests and states, the counters equal what the tables hold, and acceptance and rejection rows never coexist |
| AcceptanceTheorems.ComposeInsertsUnlessIdTaken | src/openworkproof/acceptance.py:899-941 | with a current context the compare-and-set counters never fail: only a taken receipt id can |
| AcceptanceSteps.DecisionTakenIff | src/openworkproof/acceptance.py:2016-2160 | from a reached ledger a decision is committed if and only if the context is this ledger awaiting a human, the decision is the Acceptor's signed answer to the current report and request, it was made between the request and now and not past the deadline, the request is still open, and the signature is at most 300 seconds old |
| AcceptanceSteps.DecisionWrites | src/openworkproof/acceptance.py:2119-2160 | it is then the one decision there is, and nothing else changes |
| AcceptanceSteps.OpenRequestCanBeDecided | src/openworkproof/acceptance.py:2016-2160 | in every reached ledger that awaits a human and can be read, the Acceptor can decide either way while the request is open |
| AcceptanceSteps.RequestTakenIff | src/openworkproof/acceptance.py:1607-1717 | a request is committed if and only if the context is this ledger in proof_ready, it names the current report, is open for at most an hour and not past the deadline, and its id is unused; it is then the last receipt |
| AcceptanceSteps.CompositionTakenIff | src/openworkproof/acceptance.py:944-1095 | a composition is committed if and only if the context is this ledger, in locally_verified naming no report or in evidence_incomplete naming the last one and ready, with the ledger's version and two unused ids |
| AcceptanceSteps.CompositionWrites | src/openworkproof/acceptance.py:828-941 | the two receipts, the report over everything up to the call, and the counters it writes |
| AcceptanceSteps.EventTakenIff | src/openworkproof/state.py:615-766 | any other event is recorded if and only if it is the next linked receipt, its move is allowed and its id unused |
| AcceptanceSteps.EventWrites | src/openworkproof/evidence.py:2792-2895 | it is then the last receipt, and state, version and sequence advance with it |
| AcceptanceSteps.PreviousReportIs | src/openworkproof/acceptance.py:977-1022 | the report a composition has to name is none from locally_verified and the last one from evidence_incomplete |
| AcceptanceCompositions.ComposedAtMostTwice | src/openworkproof/acceptance.py:977-1022 | in every run a work order is composed at most twice: again only after an incomplete report, naming it, and only to a ready one |
| AcceptanceCompositions.StepKeepsCompositions | src/openworkproof/acceptance.py:977-1022 | every step keeps the count of compositions and the report each names as its predecessor |
| AcceptanceTheorems.DecisionIsFinal | src/openworkproof/runtime_context.py:112-175 | once decided, no step by any client changes the ledger |
| AcceptanceTheorems.ReachableBundleVerifies | src/openworkproof/acceptance.py:2847-2956 | every reachable history with a report, up to a denial, passes the offline composition check, with the current report |
| AcceptanceTheorems.CommitPassesOffline | src/openworkproof/acceptance.py:2260-2398 | whatever any run commits as acceptance or rejection, the offline check accepts |
| AcceptanceTheorems.ReplaysIff | src/openworkproof/evidence.py:6267-6349 | a healthy ledger can be read if and only if it holds no decision or its request directly follows a proof_composed event |
| AcceptanceTheorems.ReadableIffNoDenial | src/openworkproof/evidence.py:6143-6349 | a ledger any run reaches can be read again if and only if no denial was recorded on the way |
| AcceptanceTheorems.DenialSticks | src/openworkproof/mcp_server.py:3990-4060 | from any readable undecided ledger a denial under an unused id is recorded, and after it the ledger is never read and no step changes it |
| AcceptanceTheorems.StuckIsReached | src/openworkproof/mcp_server.py:3898-4100 | two steps from an empty ledger, an event and a denial, reach a ledger no reader accepts and no step changes |
| Workflow.Core.Receive | src/openworkproof/agentteams_workflow.py:531-546 | what the core has recorded, and what it acknowledges, for each fate of a commit |
| Workflow.AgentTeamsWorkflow.CommitCore | src/openworkproof/agentteams_workflow.py:531-546 | a lost acknowledgement of exactly the proposed state counts as committed, of another as a conflict, any other error as a failure |
| Workflow.AgentTeamsWorkflow.Accept | src/openworkproof/agentteams_workflow.py:393-435 | one delivery is the specified step on snapshot, events and core log, refusal for refusal |
| WorkflowRuns.RunFollowsTranscript | src/openworkproof/agentteams_workflow.py:393-529 | every run ends where the transcript of its accepted messages says: dispatch, then development and verification up to twice; so at most five distinct events are accepted |
| WorkflowRuns.TranscriptIsAccepted | src/openworkproof/agentteams_workflow.py:481-529 | conversely every such transcript is accepted in full |
| WorkflowRuns.TakenIff | src/openworkproof/agentteams_workflow.py:393-546 | at any point of a run a message is accepted if and only if it continues the transcript and its commit is confirmed; the answer gives the new state, attempt, key and whether it was announced |
| WorkflowRuns.RefusalIsTrue | src/openworkproof/agentteams_workflow.py:393-546 | at any point of a run every refusal is for a reason that holds of the message and of what was accepted before |
| WorkflowRuns.ReadyMeansVerified | src/openworkproof/agentteams_workflow.py:503-529 | ready for acceptance means a VERIFIED verdict on exactly the latest Developer artifact of the same attempt |
| WorkflowRuns.HonestLogIsAcceptedStates | src/openworkproof/agentteams_workflow.py:393-435 | an honest core's log is the sequence of accepted states despite lost acknowledgements and failed announcements |
| WorkflowRuns.LogHoldsAcceptedStates | src/openworkproof/agentteams_workflow.py:531-546 | when commits may also land and raise an unrelated error, the log is the accepted states in order with such states between them, each of which left the workflow where it was |
| WorkflowRuns.RedeliveriesChangeNothing | src/openworkproof/agentteams_workflow.py:402-406 | removing deliveries of messages already accepted changes no state, no log and no other outcome |
| WorkflowRuns.EveryAnswerIsTheFirst | src/openworkproof/agentteams_workflow.py:402-406 | every later delivery of an accepted message, at any point of any run, gets the outcome it was accepted with |
| PatchScanner.PatchDecision | src/openworkproof/agent_guard.py:182-222 | the outer loop ends and decides what the specification decides, for allow, outside and patch |
| PatchScanner.ScanSection | src/openworkproof/agent_guard.py:189-220 | one round reads one section or gives its refusal |
| PatchScanner.ScanBody | src/openworkproof/agent_guard.py:204-220 | the inner loop ends at the next header or the end, or refuses, as specified |
| PatchGrammar.AllowedIffPrinted | src/openworkproof/agent_guard.py:182-222 | a text within the limit is allowed if and only if it is the printed form of 1 to 64 sections with distinct safe targets: added lines only, or hunks first and the end-of-file marker last |
| PatchGrammar.ValidIsAllowed | src/openworkproof/agent_guard.py:182-222 | printing any such sections and scanning them is always allowed |
| PatchGrammar.OutsideIffEscapes | src/openworkproof/agent_guard.py:182-222 | a text within the limit is refused as outside if and only if valid sections are followed by a header whose target is not safe |
| PatchGrammar.OneReading | src/openworkproof/agent_guard.py:189-220 | a text reads as at most one list of sections |
| LineFraming.LineReader.ReadLine | src/openworkproof/codex_host.py:144-172 | for any chunking a call returns what the pending bytes alone determine, or a time-out or read error that loses nothing; a time-out comes only with the deadline passed, a read error only with a failed call on the pipe, and either only when the buffer holds no newline and is within the limit; what the buffer settles needs neither; with the deadline passed from the start nothing else is returned; the buffer never exceeds the limit by more than one byte |
| LineFraming.LineReader.ReadLines | src/openworkproof/codex_host.py:289-291 | successive calls return exactly the newline-separated lines in order; lines, buffer and unread bytes are always the stream; lines already in the buffer come out whatever the clock says, and with the deadline ahead and no error on the pipe every call returns the next line until there is none |
| LineFraming.LinesIff | src/openworkproof/codex_host.py:144-172 | lines and rest are the reading of a stream if and only if they print it, every line is within the limit, and the rest is over it or has no newline |
| LineFraming.LinesOfUnlines | src/openworkproof/codex_host.py:144-172 | lines within the limit come out as they went in, whatever follows |
| LineFraming.EveryStreamSplits | src/openworkproof/codex_host.py:144-172 | every stream is its lines and a rest that gives no further line |
| PathRoots.CoveredIffComponents | src/openworkproof/binding.py:247-248 | a root is covered if and only if the allowed one is its leading path components |
| PathRoots.CoveredIffNoWider | src/openworkproof/binding.py:251-257 | the coverage check passes if and only if the roots permit no path the allowed ones do not |

## Left out

- Key decoding, Ed25519, SHA-256 and the JSON canonicalization scheme (section 3.2 of RFC 8785): digests and signatures are symbolic terms, identifiers are numbers.
- SQLite, file locks, fsync, symbolic links and inode checks: only the transactional or rename effect and its possible outcomes are modelled; two writers never interleave inside one transaction because the program holds a lock.
- AgencyLedger.LedgerFile.CommitProfile: commits or refuses; the outcomes of a lost COMMIT acknowledgement, a failed readback and a failed clean-up are not modelled here, because the program sets its committed flag only after COMMIT returns. They are proved for the binding store.
- AgencyLedger.LedgerFile.CommitTransition: the same.
- AgencyLedger.LedgerFile.CommitAppeal: the same.
- AcceptanceStore.LedgerFile.ComposeProof: commits or refuses; authorization, the derivation of findings, and the readback and clean-up outcomes are not modelled.
- AcceptanceStore.LedgerFile.RequestAcceptance: the same, with the v0.2 verification gate.
- AcceptanceStore.LedgerFile.CommitDecision: the same, with the v0.2 verification gate.
- AcceptanceStore.LedgerFile.InsertComposeRows: receipt parents are part of the receipt and grant events are not modelled.
- `commit_acceptance_transition`: its outcomes repeat the binding wrapper's, with the committed flag set late.
- AgencyHistory.ResolvesIffPath: identifier recomputation and field validators of profiles and transitions are taken as properties of well-formed objects.
- BindingCommit.OutcomeIsTruth: COMMIT is taken to land or not and to raise or not, but a return without landing is excluded, and readbacks that succeed tell the truth; the row is read back by the stage's own readback.
- BindingCommit.CommitJudgment: the authority's key binding is one flag for decodable, and a signature is the key and the digest it covers.
- ManifestHistory.ValidIffChain: of the manifest validator only identity, window, judgment, scope and commit-time bindings are modelled; the constraint intersection is an abstract predicate, and rows are read in commit order.
- BindingDecisions.CommitBindingDecision: the lookups of judgments, manifests, verifications and receipts are tables; the rows they hold are valid.
- DecisionComposition.ComposesIff: replay is an input; the evidence it rests on is not modelled.
- AgencyBundle.BundleRoundTrip: path text, the sorting of manifest entries and file modes are not modelled; sizes and limits are.
- SchemaSwap.CommitStagedDirectories: that a failed call leaves old content is stated for calls that list no target twice; what a repeated one comes to is stated by the rollback; readbacks may fail but do not misreport, and whether a name exists is told truthfully; directory contents are maps from names to content; directories hold regular files only.
- SchemaRollback.Rollback: after a failed removal or rename in the rollback itself nothing is promised about that target, as in the program.
- SchemaTransaction.RecoverFromCrash: crashes inside a rollback of installed targets are outside the claim; SchemaStates.TakenApartIff says when they are harmless.
- SchemaTransaction.WriteAgencyTransaction: preflight, creation of missing parents and the second preflight under the lock are left out; that a normal return leaves nothing behind is stated for calls that list no target twice.
- AcceptanceRun: authorization of the agent request (signature, grant, capability, quota, nonce), grants, publications, postconditions and the v0.2 verification gate are left out; the report's derived findings are an input, as is whether it is complete. Security violation triggers, which no transaction produces, are not modelled.
- AcceptanceHistory.StepKeepsHealthy: every other signed event is one ordinary receipt that follows the allowed transitions, never into evidence_incomplete, proof_ready, awaiting_human or accepted, or keeps the state where the state machine allows it; which tool it comes from and which receipts it has for parents are not modelled.
- AcceptanceStore.LedgerFile.ProduceDenyReceipt: the policy decision that denies the call and its causal parents are inputs.
- CompositionBundle.VerifiesIffInOrder: the grant chain, committed evidence and causality replays that run before the report checks are left out.
- AcceptanceBindings.VersionCountsTransactions: the caps on the number of rows are not modelled.
- Workflow.AgentTeamsWorkflow.Accept: JSON parsing of Matrix events and the environment projection are left out.
- PatchScanner.PatchDecision: splitting the text into lines and its encoding are left out; paths, targets and white space are functions of the host.
- LineFraming.LineReader.ReadLine: time is counted in whole ticks, and the selector reports that nothing is ready only when its time is over; the process itself is not modelled.
- PathRoots.CoveredIffNoWider: the rest of the manifest's constraint checks are set inclusions and would only add easy members.
- The companion schema registry, a near copy of the agency swap; `src/aisoc`, whose ledger and enforcement modules are not in the repository; `acceptance_bundle.py`, `dsh_case.py`, command lines, network clients, demos, schema hardening and rendering.

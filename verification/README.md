# OpenMAO kernel model

A Dafny model of OpenMAO, a governance kernel over a transactional store, with proofs of
what its protocols keep. A transaction body is one atomic step that commits or rolls back, a
table is a finite map or sequence, and code that updates its fields in place is a class whose
methods are proved against a specification. Whole-run results quantify over every sequence of
operations, and for the capability gateway over every interleaving of processes.

| part | modules |
|---|---|
| Capability gateway: decision, tables, code, concurrent protocol | GatewayDecision, GatewayTables, GatewayRegistry, GatewayProtocol, GatewayGuarantees, GatewayLimits, GatewayRetries, GatewayProgress, GatewayRaces, GatewayReasons, GatewayOutcomes, GatewayAnswers |
| Canonical JSON, with a reader that inverts the printer | JsonNumber, JsonText, JsonForm, CanonicalJson |
| Hash-chained log, head attestation, evidence bundle | EventHash, EventChain, EventAppend, ChainAttestation, ChainReattest, ChainEvidence, ChainVerdicts |
| Causal graph and counterfactual diagnosis | CausalGraph, Diagnosis, DiagnosisLog, DiagnosisReport |
| Narrowing of grants | Narrowing, NarrowingRuns, NarrowingTerms, NarrowingRescan |
| Reversible org changes | OrgChangeApply, OrgChangeOutcomes, OrgChangeRuns |
| Runs, approvals, the active-run lock | RunStates, RunStore, RunHistory, RunOutcomes |
| Cadences and heartbeat | Heartbeat, HeartbeatOutcomes, HeartbeatRuns |
| Ed25519 public-key check | PrimeField, QuadraticResidues, Ed25519Point, Ed25519Encoding, Ed25519Constant, Ed25519SmallOrder, Ed25519BlockList |

A method is proved against a specification function. What that function comes to is stated a
second time, from the tables and the inputs alone and field by field, in the modules whose names
end in Reasons, Outcomes, Answers, Append, Reattest, Verdicts, Form, Report and Terms.

Hypotheses, each an explicit parameter or precondition:

- The digest of the log has no collisions and never yields the genesis hash or an empty text.
  `EventHash.HashTellsEventsApart` derives the first from a collision-free SHA-256 over
  canonical text.
- A signature is an oracle: a check of an attestation's authenticity, and for a decision
  whether it could be signed.
- `localeCompare` is a strict total order on the keys in play. `CanonicalJson.BlindIffSeparated`
  gives the exact condition under which key order is forgotten.
- The prime of the Ed25519 field is symbolic: a prime that is 5 modulo 8 and above 121666.
  2^255 - 19 meets this if it is prime, which is not proved.
- The texts by which a scan orders its targets compare as a strict total order.
- Ids minted at random are new. An idempotency key ending in `:policy_decision` is used for
  that call's decision only.

Where a property fails, a concrete input or run shows it and its exact condition is proved:

| fails | shown by | holds exactly when |
|---|---|---|
| A blocked result means the provider never ran | GatewayRaces.BlockedWhileRunning, GatewayRaces.BlockedBeforeEntry | GatewayLimits.BlockedRanIff: in one process, when the effect was not on record before the replay; GatewayLimits.EntersAfterResultIff: over every interleaving, when it was not entered and no thread is past the check |
| A failure to start is never recorded over a started provider | GatewayRaces.FailedWhileRunning, GatewayRaces.FailedBySibling | GatewayRetries.RetryFailsIff: for a retry, when its registry offers the provider and its process is the provider's; GatewayRetries.FailureMeansNeverEntered: over whole runs of one process, when its registries agree on the provider |
| An effect on record means the provider was entered | GatewayRaces.CrashLeavesEffect | GatewayLimits.EffectIffStarted: without crashes, once no thread is about to enter |
| Canonical text forgets key order | CanonicalJson.TiedKeysDumpTwice | CanonicalJson.BlindIffSeparated |
| Only new evidence suspends again after a lift | NarrowingRescan.LiftedGrantIsSuspendedAgain | NarrowingRuns.ScanSuspendsIff |
| NarrowingTerms.ScanSuspendsOnUsable | ts/src/governance/narrowing.ts:121-209 | After a scan a grant is suspended exactly when it was before or the usable rejections or violations of the window number the ratified threshold |
| Every rejection moves the run it holds | RunHistory.IdleRejection | RunHistory.RejectKeepsIff |
| Setting a status keeps run and approval in agreement | RunHistory.StrandedApproval | RunHistory.SetStatusKeepsIff |
| What the key check accepts decodes to a point | Ed25519Encoding.AcceptedButNotDecodable | Ed25519Encoding.DecodableIff, Ed25519Encoding.AcceptedDecodesIff |

With several processes one half of the effect's meaning remains: what was entered has its
effect on record (`GatewayLimits.EnteredHasEffect`), so without one it has not run so far.

Where code and comments differ, the code is followed:

- ts/src/persistence/principals.ts:109-113 says that values without a curve point are refused.
  The check looks at y only, so with y^2 = 1 it also accepts a set sign bit, which section
  5.1.3 of RFC 8032 does not decode.
- ts/src/persistence/principals.ts:89-96 speaks of four y that solve d*y^4 + 2*y^2 - 1 = 0.
  There are two, each listed with either sign.
- ts/src/governance/narrowing.ts:115-120 says that only new evidence re-suspends after a lift.
  Evidence of the other trigger that no lifted suspension carries re-suspends as well.

## Model

| member | source | states |
|---|---|---|
| GatewayDecision.TaskBoundaryBlock | ts/src/capabilities/registry.ts:451-469 | No block exactly when the task envelope exists and matches workspace, run, assignee and capability |
| GatewayDecision.FirstFieldBlock | ts/src/capabilities/registry.ts:476-497 | No block exactly when every declared resource field of the call is a string among those granted for it |
| GatewayDecision.ResourceScopeBlock | ts/src/capabilities/registry.ts:476-497 | The loop returns the block of the first field, in declaration order, that is not granted |
| GatewayDecision.GatewayBlock | ts/src/capabilities/registry.ts:370-405 | No block exactly when the provider is declared and available, the credential is the capability's own wherever one is required or given, and side effects are declared by capability and call |
| GatewayDecision.DecisionIsExact | ts/src/capabilities/registry.ts:350-469 | The ordered checks admit a call exactly when the envelope covers it, the gateway admits it, the actor holds an enabled grant and no suspension is active; and what needs approval is exactly what the autonomy dial gates |
| GatewayReasons.BlockGivesFirstReason | ts/src/capabilities/registry.ts:350-497 | A call is blocked exactly when one of nineteen reasons applies to it, and the block carries the first that does |
| GatewayReasons.DialGates | ts/src/governance/service.ts:32-61 | What is not blocked needs a human exactly when permission or high risk says so, below bounded autonomy when it has side effects, and under advisory unless its risk is low |
| GatewayTables.FindForTarget | ts/src/persistence/approvals.ts:60-88 | Finds an approval of the call, in any status, exactly when there is one |
| GatewayTables.RecordCallKeeps | ts/src/persistence/capabilities.ts:114-145 | Inserting a call once by idempotency key keeps calls indexed, decisions backed and approvals matched |
| GatewayTables.RecordCallRecords | ts/src/persistence/capabilities.ts:114-145 | A recorded call is stored as given, a replay returns the same row, and no other table changes |
| GatewayTables.RecordResultKeeps | ts/src/persistence/capabilities.ts:184-215 | Inserting the one result of a decided call keeps every table consistent and changes nothing recorded before |
| GatewayTables.RecordDecisionKeeps | ts/src/capabilities/registry.ts:262-273 | Any fresh decision but a block is backed by an envelope covering the call and by a grant that is not suspended |
| GatewayTables.RequestApprovalKeeps | ts/src/capabilities/registry.ts:236-260 | A decision requiring approval is recorded together with the one approval of its call |
| GatewayTables.LicenceLasts | ts/src/capabilities/registry.ts:158-278 | What licenses an execution is never withdrawn: decisions, resolved approvals, capabilities and envelopes are final |
| GatewayTables.ResumeIsSound | ts/src/capabilities/registry.ts:332-348 | A recorded decision executes only on a grant that is not suspended now, and is otherwise answered by a blocked result |
| GatewayTables.ContinueApprovalIsSound | ts/src/capabilities/registry.ts:158-204 | Whatever the approval says, what executes is licensed and on a clear grant, and every answer leaves the tables consistent |
| GatewayTables.DecideFreshIsSound | ts/src/capabilities/registry.ts:236-278 | A first decision executes, blocks or asks for approval consistently, or rolls back |
| GatewayTables.ContinueIsSound | ts/src/capabilities/registry.ts:146-278 | A recorded decision without an approval is an allow, so it may execute without one |
| GatewayTables.InvokeIsSound | ts/src/capabilities/registry.ts:122-278 | Every opening transaction keeps the tables consistent and all that was recorded, sends to execution only what is licensed, clear and without a result, and never finds a decision missing |
| GatewayOutcomes.FinishedAnswers | ts/src/capabilities/registry.ts:146-156 | A finished call answers with its recorded decision and result, and nothing changes |
| GatewayOutcomes.ApprovalDecides | ts/src/capabilities/registry.ts:158-204 | An unfinished call goes by its approval: approved on a clear grant executes on unchanged tables, on a suspended one or rejected it stores the blocked result, pending waits and changes nothing |
| GatewayOutcomes.DecisionDecides | ts/src/capabilities/registry.ts:206-234 | Without an approval a recorded allow executes on a clear grant; a recorded block, or a grant suspended since, stores its blocked result |
| GatewayOutcomes.FreshDecides | ts/src/capabilities/registry.ts:236-278 | A fresh allow executes; a block is stored with its reason; a gated call opens its approval and suspends its running run, or throws when the approval's name is taken or no run is running |
| GatewayOutcomes.NewCallIsRecordedFirst | ts/src/capabilities/registry.ts:122-135 | A call not on record is refused, each refusal exactly for its reason in order, or put on record and then goes on as a recorded one |
| GatewayOutcomes.ExecutesIff | ts/src/capabilities/registry.ts:122-278 | A recorded call is sent to its provider exactly when it has no result, its grant is clear, and it was approved, was allowed before, or is allowed now |
| GatewayRegistry.CapabilityRegistry.RecordCall | ts/src/persistence/capabilities.ts:114-145 | Insert once: the same call again is a no-op, another call under the key or id is refused |
| GatewayRegistry.CapabilityRegistry.RecordResult | ts/src/persistence/capabilities.ts:184-215 | Insert once by call; a second result is refused and changes nothing |
| GatewayRegistry.CapabilityRegistry.FindForTarget | ts/src/persistence/approvals.ts:60-88 | The scan finds the call's only approval |
| GatewayRegistry.CapabilityRegistry.RequestApproval | ts/src/governance/approvals.ts:62-135 | Opens the approval and suspends the running run, or refuses and changes nothing |
| GatewayRegistry.CapabilityRegistry.DecideCall | ts/src/capabilities/registry.ts:350-368 | The checks in the order the gateway makes them |
| GatewayRegistry.CapabilityRegistry.Decide | ts/src/capabilities/registry.ts:236-278 | Records the decision and its consequence, or rolls both back |
| GatewayRegistry.CapabilityRegistry.Continue | ts/src/capabilities/registry.ts:146-278 | Result, approval, recorded decision and fresh decision, in that order |
| GatewayRegistry.CapabilityRegistry.Invoke | ts/src/capabilities/registry.ts:121-282 | The whole transaction with rollback on every throw; what it sends to execution is licensed, on a clear grant and without a result |
| GatewayRegistry.CapabilityRegistry.EnsureProviderEffect | ts/src/persistence/effects.ts:12-52 | Exactly the first starter of a call inserts its effect, as the protocol's step does |
| GatewayRegistry.CapabilityRegistry.RecordFailed | ts/src/capabilities/registry.ts:685-706 | Returns the stored result it reads; otherwise writes the failure to whatever the database has become by then, or throws when a result came in between |
| GatewayProtocol.StepKeeps | ts/src/capabilities/registry.ts:537-650 | Every step of every process, crash, resolution or outside change keeps the protocol's invariant |
| GatewayProtocol.RunKeeps | ts/src/capabilities/registry.ts:537-650 | So does every interleaving |
| GatewayProtocol.EnterKeeps | ts/src/capabilities/registry.ts:575-592 | Entering the provider uses up the effect: no other thread started the call and none entered it before |
| GatewayAnswers.EffectIsEnsured | ts/src/capabilities/registry.ts:554-573 | The first to insert the effect starts; who finds it joins its process's flight, and without one is to record that the call was started already |
| GatewayAnswers.OutcomeIsStored | ts/src/capabilities/registry.ts:584-624 | The provider's status and output are stored for the call as given, and no other table changes; over another result the record is refused |
| GatewayAnswers.FailureIsWritten | ts/src/capabilities/registry.ts:685-706 | A failure to start is stored as failed with its own reason, unless a result came in between, and then it throws |
| GatewayAnswers.InvocationRunsThrough | ts/src/capabilities/registry.ts:121-282 | Whenever the opening says execute, the run is running, the provider offered and nobody started the call, it is entered once, what it answers becomes the call's result, and the invocation resolves to it |
| GatewayAnswers.AnswersComeFromProviders | ts/src/capabilities/registry.ts:584-624 | Over every interleaving a result said to be the provider's, and every ok, equals the outcome that the one thread which entered the provider gave at the step that stored it |
| GatewayGuarantees.EnteredAtMostOnce | ts/src/capabilities/registry.ts:537-650 | In every interleaving the provider is entered at most once per call and per idempotency key |
| GatewayGuarantees.EntryIsLicensed | ts/src/capabilities/registry.ts:158-278 | Whenever it is entered, an allow decision or an approved approval is on record, the envelope covers the call, and no suspension was active when the opening transaction said so |
| GatewayGuarantees.RefusedIsNeverEntered | ts/src/capabilities/registry.ts:185-217 | A call with a recorded block or a rejected approval is never executed in any run |
| GatewayGuarantees.SucceededWasEntered | ts/src/capabilities/registry.ts:584-624 | An ok result has exactly one entry into the provider behind it |
| GatewayGuarantees.EndingsAgree | ts/src/capabilities/registry.ts:541-582 | Every invocation that resolves, as executor, joiner or retry, resolves to the one stored result |
| GatewayGuarantees.RecordsAreFinal | ts/src/persistence/capabilities.ts:184-215 | Calls, decisions, results, effects and resolved approvals never change over a run |
| GatewayProtocol.JoinReturnKeeps | ts/src/capabilities/registry.ts:560-567 | A joiner ends as its executor did, on the result stored for the call they share |
| GatewayGuarantees.RetryJoins | ts/src/capabilities/registry.ts:556-567 | In one process without crashes, a retry that finds the effect finds it in flight and joins it |
| GatewayGuarantees.OneProcessNeverFailsARetry | ts/src/capabilities/registry.ts:48-69 | In one process without crashes an effect without a result is always in flight, so "already started" is never recorded |
| GatewayLimits.EntersAfterResultIff | ts/src/capabilities/registry.ts:541-582 | Over every interleaving, a call with a result was or may still be entered exactly when it was entered or a thread that found no result can still start it |
| GatewayLimits.EnteredHasEffect | ts/src/capabilities/registry.ts:626-650 | Over every interleaving, crashes included, what was entered or is about to be has its effect on record |
| GatewayLimits.EffectIffStarted | ts/src/capabilities/registry.ts:554-576 | Without crashes, the effect is on record exactly when the provider was entered or its thread is about to enter it |
| GatewayLimits.EffectIffEntered | ts/src/capabilities/registry.ts:554-576 | Between invocations of one process the effect of a recorded call is on record exactly when the provider was entered |
| GatewayLimits.ResultRanIff | ts/src/capabilities/registry.ts:541-576 | In one process a call with a result was entered exactly when its effect is on record, and nothing later changes that |
| GatewayLimits.BlockedRanIff | ts/src/capabilities/registry.ts:320-348 | When a replay in one process records "blocked", the provider ran exactly when the effect was on record before the replay, and otherwise it never will |
| GatewayLimits.SuspensionBlocksOverRunningProvider | ts/src/capabilities/registry.ts:332-348 | A replay on a suspended grant stores "blocked" over a running provider, whose own outcome is then refused |
| GatewayRetries.RetryFailsIff | ts/src/capabilities/registry.ts:541-573 | Over a started provider, a retry about to look for it can store a failure exactly when its registry does not offer the provider or its process is another; otherwise it never fails, whatever goes on around it |
| GatewayRetries.UnavailableWasNotEntered | ts/src/capabilities/registry.ts:545-552 | Over every interleaving, "not available" under registries that agree on the provider means that it was not entered |
| GatewayRetries.FailureMeansNeverEntered | ts/src/capabilities/registry.ts:541-573 | In one process whose registries agree on the provider, a recorded failure to start means that it never ran, and it never will |
| GatewayProgress.EveryInvocationCanEnd | ts/src/capabilities/registry.ts:537-650 | From every reachable state each invocation can be driven to its end by steps of its own process: no joiner and no executor is ever stuck |
| GatewayRaces.BlockedWhileRunning | ts/src/capabilities/registry.ts:332-348 | A run from the start of one process ending in a blocked result and a running provider |
| GatewayRaces.BlockedBeforeEntry | ts/src/capabilities/registry.ts:541-555 | A run from the start of two processes in which "blocked" is stored first and the provider can still be entered after it |
| GatewayRaces.FailedWhileRunning | ts/src/capabilities/registry.ts:554-573 | Runs from the start of two processes ending in "already started" over a running provider and over one about to be entered |
| GatewayRaces.FailedBySibling | ts/src/capabilities/registry.ts:545-552 | A run from the start of one process with two registries ending in "not available" over a running provider |
| GatewayRaces.CrashLeavesEffect | ts/src/capabilities/registry.ts:555-576 | A run from the start in which a crash leaves an effect whose call was never entered |
| JsonNumber.ReadPrintNum | ts/src/persistence/serialization.ts:1-3 | Every finite number survives printing and reading, with -0 read as 0 |
| JsonText.ReadEscaped | ts/src/persistence/serialization.ts:1-3 | Every string of UTF-16 code units, lone surrogates included, survives escaping as section 7 of RFC 8259 has it |
| JsonText.ReadPrinted | ts/src/persistence/serialization.ts:1-3 | A reader inverts the printer on every JSON value and stops where the value ends |
| JsonText.PrintIgnoresZeroSign | ts/src/persistence/serialization.ts:23-28 | The printed text does not tell -0 from 0 |
| JsonForm.ExponentIff | ts/src/persistence/serialization.ts:1-3 | A printed number has an exponent exactly from 10^21 on and below 10^-6 |
| JsonForm.WithoutExponent | ts/src/persistence/serialization.ts:1-3 | Otherwise its digits are written out, around a decimal point only where one is needed |
| JsonForm.UnitForm | ts/src/persistence/serialization.ts:1-3 | Which code units are printed as they are, by a letter, or by four lower-case hexadecimal digits |
| JsonForm.RawIff | ts/src/persistence/serialization.ts:1-3 | A string is printed as it is exactly when nothing in it needs escaping and no surrogate stands alone |
| CanonicalJson.DumpSucceedsIffRepresentable | ts/src/persistence/serialization.ts:9-75 | dumpJson throws on exactly the values JSON would drop, null or flatten |
| CanonicalJson.ReadDumped | ts/src/persistence/serialization.ts:1-63 | Reading a dump back gives a value with the meaning of the one dumped |
| CanonicalJson.EqualDumpsEqualMeanings | ts/src/persistence/serialization.ts:1-7 | Equal dumps mean equal JSON values, whatever the key comparison does |
| CanonicalJson.CanonicalIsUnique | ts/src/persistence/serialization.ts:57-62 | With its keys in order a JSON value has one form only |
| CanonicalJson.DumpIsExact | ts/src/persistence/serialization.ts:1-63 | jsonEqual holds exactly for values equal up to key order and the sign of zero, when the comparison is a strict total order on their keys |
| CanonicalJson.TiedKeysDumpTwice | ts/src/persistence/serialization.ts:58-62 | Two keys the comparison ties let one object dump to two texts |
| CanonicalJson.BlindIffSeparated | ts/src/persistence/serialization.ts:58-62 | dumpJson forgets key order on a set of keys exactly when the comparison separates every two of them |
| EventHash.HashTellsEventsApart | ts/src/persistence/events.ts:27-30 | Without collisions, events of a workspace hash alike exactly when they are equal up to their hash field, however their payloads list their keys |
| EventHash.HashedFields | ts/src/persistence/events.ts:27-30 | What is hashed is an object of eleven named fields: the event with its workspace and without its hash |
| EventChain.EventStore.AppendEvent | ts/src/persistence/events.ts:68-128 | The replay by key, the sealing of a new event and the constraints of the table |
| EventChain.AppendKeepsBuilt | ts/src/persistence/events.ts:68-128 | A log built by append is 1..n, linked from the genesis hash, with unique ids and keys, and append only extends it |
| EventChain.AppendIsIdempotent | ts/src/persistence/events.ts:71-89 | A repeated append under a key returns the stored event and changes nothing |
| EventAppend.UsedKeyIsReplayIff | ts/src/persistence/events.ts:71-89 | Under a key in use an append returns the stored event exactly when kind, actor, run and payload agree and so do id and timestamp where given; otherwise it is a conflict; the log stays either way |
| EventAppend.UnusedKeyIsStoredIff | ts/src/persistence/events.ts:91-127 | Otherwise it is refused exactly when its id is taken, and else stored next with every field from the input, its run's highest run_seq plus one, and the hashes that link and seal it |
| EventChain.EventStore.VerifyChain | ts/src/persistence/events.ts:200-246 | The walk returns its first break, and then the verdict on the head |
| EventChain.WalkIntactIff | ts/src/persistence/events.ts:213-238 | The walk finds no break exactly when every event is sealed and linked to the one before it |
| ChainVerdicts.BreakIsReported | ts/src/persistence/events.ts:213-238 | A chain with a break is reported by its first one, with that event's id and what is wrong with it |
| ChainVerdicts.HeadVerdict | ts/src/persistence/events.ts:262-322 | A chain without a break is judged by its head: signature, truncation, attested position, and hash and count there, in this order and each with its own id |
| EventChain.AgreeBackwards | ts/src/persistence/events.ts:216-231 | Linked logs that share a hash share everything before it |
| EventChain.VerifyIntactIff | ts/src/persistence/events.ts:200-322 | An arbitrary surviving log verifies against an attestation of an append-built log exactly when it links, keeps the whole attested log as a prefix, and goes past its head |
| EventChain.SurvivesIfIntact | ts/src/persistence/events.ts:286-322 | An intact verdict leaves no edit, cut, insertion, renumbering or re-chaining at or before the attested head |
| EventChain.BuiltVerifies | ts/src/persistence/events.ts:200-322 | A log built by append verifies against every attestation of a prefix of it |
| EventChain.CutUnseenWithoutAttestation | ts/src/persistence/events.ts:269-271 | Without an attestation a cut of the newest events is not noticed |
| ChainAttestation.ChainStore.AttestChainHead | ts/src/security/chain-attestation.ts:224-413 | Refusals in order, the replay, and otherwise attestation row and audit event together or not at all |
| ChainAttestation.RunsStayAnchored | ts/src/security/chain-attestation.ts:233-411 | In every run of append and attest, seqs are 1..n, every attestation ever made still pins its prefix with its count, and the self-chain links strictly increase |
| ChainAttestation.RunsOnlyExtend | ts/src/persistence/events.ts:68-128 | Log and attestation table only ever grow at their ends |
| ChainAttestation.RunsVerify | ts/src/persistence/events.ts:200-322 | After every run the chain verifies against its latest attestation |
| ChainAttestation.TamperingIsSeen | ts/src/persistence/events.ts:262-322 | Whatever is done to the log after a run, an intact verdict means every attested event survives in place |
| ChainAttestation.ReattestChangesNothing | ts/src/security/chain-attestation.ts:268-297 | Attesting again creates nothing exactly when only attestation events followed, and then changes nothing |
| ChainReattest.AttestDecides | ts/src/security/chain-attestation.ts:233-411 | On an anchored chain: each refusal exactly for its reason in order, the replay, and otherwise the new attestation and its audit event, every field named |
| ChainReattest.AttestTwice | ts/src/security/chain-attestation.ts:268-297 | Attesting right after an attestation that succeeded returns that very attestation and changes nothing, whoever signs |
| ChainReattest.AttestsAfterAttestChangeNothing | ts/src/security/chain-attestation.ts:268-297 | Over whole runs, however many attest operations follow one that committed, nothing changes any more and each returns that attestation |
| ChainReattest.QuietReattestIff | ts/src/security/chain-attestation.ts:277-297 | On whatever log survives, with only attestation events after the attested head the call succeeds exactly when the attested event is still in place |
| ChainEvidence.VerifyBundle | scripts/verify-chain-evidence.ts:79-130 | The offline checks, in order, decide the verdict |
| ChainEvidence.PassesIffExact | scripts/verify-chain-evidence.ts:79-130 | A bundle passes CHAIN and ANCHOR against an authentic attestation exactly when it carries the attested events and names the true genesis hash |
| ChainEvidence.ExportPasses | scripts/export-chain-evidence.ts:103-117 | An export against any recorded attestation passes, however far the log has advanced |
| ChainEvidence.ExportOfRewrittenLog | scripts/export-chain-evidence.ts:111-117 | An export of a rewritten log passes exactly when its slice is the attested log |
| ChainVerdicts.ExportIff | scripts/export-chain-evidence.ts:103-117 | An export comes out exactly when the attested position survives as the newest up to it, and carries every event up to there |
| CausalGraph.AddSequentialEdges | ts/src/diagnosis/causal-graph.ts:49-62 | Adds exactly the edges between consecutive actions of one actor |
| CausalGraph.AddCommunicationEdges | ts/src/diagnosis/causal-graph.ts:64-81 | Adds exactly the edges from an earlier named cause of a different actor |
| CausalGraph.AddDataEdges | ts/src/diagnosis/causal-graph.ts:83-101 | Adds exactly the edges from earlier producers of a consumed ref |
| CausalGraph.BuildCausalGraph | ts/src/diagnosis/causal-graph.ts:31-104 | One pass yields exactly the declared edges, each once, over the events in order |
| CausalGraph.EdgesPointForward | ts/src/diagnosis/causal-graph.ts:49-104 | Every edge joins two events of the log and points strictly forward |
| DiagnosisReport.CausalEdgeIff | ts/src/diagnosis/causal-graph.ts:31-104 | Which edges a log has, each kind told from the fields of its events |
| CausalGraph.BuildIncoming | ts/src/diagnosis/service.ts:144-152 | The index lists exactly the parents of each event |
| CausalGraph.VisitParents | ts/src/diagnosis/causal-graph.ts:129-134 | Expanding an event uses up an unseen node for every push |
| CausalGraph.Trace | ts/src/diagnosis/service.ts:155-177 | On any graph, cyclic included, the traversal ends and returns exactly the nodes with a path avoiding the excluded one |
| CausalGraph.Ancestors | ts/src/diagnosis/causal-graph.ts:114-140 | Exactly the strict ancestors, never the seed |
| Diagnosis.ScoreCountsDominated | ts/src/diagnosis/service.ts:88-91 | The subtraction counts exactly the ancestors all of whose paths pass through the candidate, so the clamp never acts |
| Diagnosis.NoMutualDominance | ts/src/diagnosis/service.ts:88-91 | Two ancestors are never each on every path to the other |
| Diagnosis.DominatorScoresHigher | ts/src/diagnosis/service.ts:88-110 | A dominator scores at least one more than what it dominates |
| Diagnosis.EarliestIsSource | ts/src/diagnosis/service.ts:92-92 | The earliest ancestor has no incoming edge at all |
| Diagnosis.Screen | ts/src/diagnosis/service.ts:79-86 | All ancestors, or the earliest of them up to the budget |
| Diagnosis.Diagnose | ts/src/diagnosis/service.ts:60-112 | Fails exactly when the failure is unknown, and otherwise reports the screened ancestors with their dominated counts and source flags, strictly ranked; with an ancestor and a budget of one the first has no incoming edge |
| Diagnosis.FirstCandidateIsSource | ts/src/diagnosis/service.ts:79-112 | With an ancestor and a budget of one, the first candidate has no incoming edge, truncated or not |
| Diagnosis.DiagnosisIsUnique | ts/src/diagnosis/service.ts:103-110 | Log, failure and budget leave one diagnosis: set iteration order does not matter |
| DiagnosisReport.ReportSays | ts/src/diagnosis/service.ts:60-110 | The report lists the failure's cone, or its earliest part up to the budget, each event once with its own kind and actor, the number of ancestors that hinge on it and whether it has no cause, in rank order |
| DiagnosisReport.WhatOthersHingeOnComesFirst | ts/src/diagnosis/service.ts:88-110 | Of two candidates that are both roots or both not, the one the other hinges on is listed first |
| DiagnosisLog.DiagnosisIsStable | ts/src/diagnosis/service.ts:60-135 | Whatever is recorded later, what is a diagnosis of a failure stays one and nothing else becomes one |
| DiagnosisLog.RepeatedDiagnosisAgrees | ts/src/diagnosis/service.ts:60-135 | Diagnosing a failure again, on a log grown since, gives the same report |
| DiagnosisLog.DiagnosisService.Diagnose | ts/src/diagnosis/service.ts:60-135 | An unknown failure changes nothing; any other is diagnosed on the log as it stands and the suggestion is appended as its latest event |
| DiagnosisReport.SuggestionSays | ts/src/diagnosis/service.ts:112-128 | The suggestion carries failure, count, first candidate and truncation, and refers to the failure and the first five candidates |
| Narrowing.SuspensionBlocksAreNotEvidence | ts/src/governance/narrowing.ts:352-360 | A call blocked by a suspension is never evidence for another |
| Narrowing.NarrowingService.CollectEvidence | ts/src/governance/narrowing.ts:128-150 | Each grant's window evidence per trigger, in log order, and no empty entries |
| NarrowingTerms.ClassifyIff | ts/src/governance/narrowing.ts:310-366 | Which events count against a grant, field by field |
| Narrowing.NarrowingService.Scan | ts/src/governance/narrowing.ts:121-209 | Without a policy nothing; with one, every target with evidence is evaluated once, rejections first and each trigger's targets in the order of their texts; what it returns as created is what the table gained, in order |
| Narrowing.NarrowingService.Lift | ts/src/governance/narrowing.ts:211-249 | Lifts the named active suspension once its cooldown has passed; unknown ids, blank actors and early lifts change nothing |
| NarrowingRuns.SuspendKeeps | ts/src/governance/narrowing.ts:255-308 | One evaluation keeps evidence disjoint and at most one suspension of a grant active |
| NarrowingRuns.RunsKeepInv | ts/src/persistence/narrowing.ts:54-125 | In every run each grant has at most one active suspension, evidence sets of a grant are disjoint, each meets its threshold with qualifying events, and no lift precedes its cooldown |
| NarrowingTerms.ScanAddsOnTerms | ts/src/governance/narrowing.ts:121-308 | Every row a scan adds is active, created at that instant, cools down for the policy's cooldown, has the threshold ratified for its trigger, and stands on exactly the usable events of the window in log order |
| NarrowingTerms.SuspensionsKeepTheirTerms | ts/src/governance/narrowing.ts:211-308 | Over every run each suspension was made by a scan under the policy last ratified before it, and is not lifted before that scan plus that policy's cooldown |
| NarrowingTerms.LiftMarksItsRow | ts/src/persistence/narrowing.ts:134-158 | A lift marks its row as lifted now and changes nothing else |
| NarrowingRuns.EvidenceIsBounded | ts/src/governance/narrowing.ts:372-384 | The evidence all suspensions of a grant used is at most its qualifying events on record |
| NarrowingRuns.SuspensionsAreEarned | ts/src/governance/narrowing.ts:152-206 | With thresholds of at least k, a grant is suspended at most once per k qualifying events |
| NarrowingRuns.RepeatedScanChangesNothing | ts/src/governance/narrowing.ts:115-121 | A repeated scan at one instant creates nothing, in whatever order either lists its targets |
| NarrowingRuns.ExactIdIsNeverFound | ts/src/governance/narrowing.ts:268-279 | Under a collision-free hash the check for an existing id never decides |
| NarrowingRuns.ScanSuspendsIff | ts/src/governance/narrowing.ts:169-206 | After a scan a grant is suspended exactly when it was before or one trigger has its threshold of unadjudicated events in the window; after a lift that can be the other trigger |
| NarrowingRescan.LiftedGrantIsSuspendedAgain | ts/src/governance/narrowing.ts:121-249 | A run in which a scan at the instant of the lift, with no new event, suspends the lifted grant again |
| NarrowingRuns.LiftIsFinal | ts/src/persistence/narrowing.ts:134-158 | A lifted suspension never changes again and none is dropped |
| OrgChangeApply.ApplicationIdsAreDistinct | ts/src/org/apply.ts:423-431 | Different proposals never derive the same application id |
| OrgChangeApply.Dedupe | ts/src/org/apply.ts:437-439 | The same targets, each once |
| OrgChangeApply.OrgChangeApplyService.SetStatusIfCurrent | ts/src/persistence/memory.ts:68-99 | Flips one entry of the workspace if it has the expected status, and otherwise changes nothing |
| OrgChangeApply.OrgChangeApplyService.ApplyTargets | ts/src/org/apply.ts:191-209 | Flips every target and records each before and after, exactly when all are stale; the verification never fails |
| OrgChangeApply.OrgChangeApplyService.Apply | ts/src/org/apply.ts:147-271 | Every guard in order; a refusal of any kind changes nothing, a replay returns the application |
| OrgChangeOutcomes.CanonicalIff | ts/src/org/apply.ts:441-443 | A canonical id is a lower-case kind, an underscore and 32 hexadecimal digits |
| OrgChangeOutcomes.ApplicationIdIff | ts/src/org/apply.ts:423-431 | The application of a proposal is named by the digits of the proposal's id, and only a full proposal id has one |
| OrgChangeOutcomes.ApplyStopsFor | ts/src/org/apply.ts:156-231 | Which reason stops a proposal, the first that applies, told from the proposal and the entries |
| OrgChangeOutcomes.AppliedLeaves | ts/src/org/apply.ts:191-271 | Applying rejects exactly the named entries, marks the proposal applied, adds one application and leaves everything else |
| OrgChangeOutcomes.AppliedRecords | ts/src/org/apply.ts:191-231 | The application is verified and records each named entry once, with its status and hash before and after |
| OrgChangeApply.OrgChangeApplyService.Revert | ts/src/org/apply.ts:279-348 | Drift and restore checks in order; restores every target or changes nothing |
| OrgChangeOutcomes.DriftIsFirst | ts/src/org/apply.ts:279-348 | The first target that is gone or no longer hashes as recorded decides a refused revert |
| OrgChangeOutcomes.RestoreIsFirst | ts/src/org/apply.ts:279-348 | So does the first that is not rejected any more, or was not stale before |
| OrgChangeOutcomes.RevertDecides | ts/src/org/apply.ts:279-348 | On tables that runs leave, a verified application is reverted: its targets become stale, it is marked, and nothing else changes; every other one is refused |
| OrgChangeRuns.RunsKeepInv | ts/src/org/apply.ts:147-348 | In every interleaving, verified applications have disjoint targets, each still exactly as that application left it, within the blast radius |
| OrgChangeRuns.VerifiedCanBeReverted | ts/src/org/apply.ts:279-348 | A verified application can always be reverted; its targets then hash as recorded before, and no other entry moves |
| OrgChangeRuns.RevertUndoesApply | ts/src/org/apply.ts:147-348 | Apply, anything in between, revert: every target is the very entry it was |
| OrgChangeRuns.AppliesAtMostOnce | ts/src/org/apply.ts:159-167 | Once applied, a proposal never mutates memory again |
| OrgChangeRuns.RunsKeepRecords | ts/src/persistence/org-changes.ts:88-131 | Entries keep their content, applications their targets, and an applied proposal its status |
| RunStore.Store.Create | ts/src/persistence/runs.ts:41-91 | Inserts the run and takes the lock, or refuses and changes nothing |
| RunStore.Store.RefreshLock | ts/src/persistence/runs.ts:208-251 | Frees the lock of a run that ended, takes or refreshes that of a living one |
| RunStore.Store.SetRunStatus | ts/src/persistence/runs.ts:114-218 | The transition, approval and resume checks in order, then run and lock together |
| RunOutcomes.SetStatusDecides | ts/src/persistence/runs.ts:114-251 | On any tables: an ended run takes only what it already is, another moves along the six transitions and only out of suspension as its approval allows, and the lock goes with it |
| RunOutcomes.CreateDecides | ts/src/persistence/runs.ts:41-91 | A new run takes its workspace's lock unless it has ended, and needs it free |
| RunStore.Store.FindExisting | ts/src/governance/approvals.ts:292-309 | Finds the earlier approval a repeated request stands for, exactly when there is one |
| RunStore.Store.RequestApproval | ts/src/governance/approvals.ts:62-135 | A repeated request changes nothing; a new one opens the approval and suspends its running run, or rolls back |
| RunStore.Store.ApproveApproval | ts/src/governance/approvals.ts:137-212 | Replay, guards, resolution and resume, or nothing |
| RunStore.Store.RejectApproval | ts/src/governance/approvals.ts:214-290 | Replay, guards, resolution and the run's transition, or nothing |
| RunOutcomes.AskDecides | ts/src/governance/approvals.ts:62-135 | On consistent tables a new request opens its approval and suspends its running run on it; a repeated or refused one changes nothing |
| RunOutcomes.ApproveDecides | ts/src/governance/approvals.ts:137-212 | Approving: each refusal for its reason in order, a replay, and otherwise the run that waited runs on and takes the lock again |
| RunOutcomes.RejectDecides | ts/src/governance/approvals.ts:214-290 | Rejecting: the run that waited fails and frees the lock, skips its action and runs on, or is left as it is, as the approval says |
| RunOutcomes.OneApprovalPerTarget | ts/src/governance/approvals.ts:292-309 | In every run there is at most one open or approved approval for a target |
| RunHistory.MoveKeeps | ts/src/persistence/runs.ts:185-216 | The holder of the lock can always move, and stays in agreement with what holds it |
| RunHistory.StepKeeps | ts/src/persistence/runs.ts:41-321 | Every ordinary operation keeps lock, run and pending approval in agreement |
| RunHistory.RunsKeepInv | ts/src/persistence/runs.ts:41-321 | So does every run of them |
| RunHistory.ActiveRunIsUnique | ts/src/persistence/runs.ts:51-60 | A workspace's lock names its one run that has not ended |
| RunHistory.LockNamesActiveRun | ts/src/persistence/runs.ts:208-214 | There is a lock exactly when some run has not ended |
| RunHistory.SuspendedIffHeld | ts/src/persistence/runs.ts:253-287 | A run is suspended exactly when a pending approval holds it, and then one does |
| RunHistory.ResolutionMoves | ts/src/governance/approvals.ts:183-195 | Resolving the approval that holds a run always moves the run out of suspension |
| RunHistory.ResolvingNeverFails | ts/src/governance/approvals.ts:137-290 | A pending approval can always be approved and rejected as far as the run layer goes |
| RunHistory.TerminalRunsNeverChange | ts/src/persistence/runs.ts:135-147 | A completed or failed run is never changed by anything |
| RunHistory.RejectKeepsIff | ts/src/governance/approvals.ts:251-287 | Rejecting the approval that holds a run keeps it consistent exactly when the rejection is not a no-op |
| RunHistory.SetStatusKeepsIff | ts/src/persistence/runs.ts:149-183 | Setting a status keeps consistency exactly when it does not fail a suspended run |
| RunHistory.FailingSuspendedRunStrandsApproval | ts/src/governance/approvals.ts:251-254 | Failing a suspended run leaves an approval that can no longer be rejected |
| RunHistory.StrandedApproval | ts/src/persistence/runs.ts:149-183 | A run from the start in which failing a waiting run leaves an approval that cannot be rejected |
| RunHistory.IdleRejection | ts/src/governance/approvals.ts:251-287 | A run from the start in which a no-op rejection leaves the run waiting for a resolved approval |
| Heartbeat.HeartbeatService.EmitOne | ts/src/chief_of_staff/service.ts:283-326 | Appends a notification exactly when its id is new |
| Heartbeat.HeartbeatService.TickDue | ts/src/chief_of_staff/service.ts:119-151 | Fires every due cadence once, advances it, and lists what was newly created |
| HeartbeatOutcomes.EmitAllEmits | ts/src/chief_of_staff/service.ts:283-326 | Emitting leaves a notification for each emission, and each new one reports one of them under an id not there before |
| HeartbeatOutcomes.TickSays | ts/src/chief_of_staff/service.ts:119-151 | A tick fires the enabled cadences that are due, each once and in order, sets each an interval ahead, and each firing lists the notifications that are new by it |
| Heartbeat.HeartbeatService.Beat | ts/src/heartbeat/service.ts:62-119 | A beat commits with its digest or changes nothing; shown and truncated add up to what it created |
| HeartbeatOutcomes.BeatSays | ts/src/heartbeat/service.ts:62-119 | A beat is its tick and a digest of the first new notifications up to the cap with the rest counted; it fails exactly when a sensor does or a delivery that is due |
| Heartbeat.HeartbeatService.RunDaemon | ts/src/heartbeat/service.ts:126-145 | The loop survives failed beats and counts the committed ones |
| HeartbeatOutcomes.PassesAreARun | ts/src/heartbeat/service.ts:126-145 | The daemon's passes are a run of beats, so all that holds of runs holds of it |
| HeartbeatRuns.RunsAreTimed | ts/src/persistence/cadences.ts:59-86 | No cadence is due again before its interval has passed since any of its firings |
| HeartbeatRuns.FiringsAreAnIntervalApart | ts/src/chief_of_staff/service.ts:119-151 | For any tick times in any order, two firings of a cadence are at least its interval apart |
| HeartbeatRuns.FiringsAreBounded | ts/src/chief_of_staff/service.ts:119-151 | Between two instants a cadence fires at most once per interval and once more |
| HeartbeatRuns.RetickChangesNothing | ts/src/chief_of_staff/service.ts:115-118 | Ticking again at the same instant does nothing |
| HeartbeatRuns.DigestsAreDisjoint | ts/src/heartbeat/service.ts:73-116 | No notification is delivered in two digests or twice in one |
| HeartbeatRuns.DigestsAccountForBeats | ts/src/heartbeat/service.ts:77-117 | Shown and truncated together account for every notification beats created |
| Ed25519Point.ModP | ts/src/persistence/principals.ts:67-70 | The residue of any integer, from a remainder truncated toward zero |
| Ed25519Point.PowModP | ts/src/persistence/principals.ts:72-84 | Square and multiply computes the power modulo p for every base and exponent, and 1 for a negative exponent |
| PrimeField.Fermat | ts/src/persistence/principals.ts:65-87 | For a prime p, a^(p-1) is 1 modulo p unless p divides a |
| PrimeField.InverseByPower | ts/src/persistence/principals.ts:87-87 | The power p - 2 is the inverse |
| QuadraticResidues.TwoIsNotASquare | ts/src/persistence/principals.ts:138-139 | Modulo a prime that is 5 modulo 8, 2^((p-1)/2) is -1 |
| QuadraticResidues.PassersAreSquares | ts/src/persistence/principals.ts:138-139 | What passes Euler's criterion has a square root |
| Ed25519Point.CurveDIsQuotient | ts/src/persistence/principals.ts:86-87 | The constant d satisfies d * 121666 = -121665 |
| Ed25519Point.DenominatorVanishesIff | ts/src/persistence/principals.ts:133-137 | The denominator vanishes for some y exactly when d passes Euler's criterion, so for a d that does not it never does |
| Ed25519Point.IsOnCurve | ts/src/persistence/principals.ts:132-139 | The test accepts a canonical y exactly when some x satisfies the curve equation of section 5.1 of RFC 8032 |
| Ed25519Encoding.DecodeY | ts/src/persistence/principals.ts:121-126 | The bytes read little-endian without the sign bit |
| Ed25519Encoding.AssertUsablePoint | ts/src/persistence/principals.ts:114-145 | Each refusal exactly for its reason, in order, and nothing else is refused |
| Ed25519Encoding.AcceptedEncodingIsUnique | ts/src/persistence/principals.ts:127-131 | Accepted encodings of one y modulo p and one sign are equal |
| Ed25519Encoding.DecodableIff | ts/src/persistence/principals.ts:132-144 | Decoding by section 5.1.3 of RFC 8032 succeeds exactly when the check accepts y and, with y^2 = 1, the sign bit is clear |
| Ed25519Encoding.SharesListedYIff | ts/src/persistence/principals.ts:98-107 | An encoding that is not listed shares its y with a listed one exactly when y^2 = 1, and then its sign bit is set |
| Ed25519Encoding.AcceptedDecodesIff | ts/src/persistence/principals.ts:98-144 | What the check accepts decodes by section 5.1.3 of RFC 8032 exactly when no listed encoding has its y |
| Ed25519Encoding.AcceptedButNotDecodable | ts/src/persistence/principals.ts:98-144 | The encoding of y = 1 with the sign bit set is not listed and its y is on the curve, yet no point has this y and sign |
| Ed25519Encoding.FieldPIsEdwards | ts/src/persistence/principals.ts:65-65 | 2^255 - 19 meets the hypotheses on the field, its primality aside |
| Ed25519Constant.CurveDFails | ts/src/persistence/principals.ts:86-87 | At 2^255 - 19 the constant d fails Euler's criterion: a root of 2*d is given, and 2 has none |
| Ed25519Constant.DenominatorNeverVanishes | ts/src/persistence/principals.ts:133-137 | At 2^255 - 19 the denominator vanishes for no y at all |
| Ed25519SmallOrder.SmallOrderIff | ts/src/persistence/principals.ts:89-96 | A point of the curve doubles to the neutral element in three steps exactly when its y is 0, 1 or -1 or solves d*y^4 + 2*y^2 - 1 = 0 |
| Ed25519BlockList.SmallOrderYIff | ts/src/persistence/principals.ts:89-107 | At 2^255 - 19 these y are five: 0, 1, -1 and two more |
| Ed25519BlockList.ListedIff | ts/src/persistence/principals.ts:97-107 | The block list holds exactly the encodings that decode by section 5.1.3 of RFC 8032 to a point whose order divides eight |
| Ed25519BlockList.UnlistedIsNotSmall | ts/src/persistence/principals.ts:114-120 | What is not refused and decodes is a point of another order |

## Left out

- HTTP API, console, CLI and SDK: routing and presentation.
- SQLite, WAL and schema migrations: tables are maps and sequences, transactions atomic steps.
- Key custody, operator profile, credential broker and the signing code: the oracles above.
- zod parsing: datatypes take its place, and a payload that does not parse is an absent value.
- Provider code, input and output schemas and the sensitive-material screens: arbitrary parameters; an answer failing them is an outcome the provider step may have.
- Autonomy level of a workspace among several organizations: an arbitrary level per workspace.
- Workspaces in the log, narrowing and heartbeat: one workspace each, as their tables are keyed by it.
- Error texts, notes and summaries: kinds of errors and reasons instead.
- Memory service, learning, ingestion, model router and world model: their effects here are arbitrary emissions, events or environment steps.
- Events, traces and checkpoints written beside a transition: left out outside the log itself, except a call's recorded decision.
- Format, SIGNATURE and trust blocks of the evidence bundle beyond CHAIN and ANCHOR: the signature check is one oracle.
- Timestamps: whole seconds, without the bounds of the RFC 3339 year range.
- The advisory note of a diagnosis.
- Applying an approval without a run: whether its handler accepts is a parameter.
- JavaScript objects with accessors, and prototype keys in lookups of grants: not modelled.
- GatewayProtocol.Next: approving or rejecting leaves the run's status to the environment, which may set any status at any time; the run layer is RunStore and RunHistory.
- GatewayProtocol.OpenStep: a provider that calls the gateway from within its own synchronous part is not modelled.
- Diagnosis.Diagnose: the budget is a natural number, and events have unique ids and sequence numbers as the table's constraints enforce.
- Heartbeat.HeartbeatService.RunDaemon: clock, sleep and stop signals are a given list of passes.
- OrgChangeApply.OrgChangeApplyService.Apply: memory cleanup is the only change type with an applier, as by default.
- Ed25519Encoding.AssertUsablePoint: the text form of a key (base64url, JWK, PEM) and its import are not modelled.

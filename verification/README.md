# The subnet protocol of `cathedral_thin`, modelled in Dafny

This project models the deterministic core of `cathedral_thin/` and proves what it promises: how a SAT challenge is
built, sent, solved and graded; how scores become weights; how a validator submits those weights safely through
crashes, ambiguous outcomes and changes of ownership; how signed reports, owner registrations and receipt bundles
resist rollback; how a decision list is learned and scored; and how the miner's cache and rate limiter behave over
time.

`dafny verify dfyconfig.toml` checks everything. There is one module to a file.

| Part | Modules |
|---|---|
| Challenge pipeline | `RandomStream`, `AjmGenerator`, `Cnfs`, `Decimals`, `Dimacs`, `AssignmentCodec`, `Challenges`, `SolverOutput` |
| Weight arithmetic | `Sums`, `Collapse`, `ClassDecisions`, `Composition`, `Metagraphs` |
| Submission state machine | `SubmissionState`, `Validator`, `ValidatorPaths`, `ValidatorRuns`, `ValidatorSafety`, `TickOutcomes`, `SaveFailures`, `SaveFailureSafety`, `SaveFailureRounds`, `RoundVectors`, `RegistrationRuns` |
| Anti-rollback chains | `Checkpoints`, `Receipts`, `Amounts`, `Aggregation` |
| Decision lists | `PolicyLearner`, `PolicyEvaluation`, `Texts` |
| Miner guards | `RoundCaches`, `RateLimiter` |

How it is set up:

- What the source does step by step is a method, or a class whose fields are updated in place. It is proved equal to a
  specification function, and the results about whole runs are lemmas about that function.
- A run of the validator is a sequence of events: starts, ticks, ticks that crash after any number of effects, and
  kills. What reached the outside is a log of saved states and sent vectors. One predicate on logs is kept by every
  event, and the safety results are read off it.
- Each specification function also has a lemma that says when it gives what, in terms of its inputs and without naming
  it: the ones called `...Exactly`, and the equations for scores, averages and counts.
- Hashes, the keyed hash, compression, base64 and signatures are parameters. A lemma that needs a hash not to collide
  says so in a `requires` clause.
- Weights and scores are exact reals; work amounts are whole numbers of units of 10^-12.
- Chain reads, mirrors, replies, clocks and the vector of a round are arbitrary inputs of each tick; `RoundVectors` ties
  that vector to the round's decisions.

Where a promise of the source does not hold without a condition, the project states the condition exactly and shows what
happens outside it:

- a crash after sending: `ValidatorSafety.CrashAfterSendingResends`;
- a save that raises: `SaveFailures.SubmissionIsFiledExactlyUnlessSaveRaised`,
  `SaveFailures.FailedSaveSendsUnsavedVector`, `SaveFailureSafety.UnrecordedOutcomeResends`,
  `SaveFailureRounds.OneVectorPerRoundUnlessBehind`, `SaveFailureRounds.RoundComesAgainExactlyWhenBehind`;
- a change of owner: `Checkpoints.RollbackExactlyOnOwnerChange`, `Checkpoints.OwnerReturnRollsBack`;
- an accepted bundle verified again: `Receipts.AgainTheSameExactlyUnlessLeftOut`, `Receipts.WindowsDoNotOverlap`,
  `Receipts.ScoringAfterVerifyingOverreaches`;
- eviction from the cache: `RoundCaches.ReservedExactlyWhenForgotten`, `RoundCaches.EvictionForgetsReservation`;
- permit refreshes closer than the window: `RateLimiter.LimitHoldsExactlyWhenRefreshesAreSpaced`,
  `RateLimiter.RefreshSettingKeepsLimit`, `RateLimiter.DroppedCallerStartsAfresh`;
- hotkeys missing from the metagraph: `Composition.SharesKeptExactlyWhenAllPresent`;
- inconsistent examples: `PolicyLearner.RightExactlyWhenConsistent`.

## Model

| member | source | states |
|---|---|---|
| RandomStream.HashRng.Fill | cathedral_thin/core.py:49-57 | whole 32-byte blocks are appended until enough bytes are buffered, and none that is not needed; the handed-out position does not move |
| RandomStream.HashRng.Bytes | cathedral_thin/core.py:59-65 | a request returns exactly the next bytes of the one block stream and moves the position by their number; a negative count is refused |
| RandomStream.HashRng.RandBelow | cathedral_thin/core.py:67-75 | on a fair stream the result is the first accepted group of bytes reduced by the bound, and the position stands after it; a bound that is not positive is refused |
| RandomStream.DrawIsFirstInRange | cathedral_thin/core.py:67-75 | groups of the least sufficient width are read one after another, and the first below the limit, modulo the bound, is the draw |
| RandomStream.LimitIsLargestMultiple | cathedral_thin/core.py:70-71 | the rejection limit is the largest multiple of the bound that a group can hold |
| RandomStream.FirstByteIsMostSignificant | cathedral_thin/core.py:72 | a group is a number with its first byte the most significant |
| RandomStream.HashRng.Bit | cathedral_thin/core.py:77-78 | one byte is read and its lowest bit returned; the position moves by one |
| RandomStream.BitIsLowestBit | cathedral_thin/core.py:77-78 | the draw of a bit is whether the byte at the position is odd, and it moves one byte on |
| RandomStream.HashRng.Sample3 | cathedral_thin/core.py:80-93 | three draws give an ordered triple of distinct variables in range by skipping the values already taken; fewer than three variables are refused |
| RandomStream.SampleIsByRank | cathedral_thin/core.py:80-93 | each drawn number is the rank of its variable among those not yet taken |
| RandomStream.SampleIsInjective | cathedral_thin/core.py:83-93 | different draws give different triples: the skip-two-values arithmetic can be undone |
| RandomStream.SampleIsSurjective | cathedral_thin/core.py:83-93 | every ordered triple of distinct variables comes from draws in range, so unbiased draws give an unbiased triple |
| RandomStream.LimitCoversHalf | cathedral_thin/core.py:67-75 | the rejection limit is a positive multiple of the bound and covers more than half of all tries |
| RandomStream.RejectionIsUnbiased | cathedral_thin/core.py:67-75 | every residue is hit by the same number of accepted tries |
| RandomStream.ChunksJoin | cathedral_thin/core.py:49-65 | successive requests return consecutive slices of the stream |
| RandomStream.ChunkingIsIrrelevant | cathedral_thin/core.py:49-65 | however requests are cut up, equal totals read equal bytes |
| RandomStream.ZeroStreamIsFair | cathedral_thin/core.py:67-75 | the fairness assumption on the stream can be met |
| AjmGenerator.Generate | cathedral_thin/core.py:146-166 | from a random source the loop gives exactly the formula and hidden model that the allowed attempts determine, or fails when they keep too few distinct clauses |
| AjmGenerator.GenerateAjmCnf | cathedral_thin/core.py:136-166 | bounds on seed, variables and clauses are checked in order; otherwise the seed determines the result |
| AjmGenerator.GeneratedExactly | cathedral_thin/core.py:136-166 | within the bounds a seed gives the first clauses kept of the attempts on its own stream, and the hidden bits read before them, or fails when these are too few |
| AjmGenerator.AdmissibleExactlyWhenBoth | cathedral_thin/core.py:158-163 | a clause is admissible exactly when it has a true and a false literal under the hidden assignment |
| AjmGenerator.CandidateIsDrawn | cathedral_thin/core.py:154-157 | a candidate is the three drawn variables in rising order, each signed by its own drawn bit |
| AjmGenerator.KeptExactly | cathedral_thin/core.py:151-166 | kept are the admissible clauses tried, each once, in the order of their first attempts |
| AjmGenerator.DeterminedHasTwoModels | cathedral_thin/core.py:146-166 | a generated formula has exactly the requested number of pairwise different clauses, each over three increasing in-range variables, and both the hidden model and its full complement satisfy it |
| AjmGenerator.FailureFoundTooFew | cathedral_thin/core.py:151-166 | generation fails only when no list of enough different admissible clauses was among the attempts |
| AjmGenerator.StoppingEarly | cathedral_thin/core.py:151-166 | stopping as soon as enough clauses are kept gives what the whole attempt bound determines |
| Cnfs.VerifyWitness | cathedral_thin/core.py:266-281 | the checker accepts exactly the lists of literals that name each variable once, in any order, and satisfy every clause |
| Dimacs.ParseDimacsStrict | cathedral_thin/core.py:169-211 | the line loop computes the strict parse |
| Dimacs.AcceptedExactly | cathedral_thin/core.py:169-211 | a text is read as a formula exactly when its lines, stripped and without blank ones and comments, are one header that says its size and then its clauses, one to a line, and the formula is well formed |
| Dimacs.ParseUndoesPrint | cathedral_thin/core.py:105-107 | parsing a printed formula gives it back exactly when it is well formed, and fails otherwise |
| Dimacs.ExpectationsFilter | cathedral_thin/core.py:207-210 | expected dimensions only refuse texts, they never change what is returned |
| Dimacs.AcceptedIsWellFormed | cathedral_thin/core.py:169-211 | whatever is accepted has clauses over three distinct in-range variables, as many as the header declares |
| Dimacs.ParsePrintParse | cathedral_thin/core.py:169-211 | parsing, printing and parsing again is the same as parsing |
| Decimals.ReadPrintedInt | cathedral_thin/core.py:105-107 | an integer printed in decimal reads back |
| Decimals.ReadsSigned | cathedral_thin/core.py:181-194 | an integer is an optional sign and digits with single underscores between them, read in base ten |
| AssignmentCodec.EncodeAssignment | cathedral_thin/core.py:284-299 | exactly the complete lists are encoded; otherwise the first faulty literal or the missing variables are reported |
| AssignmentCodec.PackLoop | cathedral_thin/core.py:293-298 | the buffer ends with exactly the bits of the true variables set |
| AssignmentCodec.PackedLayout | cathedral_thin/core.py:293-298 | bit i of the code, counted from the lowest bit of the first byte, is set exactly when variable i+1 is true |
| AssignmentCodec.UnpackLayout | cathedral_thin/core.py:313-317 | decoding gives variable i+1 the sign of bit i |
| AssignmentCodec.UnpackPacked | cathedral_thin/core.py:284-317 | decoding after encoding gives the assignment in variable order, whatever order it was supplied in |
| AssignmentCodec.PackUnpacked | cathedral_thin/core.py:302-317 | encoding what was decoded gives the same bytes, so an accepted byte string is the one code of its assignment |
| AssignmentCodec.PaddingIsBits | cathedral_thin/core.py:310-313 | the shift test on the last byte holds exactly when no bit beyond the last variable is set |
| AssignmentCodec.OrderKeepsLiterals | cathedral_thin/core.py:284-317 | putting an assignment in variable order keeps its literals, and so whether it satisfies a formula |
| Challenges.DecodeUndoesEncode | cathedral_thin/core.py:214-263 | the receiver decodes exactly the formula that was encoded |
| Challenges.LawsCanBeMet | cathedral_thin/core.py:214-263 | there are libraries that keep every law asked of the hash, the keyed hash, base64 and compression |
| Challenges.BuildChallenge | cathedral_thin/core.py:403-442 | a request determines the challenge, its commitment and its formula, or the error |
| Challenges.RequestRefusedExactly | cathedral_thin/core.py:403-442 | which requests are refused, and for what |
| Challenges.BuiltCommitsToRequest | cathedral_thin/core.py:403-442 | a built challenge carries the fields of its request, expires its lifetime after issue, and is named by the commitment to them |
| Challenges.EnvelopePassesExactly | cathedral_thin/core.py:361-400 | the envelope passes exactly for version 1, the expected parties, a window around now with 30 s of grace before issue, sizes in bounds, a digest in hex and the right commitment |
| Challenges.DecodedExactly | cathedral_thin/core.py:224-263 | a payload is decoded exactly within its size limits, as base64 of whole compressed ASCII text under the digest that reads as a formula of the expected size |
| Challenges.BuiltHasTwoModels | cathedral_thin/core.py:403-442 | a challenge that builds has a well-formed formula with two opposite models |
| Challenges.BuiltPassesEnvelope | cathedral_thin/core.py:361-400 | the envelope check of a built challenge passes exactly from 30 s before issue until expiry, for the named parties |
| Challenges.BuiltDecodes | cathedral_thin/core.py:224-263 | the miner decodes the formula of a built challenge |
| Challenges.GradeResponse | cathedral_thin/core.py:445-477 | the grade is that of the first check that fails, or the score of a verified answer; `FirstFaultDecides` and `PaidBySpeed` say which grade that is |
| Challenges.PaidBySpeed | cathedral_thin/core.py:471-477 | the paid score s of a verified answer satisfies (s - share) * (reference + observed) == (1 - share) * reference |
| Challenges.ScoreEquation | cathedral_thin/core.py:475-477 | the same equation for the score itself, which it determines |
| Challenges.ScoreFallsWithTime | cathedral_thin/core.py:475-477 | a slower answer scores strictly less unless the share is 1 |
| Challenges.FullScoreExactly | cathedral_thin/core.py:475-477 | the score is 1 exactly at time zero or with share 1 |
| Challenges.FirstFaultDecides | cathedral_thin/core.py:456-474 | each unpaid answer is given the reason of the first check it fails |
| Challenges.AnswerDecodesExactly | cathedral_thin/core.py:302-317 | which answers decode, bit by bit |
| Challenges.ScoreBounds | cathedral_thin/core.py:471-477 | the score of verified work lies between the correctness share and 1 |
| Challenges.ScoreNeverRisesWithTime | cathedral_thin/core.py:471-477 | a slower answer never scores more |
| Challenges.EveryModelIsVerified | cathedral_thin/core.py:284-317 | completeness: any total satisfying assignment, in any order of literals, is graded verified |
| Challenges.OnlyWitnessesArePaid | cathedral_thin/core.py:445-477 | soundness: an answer is graded verified exactly when it is for this challenge and miner, in time, and decodes to an assignment that satisfies every clause |
| Challenges.EveryChallengeIsWinnable | cathedral_thin/core.py:403-477 | every challenge that builds can be won, by two different answers |
| SolverOutput.ParseModel | cathedral_thin/miner.py:34-63 | literals are returned exactly when every value token is an integer, the status read last says satisfiable, and the literals name each variable once |
| SolverOutput.StatusLinesSay | cathedral_thin/miner.py:41-54 | a status line says unsatisfiable when that word stands anywhere in it, and satisfiable when only the other does |
| SolverOutput.LastStatusDecides | cathedral_thin/miner.py:41-54 | of several status lines the last one decides |
| SolverOutput.PrintedModelReadsBack | cathedral_thin/miner.py:55-59 | a model printed over any number of value lines, with or without the closing zero, reads back in order |
| Collapse.UpdateEma | cathedral_thin/core.py:480-496 | the averages of the current hotkeys only, each a blend of old and new; bad inputs are refused |
| Collapse.BlendBetween | cathedral_thin/core.py:489-495 | an average stays between the old value and the new one, and never loses a positive observation |
| Collapse.GateByCurrentVerification | cathedral_thin/core.py:499-515 | exactly the averaged hotkeys, each with its average where the current observation is positive and zero elsewhere; negative inputs are refused |
| Collapse.GateKeepsAverages | cathedral_thin/core.py:499-515 | when every current hotkey has a positive observation, gating after averaging changes no average |
| Collapse.PaidOnlyForCurrentWork | cathedral_thin/core.py:480-515 | after averaging and gating a score is positive exactly for work verified this round |
| Collapse.ColdkeyCollapsedWeights | cathedral_thin/core.py:518-547 | the collapse loops, final renormalisation included, give the weights by group; negative scores and missing coldkeys are refused |
| Collapse.WeightsSumToOne | cathedral_thin/core.py:518-547 | weights are positive exactly on positive scores and sum to 1, so the last renormalisation changes nothing |
| Collapse.ColdkeyTotal | cathedral_thin/core.py:518-547 | a coldkey's total is its best member's score over the sum of all coldkeys' best scores |
| Collapse.WeightsAreProportional | cathedral_thin/core.py:534-547 | within a coldkey weights are in the ratio of the scores |
| Collapse.ExtraHotkeysChangeNothing | cathedral_thin/core.py:518-547 | hotkeys that do not beat the best of their coldkey leave every coldkey total, and every other coldkey's hotkey weights, unchanged |
| ClassDecisions.ExternalClassDecision | cathedral_thin/score_classes.py:1399-1483 | a decision is made exactly when every entry is acceptable, scores collapse and someone listed is a member with a positive score; its weights are the collapse of the assigned scores |
| ClassDecisions.AssignedValueIs | cathedral_thin/score_classes.py:1378-1396 | the assigned score is the chosen metric or the asserted score, capped, and 0 or 1 by its sign where binary |
| ClassDecisions.AcceptedExactly | cathedral_thin/score_classes.py:1399-1460 | an entry is acceptable exactly when it has its value, that is not negative, and a positive one has all the evidence, kinds and reasons asked for |
| ClassDecisions.LocalClassDecision | cathedral_thin/score_classes.py:1486-1508 | the local class pays the collapse of its scores |
| ClassDecisions.AssignedScoreBounds | cathedral_thin/score_classes.py:1378-1396 | caps bound, binary leaves 0 or 1, and a linear score under its cap is the value itself |
| ClassDecisions.OnlyQualifiedScores | cathedral_thin/score_classes.py:1407-1429 | the paid are exactly the listed members with a positive assigned score, each with the evidence, kinds and reasons asked for |
| ClassDecisions.BuiltDecisionsAreAccepted | cathedral_thin/score_classes.py:1511-1549 | decisions made this way compose unless the burn destination earned something or a class is empty without one |
| ClassDecisions.ComposedPaysShares | cathedral_thin/score_classes.py:1535-1558 | every coldkey's composed weights add up to each class's allocation times its share there, plus the allocations of the empty classes for the one that holds the burn hotkey |
| ClassDecisions.SplittingIsWorthless | cathedral_thin/score_classes.py:1399-1558 | from scores to composed weights, adding hotkeys that do not beat their coldkey's best, in any classes at once, leaves every coldkey's final total unchanged, the burn hotkey's included |
| Composition.ComposeClassDecisions | cathedral_thin/score_classes.py:1511-1558 | accepted exactly when the decisions cover the policy, kinds match, non-empty classes are within 1e-9 of 1, empty ones have a burn destination and that earns nothing; the late conservation error never occurs |
| Composition.CoveredExactly | cathedral_thin/score_classes.py:1514-1518 | the policy is covered exactly when no class is decided twice, every class of the policy is decided, and no other |
| Composition.DecisionAcceptedExactly | cathedral_thin/score_classes.py:1529-1546 | a decision is of its class's kind; an empty one needs a burn destination; any other adds up to one within 1e-9 and pays the burn destination nothing |
| Composition.OwedGrows | cathedral_thin/score_classes.py:1528-1549 | what each class adds to what a hotkey is owed |
| Composition.ComposedIsOwedOverTotal | cathedral_thin/score_classes.py:1551-1558 | a composed weight times the total owed is what its hotkey is owed |
| Composition.ComposedExactly | cathedral_thin/score_classes.py:1553-1558 | composed are just the hotkeys owed something |
| Composition.ConservationNeverFails | cathedral_thin/score_classes.py:1550-1552 | with allocations summing to 1 and each class within 1e-9 of 1 the total is within 1e-9 of 1 |
| Composition.ComposedSumsToOne | cathedral_thin/score_classes.py:1553-1558 | the composed weights are positive and sum to 1 |
| Composition.ExactShares | cathedral_thin/score_classes.py:1528-1558 | with exactly normalised classes everyone gets what is owed and the burn destination gets exactly the allocations of the empty classes |
| Composition.UidVector | cathedral_thin/validator.py:234-253 | the vector, sorted by UID, pays each present weighted hotkey its share on its own UID and no one else; negative weights are refused |
| Composition.SharesKeepRatios | cathedral_thin/validator.py:234-253 | mapping to UIDs keeps the ratios of the weights |
| Composition.SharesKeptExactlyWhenAllPresent | cathedral_thin/validator.py:234-253 | the mapping keeps every share exactly when no weighted hotkey is missing from the metagraph |
| Metagraphs.SnapshotPeers | cathedral_thin/validator.py:119-139 | a snapshot has no UID or hotkey twice |
| Metagraphs.SnapshotExactly | cathedral_thin/validator.py:119-139 | which reads are snapshots, and that they list the arrays side by side |
| Metagraphs.TablesList | cathedral_thin/validator.py:532-533 | the lookup tables say what the snapshot lists |
| Checkpoints.LoadBestReport | cathedral_thin/score_classes.py:1292-1327 | the loops over the mirrors choose the report and checkpoint that `AcceptedExactly` and `RefusedFor` spell out |
| Checkpoints.AcceptedExactly | cathedral_thin/score_classes.py:1201-1327 | a report is accepted exactly when all mirrors that serve the highest valid epoch agree on its id and there is no checkpoint, or that epoch is more than one above it, or one above and linked, or equal with the same id; it is the first of that epoch and the new checkpoint is its epoch and id |
| Checkpoints.RefusedFor | cathedral_thin/score_classes.py:1201-1327 | which error is given otherwise |
| Checkpoints.MirrorOrderIsIrrelevant | cathedral_thin/score_classes.py:1292-1327 | the accepted checkpoint or error does not depend on the order of the mirrors |
| Checkpoints.LoadBestExtends | cathedral_thin/score_classes.py:1201-1224 | an accepted checkpoint never lowers the epoch, keeps one id per epoch and links adjacent epochs |
| Checkpoints.CheckpointNeverRollsBack | cathedral_thin/score_classes.py:1201-1224 | the same over any run of loads, failures included |
| Checkpoints.LoadBestOwnerRegistration | cathedral_thin/score_classes.py:1330-1375 | the mirror loop picks the first registration of the highest sequence among those that pass, unless two ids share it |
| Checkpoints.RegistrationAcceptedExactly | cathedral_thin/score_classes.py:794-1375 | a registration is accepted exactly when, among the mirrors that serve one of the current owner for a delegate registered to that owner and fit to follow the checkpoint, those with the highest sequence agree on its id; it is the first of them |
| Checkpoints.LoadedIsAuthorized | cathedral_thin/score_classes.py:822-990 | what is accepted was served, is by the current owner, and its delegate is registered to that owner |
| Checkpoints.RegistrationOrderIsIrrelevant | cathedral_thin/score_classes.py:1330-1375 | mirror order does not matter for registrations |
| Checkpoints.SequenceNeverRollsBackUnderOneOwner | cathedral_thin/score_classes.py:794-819 | over any run of loads under one owner the sequence never goes back, keeps one id each, and is linked |
| Checkpoints.RollbackExactlyOnOwnerChange | cathedral_thin/score_classes.py:794-819 | whatever the mirrors serve, the accepted sequence is below the checkpoint exactly when the checkpoint is of another owner and the highest authorised sequence is lower |
| Checkpoints.OwnerReturnRollsBack | cathedral_thin/score_classes.py:794-819 | when ownership leaves and returns the first owner can go back to an older registration: where the promise ends |
| SubmissionState.DelaysGrowToCap | cathedral_thin/core.py:882-898 | delays start at 15 s, double, never shrink and stop at 15 min from the seventh failure |
| SubmissionState.LoadableReloads | cathedral_thin/core.py:670-796 | a state passes every check of loading exactly when it reloads equal, without a write |
| SubmissionState.LoadedExactly | cathedral_thin/core.py:670-796 | which files are loaded under which configuration, what state results and what is saved |
| SubmissionState.DigestedExactly | cathedral_thin/core.py:550-620 | which vectors have a digest, and that it is taken over UIDs, hotkeys, rounded weights, provenance and bindings |
| SubmissionState.Round12IsNearest | cathedral_thin/core.py:550-620 | weights in a digest are rounded to the nearest twelfth digit, ties to even |
| SubmissionState.ValidatorState.MarkPending | cathedral_thin/core.py:856-879 | the pending vector carries its own digest and no failures; on any error the state is unchanged |
| SubmissionState.ValidatorState.NoteSubmissionFailure | cathedral_thin/core.py:882-898 | one more attempt, the given ambiguity, and the next time at now plus the delay of the new count |
| SubmissionState.ValidatorState.NoteSubmissionSuccess | cathedral_thin/core.py:901-906 | the pending digest and its provenance become the confirmed ones and nothing is pending |
| Validator.ValidatorRunner.SubmitPending | cathedral_thin/validator.py:471-609 | the guards in order, the identity and authority checks, the submission and what is saved after each outcome |
| Validator.ValidatorRunner.SubmitToPeers | cathedral_thin/validator.py:521-588 | a vector whose UIDs or registrations changed is cancelled and saved; an unavailable read holds it; otherwise it is sent |
| Validator.RevokedExactlyWhenAuthorityLost | cathedral_thin/validator.py:415-456 | a pending vector is revoked exactly when every owner could be read and the accepted authority of some class is lost, whatever the mirrors of any class serve |
| Validator.ValidatorRunner.Transmit | cathedral_thin/validator.py:589-609 | the object does one submission and one save; `OutcomeIsRecorded` says what is saved after which reply |
| TickOutcomes.OutcomeIsRecorded | cathedral_thin/validator.py:589-609 | every submission of a tick is followed by one save: after success nothing is pending and the digest and provenance are confirmed; after anything else the vector is pending with one more attempt, and ambiguous exactly when submitting raised, or the reply was nothing, or had a place for a receipt but none and an error or extrinsic, or, without that place, said so itself |
| TickOutcomes.HeldUntilFlag | cathedral_thin/validator.py:481-609 | over every run, after a submission that may have landed and was saved as that, nothing is sent or saved until a process starts with the retry flag |
| TickOutcomes.DueExactly | cathedral_thin/validator.py:478-520 | a step rests unless the vector is due, and holds it when the membership cannot be read |
| TickOutcomes.UnboundSentExactly | cathedral_thin/validator.py:521-533 | an unbound due vector is sent exactly when its UIDs are still of its hotkeys, and cancelled otherwise |
| TickOutcomes.BoundSentExactly | cathedral_thin/validator.py:521-588 | a bound one also needs the registrations of its round to be the ones it is bound to |
| TickOutcomes.RefreshedSentExactly | cathedral_thin/validator.py:534-588 | checked against a fresh read it is sent, cancelled, held or left alone as that read says |
| TickOutcomes.RefreshedExactly | cathedral_thin/validator.py:536-576 | what a fresh read says |
| TickOutcomes.ClassesLoadedExactly | cathedral_thin/validator.py:387-469 | registrations are loaded exactly when every class that needs one has a known owner and mirrors that give one, and then just those, each from its own mirrors |
| TickOutcomes.AuthorityLostExactly | cathedral_thin/validator.py:424-446 | authority is lost when the subnet has another owner or the delegate is not listed under that owner |
| Validator.ValidatorRunner.AdvanceCheckpoints | cathedral_thin/validator.py:657-761 | each class is loaded against the checkpoint of the round start; a failing class keeps its own when there is a burn destination and ends the round when there is none |
| TickOutcomes.AdvancedExactly | cathedral_thin/validator.py:657-761 | a round goes on with a burn destination or when every class counts, and takes over the checkpoints of just the classes that count |
| Validator.ValidatorRunner.RunTick | cathedral_thin/validator.py:611-624 | a tick submits a pending vector or starts a round, with memory, file and record of effects as specified |
| Validator.ValidatorRunner.Evaluate | cathedral_thin/validator.py:625-842 | a round changes memory only after everything has been computed, and nothing at all in a dry run |
| TickOutcomes.RoundEvaluatedExactly | cathedral_thin/validator.py:614-624 | which ticks go on to a round |
| TickOutcomes.CompleteExactly | cathedral_thin/validator.py:625-842 | which rounds are made, and that a dry run only remembers its round |
| TickOutcomes.AveragesAre | cathedral_thin/validator.py:627-655 | the averages a round saves |
| Validator.ValidatorRunner.MarkAndSubmit | cathedral_thin/validator.py:843-872 | an empty vector only saves; otherwise the vector is marked, saved and only then submitted |
| TickOutcomes.RoundMarkedExactly | cathedral_thin/validator.py:843-872 | which vectors are marked, and every field of what is saved as pending |
| ValidatorRuns.SubmitKeeps | cathedral_thin/validator.py:471-609 | every effect of a submission step is safe, and memory and file stay in step |
| ValidatorRuns.EvaluateKeeps | cathedral_thin/validator.py:611-872 | every effect of a round is safe, and memory is never behind the file |
| ValidatorRuns.StartKeeps | cathedral_thin/core.py:670-796 | starting, creating and accepting a new configuration keep the log safe |
| ValidatorRuns.RunKeepsLog | cathedral_thin/validator.py:875-899 | every run of ticks, crashes after any effect, kills, restarts and configuration changes keeps the invariant |
| ValidatorSafety.EverySubmissionIsSafe | cathedral_thin/validator.py:506-588 | whenever weights are submitted the file holds exactly that vector under its digest, as its tick read the chain each UID is of its recorded hotkey and the registrations are those it is bound to, the retry is due and an ambiguous vector has the flag |
| ValidatorSafety.NoRoundWhilePending | cathedral_thin/validator.py:611-613 | while a vector is pending the file changes only in its retry fields, its removal or its confirmation |
| ValidatorSafety.ConfirmedOnlyBySuccess | cathedral_thin/core.py:901-906 | a digest is confirmed only directly after a successful submission of that vector |
| ValidatorSafety.EverySavedStateReloads | cathedral_thin/core.py:670-796 | every state any run saves passes all checks of loading and reloads equal |
| ValidatorSafety.OneVectorPerRound | cathedral_thin/validator.py:622-624 | two vectors made under one configuration belong to different rounds |
| ValidatorSafety.EveryRetryIsIdenticalAndDue | cathedral_thin/core.py:882-898 | until confirmed or cancelled every submission is the same vector, none before any time the file gave |
| ValidatorSafety.EqualDigestsEqualVectors | cathedral_thin/core.py:550-620 | with a collision-free hash two submissions of one digest agree on UIDs, hotkeys, bindings and twelve-digit weights |
| ValidatorSafety.ClassCheckpointNeverRollsBack | cathedral_thin/validator.py:657-761 | over every run a class's accepted epoch never goes back, keeps one report per epoch and links adjacent epochs |
| ValidatorSafety.AmbiguousStaysUntouched | cathedral_thin/validator.py:481-486 | after an ambiguous outcome nothing is sent or written, restarts included, until a start with the explicit retry flag |
| ValidatorSafety.DryRunNeverWrites | cathedral_thin/validator.py:493-505 | once it is up, a process that does not broadcast changes neither the file nor its state |
| ValidatorSafety.FailureSetsRetryTime | cathedral_thin/core.py:882-898 | a failing tick counts one attempt and sets the retry to its time plus the delay |
| ValidatorSafety.RetryWaitsItsDelay | cathedral_thin/validator.py:487-492 | after any tick that saves a failure, even one that then crashes, no retry in this or a later process comes before that tick plus the delay |
| ValidatorSafety.NewVectorIsItsRounds | cathedral_thin/validator.py:620-872 | a new vector is the one the tick computed for the round of the block read, that round is new, and its hotkeys are those the metagraph lists; RoundVectors says what the vector pays |
| ValidatorSafety.SubmissionIsAuthorized | cathedral_thin/validator.py:387-469 | what is submitted was checked against the metagraph just read, and each bound registration was served for its class, is by the owner the chain named for the source subnet of that class, and has a registered delegate |
| ValidatorSafety.CrashAfterSendingResends | cathedral_thin/validator.py:589-609 | a crash right after sending any vector, old or just made, leaves it in the file, and a restart sends it again at the first tick that could submit exactly when the file does not call it ambiguous or the flag is given: where the promise ends |
| ValidatorSafety.InterruptedTickWouldSend | cathedral_thin/validator.py:471-588 | when the crashed tick was sending a vector that was pending before it, the same tick taken again is one that could submit |
| ValidatorPaths.TickIsPath | cathedral_thin/validator.py:471-872 | a tick saves only a completed round, one more failure, a removal or a confirmation of the memory before it, sends only the pending vector, and ends in the memory its last save left |
| RoundVectors.RoundVector | cathedral_thin/validator.py:762-783 | a round has a vector unless its decisions do not compose, the chain library refuses, or, with external classes, alters a weight by more than 10^-6; the vector is the mapped shares of the composed weights, prepared by the library unless all is burnt |
| RoundVectors.EverySubmissionPaysItsRound | cathedral_thin/validator.py:762-872 | over every run, raised saves included, each submitted vector was computed by a tick of the run and pays exactly the hotkeys of that tick's metagraph with a composed weight their shares of what these weigh, each on its own UID: exactly without the chain library or when all is burnt, and within 10^-6 with external classes |
| RoundVectors.PaidInFull | cathedral_thin/validator.py:234-253 | when no paid hotkey is missing from the metagraph these shares are the composed weights themselves |
| RoundVectors.EveryPaidHotkeyHasEarned | cathedral_thin/validator.py:625-767 | over every run each hotkey a submitted vector pays is the burn destination of an empty class or has a positive weight in some class of its round, which in a local class means a positive observation in the very tick that made the vector |
| SaveFailures.SubmissionIsFiledExactlyUnlessSaveRaised | cathedral_thin/validator.py:875-899 | over every run in which saves may also raise, a submission is of exactly the vector in the file if and only if no save has raised since the last that succeeded, or since the process began |
| SaveFailures.PlainRunsAgree | cathedral_thin/validator.py:875-899 | without raised saves these runs are the plain ones: same process, same file |
| SaveFailureSafety.EverySubmissionIsSound | cathedral_thin/validator.py:506-588 | whether or not saves raise, what is submitted is under its own digest, of UIDs and registrations as its tick read them, due, and flagged if ambiguous, and every saved state passes all checks of loading |
| SaveFailureSafety.UnrecordedOutcomeResends | cathedral_thin/core.py:798-822 | in any such run, when the save of an outcome raises with no unmade-good raise before it and the process ends, a restart sends the vector again whatever the chain answered, a success included, exactly unless it was already called ambiguous and there is no flag: where the promise ends |
| SaveFailureRounds.OneVectorPerRoundUnlessBehind | cathedral_thin/validator.py:622-624 | under one configuration two vectors sent for one round are the same, as long as no start finds a file behind a vector already sent |
| SaveFailureRounds.BehindOnlyAfterALostSave | cathedral_thin/validator.py:875-899 | no start finds such a file unless the process before ended with a raised save that was not made good |
| SaveFailureRounds.RoundComesAgainExactlyWhenBehind | cathedral_thin/validator.py:622-624 | after a restart a tick that has a vector to make for its round makes it exactly when the file is behind that round: where the promise ends |
| SaveFailures.FailedSaveSendsUnsavedVector | cathedral_thin/validator.py:857-872 | after a raised save of a new vector the next submission of the same process is of a vector the file does not hold: where the promise ends |
| RegistrationRuns.TickIsOnwards | cathedral_thin/validator.py:657-846 | a tick's new registration checkpoint goes on from the old one and is the one in every state it saves |
| RegistrationRuns.SequenceNeverRollsBack | cathedral_thin/score_classes.py:794-819 | over any stretch of a run that sees one owner, the accepted sequence in the file never goes back, through crashes, restarts and configuration changes |
| Amounts.CanonicalRoundTrip | cathedral_thin/ml_receipts.py:170-184 | an amount renders exactly when its whole part has at most 30 digits, and what is rendered reads back to it |
| Amounts.AmountsReadExactly | cathedral_thin/ml_receipts.py:155-184 | an amount is one to thirty digits without a leading zero, and one to twelve after a point if there is one |
| Amounts.AmountReads | cathedral_thin/ml_receipts.py:155-184 | its value, digit by digit |
| Amounts.CanonicalIsShortest | cathedral_thin/ml_receipts.py:170-184 | a rendered amount ends neither in a point nor, after one, in a zero |
| Receipts.VerifyBundle | cathedral_thin/ml_receipts.py:1160-1307 | window, chain and list checks in order, then each receipt admitted or listed as rejected with its reason |
| Receipts.VerifiesExactly | cathedral_thin/ml_receipts.py:1160-1307 | when a bundle is accepted, to which checkpoint it leads, and which entries are admitted or refused |
| Receipts.SortedExactly | cathedral_thin/ml_receipts.py:1241-1297 | an entry is admitted exactly when it has facts, work within the limit, its request id and epoch, was completed by the time of the bundle and after the cutoff, and repeats no request admitted before it; any other is listed with the first of these it fails |
| Receipts.VerifiedIsAdmissible | cathedral_thin/ml_receipts.py:1241-1297 | admitted receipts are in the bundle, for its epoch, bound to their request, completed no later than it and, unless it was the accepted bundle already, later than the bundle before; no id or request occurs twice, and the rest are listed as rejected |
| Receipts.AcceptedEpochsAreConsecutive | cathedral_thin/ml_receipts.py:1205-1228 | over any run each successful verification is of the last accepted bundle again or of the next epoch, linked to it and later, so no epoch has two ids, is skipped or gone back to |
| Receipts.AgainTheSameExactlyUnlessLeftOut | cathedral_thin/ml_receipts.py:1274-1281 | a new bundle that verifies again gives the same receipts exactly when it left out no early entry whose request it had not admitted before |
| Receipts.WindowsDoNotOverlap | cathedral_thin/ml_receipts.py:1266-1284 | over any run, with every successful verification credited, receipts of different epochs were completed in disjoint windows exactly when no accepted bundle is verified again that had left such an entry out |
| Receipts.CreditedInTime | cathedral_thin/ml_receipts.py:1270-1273 | no receipt is credited that was completed after its bundle was generated |
| Receipts.ScoringAfterVerifyingOverreaches | cathedral_thin/ml_receipts.py:1274-1281 | verifying a bundle and verifying it again to score it can credit a receipt completed before the bundle of the epoch before: where the promise ends |
| Receipts.NoRequestCreditedTwice | cathedral_thin/ml_receipts.py:205-226 | given collision-free request ids no request is credited in two epochs, nor twice by one verification, repeated verifications included |
| Aggregation.AggregateReceipts | cathedral_thin/ml_receipts.py:1310-1354 | the in-place rows and the duplicate check compute the aggregate |
| Aggregation.AggregatedExactly | cathedral_thin/ml_receipts.py:1310-1354 | a repeated id or request and a total beyond the format are refused; otherwise the miners with attested receipts have their rows |
| Aggregation.RowCounts | cathedral_thin/ml_receipts.py:1324-1344 | a miner's row counts its attested receipts and adds up their work and tokens |
| Aggregation.RowLists | cathedral_thin/ml_receipts.py:1324-1344 | and lists just their ids, models, images and runners |
| Aggregation.OrderIsIrrelevant | cathedral_thin/ml_receipts.py:1310-1354 | the aggregate depends only on which receipts there are |
| Aggregation.CountersAreConserved | cathedral_thin/ml_receipts.py:1324-1344 | over all miners every counter adds up to exactly what the attested receipts bring |
| Aggregation.WorkIsConserved | cathedral_thin/ml_receipts.py:1338-1340 | attested work units are conserved exactly |
| Aggregation.VerifiedBundleAggregates | cathedral_thin/ml_receipts.py:730-731 | aggregating a verified bundle never fails: up to 4096 receipts of at most 10^12 units fit the canonical format, and each total reads back as the exact sum |
| PolicyLearner.GeneralizeExample | cathedral_thin/verified_policy.py:824-856 | one greedy pass over the features of an example |
| PolicyLearner.KeptExactly | cathedral_thin/verified_policy.py:829-846 | a feature is kept exactly when no other is left to ask for, or some example of another label agrees in every feature kept before it and every feature behind it |
| PolicyLearner.InducePolicy | cathedral_thin/verified_policy.py:819-879 | the distinct generalised examples as an ordered decision list with its default label |
| PolicyLearner.RulesAreTheCandidates | cathedral_thin/verified_policy.py:854-871 | the bodies of the rules are just the generalised examples |
| PolicyLearner.RulesDiffer | cathedral_thin/verified_policy.py:854-871 | no rule is listed twice, and they are numbered from one |
| PolicyLearner.FirstMatchDecides | cathedral_thin/verified_policy.py:812-816 | the prediction is the decision of the rule that matches with none matching before it, and the default when none does |
| PolicyLearner.BehindAMatch | cathedral_thin/verified_policy.py:812-816 | whatever stands behind a rule that matches changes no prediction |
| PolicyLearner.OnePassIsIrreducible | cathedral_thin/verified_policy.py:829-846 | after the one pass, dropping any of two or more conditions matches an example of another label |
| PolicyLearner.InducedRulesAreIrreducible | cathedral_thin/verified_policy.py:829-846 | so no rule of the induced list has a condition to spare, consistent examples or not |
| PolicyLearner.RightExactlyWhenConsistent | cathedral_thin/verified_policy.py:812-879 | the induced rules in any order predict every public example right exactly when no two examples share features and differ in label |
| PolicyLearner.SortedInOrder | cathedral_thin/verified_policy.py:860-867 | rules come rare decisions first, then shorter, then by canonical text |
| PolicyLearner.OrderedByRarityLengthText | cathedral_thin/verified_policy.py:860-867 | the same order, written out for any two rules |
| PolicyLearner.InducedUnlessTooManyRules | cathedral_thin/verified_policy.py:655-710 | the learner produces a valid artifact exactly when it finds at most 1024 distinct rules |
| PolicyLearner.DefaultIsMostFrequent | cathedral_thin/verified_policy.py:872-873 | no label is more frequent than the default, and no equally frequent one sorts before it |
| PolicyEvaluation.EvaluatePolicy | cathedral_thin/verified_policy.py:968-1040 | the counting loops compute the evaluation that `EvaluatedExactly` and the laws of its metrics spell out |
| PolicyEvaluation.EvaluatedExactly | cathedral_thin/verified_policy.py:882-1040 | which suites are scored, and what the document says |
| PolicyEvaluation.ResultsAreCases | cathedral_thin/verified_policy.py:974-990 | one result a case: its id, the prediction, and whether that is its label |
| PolicyEvaluation.RecallIsShare | cathedral_thin/verified_policy.py:991-1000 | a recall times the cases of its label is the number of them that are right |
| PolicyEvaluation.MeanRecallIsMean | cathedral_thin/verified_policy.py:991-1000 | a mean recall times the number of labels is the sum of their recalls |
| PolicyEvaluation.CompactnessIsShareLeft | cathedral_thin/verified_policy.py:1001-1003 | compactness times the allowed terms is what rules and conditions leave of them, or nothing |
| PolicyEvaluation.EvidenceFaithfulness | cathedral_thin/verified_policy.py:912-927 | the share of rules whose cited examples all exist, match and have the decision |
| PolicyEvaluation.FaithfulnessIsShare | cathedral_thin/verified_policy.py:912-927 | faithfulness times the number of rules is the number of supported ones |
| PolicyEvaluation.SupportedExactly | cathedral_thin/verified_policy.py:915-925 | a rule is supported exactly when it names examples and each of them exists, has its decision and matches it |
| PolicyEvaluation.MeanRecallInUnit | cathedral_thin/verified_policy.py:991-1000 | a mean recall is in [0, 1] and is 1 exactly when every case of its labels is right |
| PolicyEvaluation.PerfectExactlyWhenAllRight | cathedral_thin/verified_policy.py:991-996 | balanced accuracy is 1 exactly when every hidden case is right |
| PolicyEvaluation.RuleFreeBalancedAccuracy | cathedral_thin/verified_policy.py:991-996 | a policy without rules gets exactly one over the number of labels, whatever the mix of cases |
| PolicyEvaluation.ScoresInUnit | cathedral_thin/verified_policy.py:1001-1018 | every metric lies in [0, 1] |
| PolicyEvaluation.FloorsZeroTheRest | cathedral_thin/verified_policy.py:1006-1009 | below either floor rare recall, faithfulness and compactness are zero, and otherwise they are what was measured |
| PolicyEvaluation.InducedIsFaithful | cathedral_thin/verified_policy.py:912-927 | evidence faithfulness of the reference learner is exactly 1 |
| PolicyEvaluation.ReplayAcceptsExactlyTheEvaluation | cathedral_thin/verified_policy.py:1129-1162 | whatever the evaluator produces can be signed, and replay accepts that document under its own id and no other |
| RoundCaches.RoundCache.ReserveRound | cathedral_thin/miner.py:145-163 | a known key is moved to the end and answered from what it holds; a new one is reserved and the oldest are dropped |
| RoundCaches.RoundCache.CompleteRound | cathedral_thin/miner.py:165-172 | the response is stored under the key, which moves to the end, and the oldest are dropped |
| RoundCaches.KeysAreTheMostRecent | cathedral_thin/miner.py:145-172 | after any calls the keys are the last N distinct keys touched, in order, and never more than N |
| RoundCaches.HeldUntilEnoughOthers | cathedral_thin/miner.py:145-172 | a key is held exactly when it was touched and fewer than N distinct others have been touched since |
| RoundCaches.RepeatGetsStoredResponse | cathedral_thin/miner.py:150-159 | while a completed round stays, the same formula gets the stored response verbatim and another is refused |
| RoundCaches.NoSecondStartWhileSolving | cathedral_thin/miner.py:150-155 | while a round being solved stays, further requests for it are refused |
| RoundCaches.SecondStartNeedsEviction | cathedral_thin/miner.py:160-163 | two solver starts for one caller and round have at least N other keys touched in between |
| RoundCaches.ReservedExactlyWhenForgotten | cathedral_thin/miner.py:145-172 | a solver is started exactly for a key never touched or with at least N distinct others touched since |
| RoundCaches.EvictionForgetsReservation | cathedral_thin/miner.py:160-163 | eviction does forget a round still being solved: where the promise ends |
| RateLimiter.PermitAccess.RefreshPreservingSnapshot | cathedral_thin/miner.py:271-296 | a complete read replaces the permits and drops the times of callers without one; a mismatched one changes nothing |
| RateLimiter.RefreshedExactly | cathedral_thin/miner.py:271-296 | which hotkeys and times are left after a refresh |
| RateLimiter.PermitAccess.IsRateLimited | cathedral_thin/miner.py:298-308 | old times are dropped, and the call is refused when the limit is left, else recorded |
| RateLimiter.PermitAccess.Blacklist | cathedral_thin/miner.py:310-320 | the reasons for refusal in order |
| RateLimiter.AskedExactly | cathedral_thin/miner.py:298-320 | which call gets which answer, which times are dropped and which is recorded |
| RateLimiter.RefusedExactlyAtLimit | cathedral_thin/miner.py:298-308 | with a clock that does not go back a permitted call is refused exactly when the limit of accepted calls since the caller last lacked a permit lies in the window |
| RateLimiter.EveryWindowWithinLimit | cathedral_thin/miner.py:298-308 | every window (t - w, t] holds at most the limit of such calls, although old times are discarded |
| RateLimiter.StayingPermittedRemembersAll | cathedral_thin/miner.py:271-284 | for a caller no refresh drops, these are all its accepted calls |
| RateLimiter.DroppedCallerStartsAfresh | cathedral_thin/miner.py:271-284 | a refresh that drops a caller forgets its calls: with refreshes less than a window apart, dropping and permitting it again lets one call more than the limit into a window |
| RateLimiter.LimitHoldsExactlyWhenRefreshesAreSpaced | cathedral_thin/miner.py:271-308 | every caller of every run stays within the limit in every window exactly when refreshes are at least a window apart |
| RateLimiter.RefreshSettingKeepsLimit | cathedral_thin/miner.py:432-437 | with the 60 s window and the loop that sleeps at least 30 s, the limit holds exactly when the refresh setting is at least 60 s |

## Left out

- Rounding: the nine-digit scores, twelve-digit metrics and 28-digit decimal contexts are exact reals here; only the digit bound of aggregated amounts is modelled.
- Collapse.ColdkeyCollapsedWeights: exact arithmetic only, so the float tolerance of the final renormalisation is not modelled; nor are the checks for infinities and not-a-number in the weight functions.
- RandomStream.HashRng.RandBelow: assumes a fair stream, since an unfair one would make the loop run for ever.
- RandomStream.HashRng.Fill: does not model the overflow of the eight-byte block counter.
- Dimacs.ParseDimacsStrict: ASCII text only, and without Python's limit of 4300 digits on integers.
- SolverOutput.ParseModel: ASCII text only; running the solver, its time limit and its exit status are not modelled.
- Challenges.BuildChallenge: base64, zlib, JSON and the hashes are parameters with the round trips they promise.
- Receipts.VerifyBundle: a receipt's form, signatures and attestation are one given outcome; the network and netuid are fixed; the bundle id is taken as matching its body, and in runs as naming the time it was generated at.
- Aggregation.AggregateReceipts: rows keep sets of distinct ids and digests where the source keeps sorted lists of them.
- PolicyEvaluation.EvaluatePolicy: the suite commitment, its JSON form and the binding of an execution receipt are taken as checked; scores are not rendered.
- PolicyLearner.InducePolicy: the canonical JSON text of a rule is a parameter, used only to break ties in the order; identifiers are not checked against their pattern.
- Validator.ValidatorRunner.Evaluate: classes are loaded one after the other, once every authority has been tested; the queries to miners and what the chain library makes of a vector are inputs, and a raise before the state changes is an absent vector.
- ValidatorRuns.RunKeepsLog: a save either happens or ends the process; runs in which one raises and the loop carries on are those of `SaveFailures`.
- SaveFailures.SubmissionIsFiledExactlyUnlessSaveRaised: the digest of a round's decision document is taken to name the round, which the document contains; a start whose own save raises is no start.
- RoundVectors.EverySubmissionPaysItsRound: says nothing of what is paid where the chain library prepares the vector of a policy without external classes, since the source accepts whatever it returns.
- The state file is one cell: locking, temporary files, flushing and permissions are not modelled, nor is the decision record written beside it.
- RoundCaches.RoundCache.ReserveRound: the lock makes each call one step; scheduling within a call, the solver run between a reservation and its completion, and the concurrency limit on solvers are not modelled.
- RateLimiter.PermitAccess.IsRateLimited: reading the clock and taking the lock are one step.
- Composition.ComposeClassDecisions: parsing of the policy file is not modelled beyond what it guarantees of classes and allocations.
- `build_bundle`, the report bodies made from bundles and evaluations, `evaluate_peers`, the chain wrappers, HTTP fetching, the command lines, the smoke scripts, `game/`, `scaffold/` and the board: plumbing, or weaker forms of what is modelled.

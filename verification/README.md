# Verified models of the AI workflow control plane

A Dafny 4.11 project that models the algorithms and protocols of the Python
control plane in `ai_workflow/` and proves what they are for. One module models
one source file or one concern of it; `dafny verify dfyconfig.toml` checks all of
them together.

## What is modelled

- **Context selection** (`Coverage`, `SelectorCandidates`, `LazySelection`,
  `ContextSelection`, `GreedyGuarantee`). The facility-location objective, the
  mutated coverage list, deduplication and bounding, the mandatory pass, and the
  lazy heap with stale bounds. The heap loop is proved to yield the very sequence
  of eager greedy; eager greedy is proved to close the share cost/budget of the
  gap to any affordable alternative at each step.
- **Incremental index** (`Indexer`, `IndexCrash`, `IndexRefinement`). An index directory whose three
  files are rewritten by full and incremental runs, compared with a fresh full
  build, and a step machine of concurrent runs, file edits and crashes between the
  publishes, with `row_fresh` as the read-side guard; an undisturbed run of the step
  machine is proved to be a whole run.
- **Rollout** (`Rollout`, `StateLock`). The signed deployment state, its exact
  fault list, the staged transitions over whole rollouts, and the directory lock as
  interleaved steps of any number of processes that may die at any moment.
- **Ranking metrics** (`Discounts`, `Relevance`, `PatternRanking`, `Spans`). Graded
  DCG against the ideal for every positive non-increasing discount, the position
  assignment of pattern matches, and the interval-merging line counts.
- **Calibration** (`Calibration`, `CostRounding`). Thresholds from a finite candidate
  list compared with the continuum, the six-digit rounding of the report, and the unit
  costs for which choosing by rounded cost is choosing by true cost.
- **Capability gate** (`CapabilityGate`). Two bounded traversals of one parameter
  tree with their shared counters, and the decision built on them.
- **Replay journal** (`RunJournal`). Hash-chained events, building and verifying.
- **Managed text block** (`ManagedBlock`), **bounded pipe readers**
  (`StreamReaders`), **rank fusion** (`RankFusion`, `MarginalRelevance`),
  **exploration and off-policy estimates** (`Exploration`, `OffPolicy`).

`Wrappers`, `Orders`, `Products` and `Text` hold what several modules share: optional
values and results, Python's stable `sorted` and string order, monotone products, and
`str.strip`.

## How the source is represented

Python loops that update variables are methods with invariants, and objects that
are updated in place are classes or arrays; each such method is proved against a
function, and what the source promises is proved of that function. Floats are
exact reals. SHA-256 and HMAC are datatype constructors, so distinct inputs have
distinct digests. The logarithmic discount is a parameter: any positive
non-increasing function. Clocks, random points, file contents, probes of other
processes and the choices of the scheduler are parameters or actions. Parsers,
tokenizers, the gate's key tables and its path test, and whether a request has a JSON
text are parameters too.

Recursive definitions are specifications of loops; where the source itself
recurses (the gate's traversals) the model recurses.

A definition that contracts rest on has a law of its own, on plain fields and numbers
(`...Exactly`, `...Means`, `...AddsUp`), so that a contract can be read without it.

## Where a promise needs a condition

Each of these is a lemma that gives the exact condition, with a run or input that
does not meet it.

- A stat-reusing incremental run equals a full build exactly when no trusted file
  changed its bytes under an unchanged size and time, alone and at the end of any
  history of runs (`Indexer.RebuildMatchesFullBuild`, `Indexer.HistoryMatchesFullBuild`,
  `Indexer.DisguisedEditIsMissed`).
- A crash between the publishes followed by a revert leaves rows that no strict
  run repairs; they are never served (`Indexer.RebuildRepairsExactly`,
  `Indexer.StaleRowsStay`, `IndexCrash.CrashThenRevertServesNothing`).
- A run hashes a file and reads it again to parse it. A parse that finds something
  which the hashed bytes do not contain can be continued, harmlessly and with a revert,
  until the guard serves a wrong row; no other step can (`IndexCrash.HarmlessExactly`,
  `IndexCrash.TornParseIsServed`).
- The staleness check and the rename of the lock are separate calls. A rename is
  safe exactly when nobody holds the lock at that moment, and a whole run exactly when
  all its renames are; two recoverers can both enter (`StateLock.AlwaysSafeExactly`,
  `StateLock.RenameKeepsExclusionExactly`, `StateLock.TwoRecoverersBothEnter`).
- Candidate thresholds stand for all real thresholds exactly when no score reaches
  1, and on all rows with given scores the choice is the cheapest report of any real
  threshold exactly then, or if accepting is free (`Calibration.CandidatesCoverAllExactly`,
  `CostRounding.CheapestEverywhereExactly`, `Calibration.ScoreOfOneIsNotCovered`).
- The cheapest report, whose cost is rounded to six digits, belongs to the truly
  cheapest threshold up to 1 on all data exactly for unit costs that the six digits
  resolve; the default costs are such (`CostRounding.CheapestExactly`,
  `CostRounding.InvisibleCost`).
- The two line counts of a span report differ when spans overlap; they agree with
  the pairwise count exactly without double hits (`Spans.GoldLinesAreExact`,
  `Spans.RetrievedLinesAreExact`, `Spans.DoubleSpanCountsTwice`).
- Installing the managed block raises exactly when its one end marker precedes its
  one begin marker; other wrong marker counts leave the file as it is
  (`ManagedBlock.RaisesExactly`, `ManagedBlock.SwappedMarkersRaise`).
- A tail reader calls a stream of just its limit truncated exactly when it came as
  one chunk, and with a limit of 0 would keep the last chunk
  (`StreamReaders.TruncatedMeans`, `StreamReaders.ChunkingDecides`,
  `StreamReaders.BoundedTailReader`).
- The head digest of a replay chain covers the stripped kind, the position and the
  payload of each event, not the kind as stored, nor the spelling of the sequence
  number (1, 1.0, true), nor foreign keys. Equal heads mean identical events exactly
  up to these, and among journals as the builder writes them without exception; the
  journal digest covers the whole record (`RunJournal.HeadDecidesHistory`,
  `RunJournal.HeadNamesPlainChain`, `RunJournal.HeadMissesDecoration`).
- The doubly robust score is unbiased exactly when the target arm has mass or the
  model is right about it; rows for which neither holds are not used, since the
  target falls back to the baseline (`OffPolicy.DoublyRobustIsUnbiased`,
  `OffPolicy.BiasedWithoutMass`, `OffPolicy.TargetActionHasMass`).
- An arm other than the baseline goes unlogged exactly when a followed deployment
  assignment for it has the mode "off"; the assignments that `deployment_runtime.py`
  writes (lines 101 and 338) have the mode "canary", so none of them does
  (`Exploration.PrepareLearningDecision`, `Exploration.SilencingAssignment`).

## Model

| member | source | states |
|---|---|---|
| `Coverage.CoverageIsMaximum` | ai_workflow/context_selection.py:88-96 | After any choices, coverage[i] is the largest r_i·sim(i,j) over the chosen j, or 0 when nothing represents row i |
| `Coverage.WeightIsProportional` | ai_workflow/context_selection.py:71-96 | A fully relevant row is represented by the similarity of the token sets, any other in proportion to its relevance |
| `Coverage.ObjectiveAddsUp` | ai_workflow/context_selection.py:71-96 | F is the sum over the rows of how well each is represented, and 0 without rows |
| `Coverage.TotalCostAddsUp` | ai_workflow/context_selection.py:71-72 | The total cost in the active unit is the sum of the costs |
| `Coverage.GainIsMarginal` | ai_workflow/context_selection.py:75-85 | `_gain` equals F(S+c) − F(S), with F the sum of best representations |
| `Coverage.GainShrinks` | ai_workflow/context_selection.py:75-85 | Submodularity: the gain of a candidate is non-negative and does not grow when coverage grows |
| `Coverage.CoverageGrows` | ai_workflow/context_selection.py:88-96 | Coverage and F depend only on which candidates are chosen, and grow with that set |
| `Coverage.UnionBound` | ai_workflow/context_selection.py:75-96 | F(S with O) − F(S) is at most the sum of the single gains of the members of O |
| `Coverage.ChosenGainsNothing` | ai_workflow/context_selection.py:75-96 | A chosen candidate gains nothing a second time |
| `SelectorCandidates.Dedupe` | ai_workflow/context_selection.py:28-37 | The loop computes the recursive definition of deduplication |
| `SelectorCandidates.DedupedKeepsFirsts` | ai_workflow/context_selection.py:28-37 | What is kept is exactly the first item of every key, in input order |
| `SelectorCandidates.CandidateRowsAreSound` | ai_workflow/context_selection.py:40-68 | Built rows have distinct keys, positive costs, and relevance in [0, 1] |
| `SelectorCandidates.RowMeans` | ai_workflow/context_selection.py:40-68 | A row on the fields of its item: costs of at least 1, and the smaller of 1 and 0.65·score/best + 0.35·similarity to the query, negative scores counting 0, best being the highest score or 1 when none is positive |
| `SelectorCandidates.BoundedKeepsMandatory` | ai_workflow/context_selection.py:99-119 | Up to the limit nothing is dropped; beyond it every row of a mandatory source is kept, no row is added, and exactly as many rows as the limit stay unless the mandatory ones alone exceed it |
| `SelectorCandidates.BoundedDropsTheWorst` | ai_workflow/context_selection.py:99-119 | A dropped optional row ranks behind every optional row that is kept |
| `Orders.SortIsStable` | ai_workflow/context_selection.py:108-118 | Python’s `sorted`: elements that tie keep their order |
| `Orders.FirstDifferenceDecides` | ai_workflow/context_selection.py:108-118 | String order: the first difference decides, and a proper prefix comes first |
| `LazySelection.BestIsUnique` | ai_workflow/context_selection.py:244-264 | With distinct keys, highest gain per cost with ties to the smaller key names at most one candidate |
| `LazySelection.FreshTopIsBest` | ai_workflow/context_selection.py:234-263 | The popped entry, when fresh and fitting, is the eager choice although all other bounds may be stale |
| `LazySelection.Turn` | ai_workflow/context_selection.py:248-264 | One turn of the heap loop keeps the invariant and shrinks (heap size, stale entries) lexicographically, or stops with the eager run complete |
| `LazySelection.LazyGreedy` | ai_workflow/context_selection.py:234-264 | The lazy heap selects exactly the sequence of eager greedy: best fitting gain/cost, ties to the smaller key, stopping when nothing fits or gains |
| `ContextSelection.TakeFittingKeeps` | ai_workflow/context_selection.py:183-232 | The take-if-it-fits pass stays in budget, extends what was chosen, and skips a row only if it does not fit |
| `ContextSelection.MandatoryPass` | ai_workflow/context_selection.py:194-206 | The mandatory loop, with its running totals, takes the mandatory rows that fit in row order |
| `ContextSelection.SelectContext` | ai_workflow/context_selection.py:122-279 | The whole call, in the budgets as given: which mode runs; totals within each budget that is positive and 0 otherwise; every row at most once; a row is left out only if it would pass a budget or, in facility-location mode, represent nothing better; the mandatory rows that fit come first, and no choice is worse than another row that was open |
| `ContextSelection.SelectionIsMaximal` | ai_workflow/context_selection.py:201-264 | Every selection is in budget, begins with the mandatory pass, and leaves a row out only if it does not fit or would represent nothing better |
| `ContextSelection.FacilityPick` | ai_workflow/context_selection.py:235-264 | In facility-location mode every pick raises the objective, by more per unit of active cost than any other row that still fits, or by as much and with the smaller key |
| `ContextSelection.RelevancePick` | ai_workflow/context_selection.py:215-232 | In relevance mode every pick is first, by relevance, cost, source and key, of the rows that still fit |
| `ContextSelection.MandatoryPick` | ai_workflow/context_selection.py:201-206 | The mandatory pass takes in row order whatever still fits |
| `GreedyGuarantee.GreedyStepGuarantee` | README.md:86-94 | A greedy step of cost c within budget B closes at least the share c/B of the gap to any affordable choice still in reach |
| `GreedyGuarantee.GreedyRunGuarantee` | ai_workflow/context_selection.py:235-264 | k steps leave open at most the product of (1 − c/B) of the initial gap |
| `GreedyGuarantee.GreedyStopIsOptimal` | ai_workflow/context_selection.py:260-261 | Where the run stops, no choice still in reach has a larger objective |
| `GreedyGuarantee.GreedyAgainstAny` | ai_workflow/context_selection.py:235-264 | Against every affordable choice the final selection is at least as good, or after some k steps a member of the choice no longer fits and the gap was down to its open share |
| `GreedyGuarantee.EagerStaysInBudget` | ai_workflow/context_selection.py:183-193 | Greedy never leaves the character and token ceilings |
| `Indexer.IndexDirectory.BuildIndexes` | ai_workflow/indexer.py:249-268 | A full build leaves exactly the rows and digests of the files, and counts them |
| `Indexer.IndexDirectory.Inspect` | ai_workflow/indexer.py:324-346 | One file: its digest is trusted exactly when not strict and both size and modification time are the recorded ones, and hashed otherwise; unchanged exactly when the digest it ends with is the recorded one |
| `Indexer.IndexDirectory.IncrementalIndexes` | ai_workflow/indexer.py:297-366 | An incremental run keeps the rows of unchanged files and parses the changed ones; it hashes exactly the files that are new or differ in size or time, or all when strict; the counts of changed, removed, skipped, reused and hashed files are exact |
| `Indexer.RebuildKeepsConsistency` | ai_workflow/indexer.py:297-366 | An incremental run in either mode keeps stored rows and state in step |
| `Indexer.RebuildMatchesFullBuild` | ai_workflow/indexer.py:59-66 | From a consistent store an incremental run equals a full build exactly when no trusted file changed its bytes; with strict hashing always |
| `Indexer.VisibleEditsAreIndexed` | ai_workflow/indexer.py:59-66 | If every file whose bytes are not the recorded ones also differs in size or in time, a run in either mode ends up to date |
| `Indexer.UpToDateMeans` | ai_workflow/indexer.py:249-268 | An up-to-date store holds exactly the rows the parsers find in the files as they are, with their digests, and the guard serves every one of them |
| `Indexer.GuardExactly` | ai_workflow/indexer.py:280-294 | The guard serves a row exactly when its file is there and recorded, and the digest of the bytes, the recorded one and the one of the row are the same |
| `Indexer.DisguisedEditIsMissed` | ai_workflow/indexer.py:59-66 | A file that goes from "a" to "b" with one size and time keeps its rows in a stat-reusing run, and the store is no longer what a full build gives |
| `Indexer.FirstRunIsFullBuild` | ai_workflow/indexer.py:297-366 | Over the empty store an incremental run in either mode leaves what a full build would |
| `Indexer.RebuildRepairsExactly` | ai_workflow/indexer.py:297-366 | From any store, a strict run leaves a file current exactly when it was new, differed from its digest, or was current before |
| `Indexer.CrashThenRevertHidesRows` | ai_workflow/indexer.py:348-366 | Rows of either kind that a crash left with another digest than the state records are kept by a strict run over the reverted file, and none of them is served |
| `Indexer.StaleRowsStay` | ai_workflow/indexer.py:297-366 | After any number of strict runs that see the recorded bytes at a file, the stale rows of that file are still there and none has been served |
| `Indexer.UpToDateStoresAgree` | ai_workflow/indexer.py:249-268 | Two up-to-date stores hold the same rows as multisets, and the same digests |
| `Indexer.HistoryMatchesFullBuild` | ai_workflow/indexer.py:297-366 | After any history of full and incremental runs in either mode, from any consistent store, the last store is that of a full build exactly when the last run is full or trusts no file whose bytes differ from its recorded digest |
| `Indexer.IncrementalEqualsFull` | ai_workflow/indexer.py:297-366 | So a history of edits, adds and deletes that ends with a full or strict run ends with the rows and digests of a fresh full build |
| `IndexCrash.StepKeepsSound` | ai_workflow/indexer.py:265-267 | Every step of concurrent runs, edits and crashes keeps all tagged rows true to the bytes of their digest, unless a parse finds something that the hashed bytes do not contain |
| `IndexCrash.ServedRowsAreCurrent` | ai_workflow/indexer.py:280-294 | In every run without such a parse, every stored row that `row_fresh` accepts, with the stored state or any other the caller holds, is a row of parsing the file as it is now |
| `IndexCrash.ParseStepIsSoundExactly` | ai_workflow/indexer.py:212-237 | A parse step keeps all stored and pending rows true exactly when it yields no row that the hashed bytes would not yield |
| `IndexCrash.HarmlessExactly` | ai_workflow/indexer.py:212-294 | From every world reached without such a parse: a step can be continued, again without such a parse, until a wrong row is served, exactly when it is such a parse itself |
| `IndexCrash.TornParseIsServed` | ai_workflow/indexer.py:212-237 | A concrete run in which an edit falls between hashing and parsing, and is reverted, serves a row of the edited text |
| `IndexCrash.CrashThenRevertServesNothing` | ai_workflow/indexer.py:280-366 | For any two texts of a file, the trace full run, edit, incremental run that dies before it publishes the state, revert, any number of strict runs is legal and ends in a store with the rows of the other text, none of which is served |
| `IndexRefinement.UndisturbedRun` | ai_workflow/indexer.py:249-366 | In the step machine, a run that nobody disturbs and that passes over no file makes of the store what the whole-run relations say: the rebuild of its mode, or the full index, whatever other runs do beside it without publishing |
| `Text.StripCutsMargins` | ai_workflow/deployment_state.py:419-420 | `str.strip`: the text between two margins of whitespace that are as wide as they can be |
| `Text.SpacesAreListed` | ai_workflow/deployment_state.py:419-420 | What counts as whitespace, code point by code point |
| `Rollout.VerifySignature` | ai_workflow/deployment_state.py:102-126 | The signature check reports exactly the signature faults present |
| `Rollout.VerifyDeploymentState` | ai_workflow/deployment_state.py:334-403 | The error list names exactly the faults present, and is empty exactly on valid states |
| `Rollout.FaultsMean` | ai_workflow/deployment_state.py:334-403 | What each fault says, on the fields of the state |
| `Rollout.ValidExactly` | ai_workflow/deployment_state.py:334-403 | The valid states, written out on the fields: keys, signature, stage and its share of the traffic, generation, ladder of the history, manifest and its links |
| `Rollout.TransitionDeploymentState` | ai_workflow/deployment_state.py:406-497 | The step-by-step update computes the transition function: same refusals, same new state |
| `Rollout.AcceptedExactly` | ai_workflow/deployment_state.py:406-497 | From a sound state a request is accepted exactly when the actor is named, the state not rolled back, and it is a rollback or goes to the next rung with, from a live stage, a safe report on this policy, generation and stage |
| `Rollout.AcceptedState` | ai_workflow/deployment_state.py:448-497 | What an accepted request makes: stage, share of traffic, one generation more, one entry more, signed with the key |
| `Rollout.RefusedFor` | ai_workflow/deployment_state.py:406-452 | Each error exactly under its condition |
| `Rollout.CreateIsSound` | ai_workflow/deployment_state.py:195-331 | A created state verifies, has generation 1 and a one-entry linked history |
| `Rollout.CreatedExactly` | ai_workflow/deployment_state.py:195-331 | A state is created exactly from an eligible shadow report and usable guardrails, with a named actor |
| `Rollout.TransitionKeepsSound` | ai_workflow/deployment_state.py:406-497 | Every accepted transition keeps verification, generation = history length, and the linked history |
| `Rollout.RolloutIsSound` | ai_workflow/deployment_state.py:406-497 | Every state of a rollout is sound, its generation is its position, and histories only grow |
| `Rollout.HistoryClimbs` | ai_workflow/deployment_state.py:37-49 | A history advances one stage at a time; only its last entry can be a rollback |
| `Rollout.RolloutIsBounded` | ai_workflow/deployment_state.py:133-137 | A rollout has at most six states and never sends more than 0.25 of the traffic |
| `Rollout.TrafficRises` | ai_workflow/deployment_state.py:133-137 | A promotion strictly raises the traffic; a rollback sets it to zero |
| `Rollout.RolledBackIsAbsorbing` | ai_workflow/deployment_state.py:406-497 | No transition leaves `rolled_back` |
| `Rollout.ReportsAreNotReused` | ai_workflow/deployment_state.py:406-497 | No guardrail report justifies two promotions |
| `Rollout.ValidMeansSigned` | ai_workflow/deployment_state.py:83-126 | A valid state is its payload signed with the key |
| `StateLock.StepKeepsSafe` | ai_workflow/deployment_state.py:538-597 | With the staleness check and rename as one step and holders in time, every step keeps at most one holder, who owns the directory |
| `StateLock.MutualExclusion` | ai_workflow/deployment_state.py:565-597 | The same over every interleaving of acquire, recover, crash and token-checked release |
| `StateLock.AlwaysSafeExactly` | ai_workflow/deployment_state.py:538-597 | Over every interleaving with timely holders, the lock is safe after each step exactly when no rename takes an existing lock from a holder |
| `StateLock.RenameIsSafeExactly` | ai_workflow/deployment_state.py:538-557 | A rename keeps the ownership of the lock exactly when nobody holds it at that moment |
| `StateLock.RenameKeepsExclusionExactly` | ai_workflow/deployment_state.py:538-597 | After a rename and the next mkdir of the same process, at most one process is inside exactly when nobody held the lock |
| `StateLock.NoUpdateIsLost` | ai_workflow/deployment_state.py:627-683 | Stored histories are prefixes of one another and each generation is written at most once |
| `StateLock.UpdateWritesExactly` | ai_workflow/deployment_state.py:643-683 | An update changes the file exactly when the state it loaded is valid, the expected generation, if one is given, is that of this state, and the request is acceptable |
| `StateLock.ExpectedIsStored` | ai_workflow/deployment_state.py:656-662 | In a safe run, an update with an expected generation that changes the file finds just that generation stored |
| `StateLock.OneUpdatePerGeneration` | ai_workflow/deployment_state.py:643-683 | Of two updates in one run that expect the same generation at most one changes the file |
| `StateLock.AttemptMeans` | ai_workflow/deployment_state.py:538-557 | A free lock is taken with the token of its process; a lock that exists is spared by mkdir, and judged stale exactly when it is over 300 seconds old and its owner is unknown, dead or beyond probing |
| `StateLock.ExpectedRollbackWrites` | ai_workflow/deployment_state.py:643-683 | A rollback by a named actor that expects no generation or the stored one ends with the rolled-back state in the file, one generation on |
| `StateLock.FileStepsMean` | ai_workflow/deployment_state.py:627-683 | Loading leaves the file alone and hands its state on, or lets go of the lock when there is none; a new state is written only if it is valid, and only where there is none |
| `StateLock.ReleaseFreesLock` | ai_workflow/deployment_state.py:585-597 | A holder whose token is still in the lock releases it: the lock is free and the holder idle |
| `StateLock.ForeignLockIsSpared` | ai_workflow/deployment_state.py:585-597 | A release leaves a lock with another token alone |
| `StateLock.TwoRecoverersBothEnter` | ai_workflow/deployment_state.py:539-557 | Two recoverers that judge one lock stale before either renames it can both end up inside, each within its lease |
| `StateLock.AbandonedLockIsRecovered` | ai_workflow/deployment_state.py:538-597 | An abandoned lock, whatever left it, can be acquired by any idle process once its lease has run out, and is safe then |
| `Discounts.PrefixesDecide` | ai_workflow/benchmark_relevance.py:87-94 | For any positive non-increasing discount, larger prefix totals give a larger discounted sum, by at least the last discount times the surplus |
| `Discounts.EqualDcgMeansEqualGains` | ai_workflow/benchmark_relevance.py:87-94 | For a strictly falling discount, equal sums force equal gains |
| `Discounts.IdealDominates` | ai_workflow/benchmark_relevance.py:96-100 | A list whose positive values are part of a descending list has no larger prefix totals |
| `Relevance.RankFiles` | ai_workflow/benchmark_relevance.py:38-48 | The ranking loop yields the distinct files in order of first sight, all of them or the first k |
| `Relevance.LastRoleWins` | ai_workflow/benchmark_relevance.py:25-30 | A file has a role exactly if some row with a known role names it; the last such row decides |
| `Relevance.PlacesEarn` | ai_workflow/benchmark_relevance.py:87-94 | Each place of the ranking earns its discount three times for an edit target, once for a supporting file, and not at all for any other |
| `Relevance.GainsInCounts` | ai_workflow/benchmark_relevance.py:102-107 | Gains add up to 2 for every edit target and 1 for every supporting file |
| `Relevance.RecallMeans` | ai_workflow/benchmark_relevance.py:66-75 | The recall of a role is the share of its files that are ranked, and none when no file has it |
| `Relevance.WeightedInCounts` | ai_workflow/benchmark_relevance.py:102-125 | Weighted recall is the same share with weight 2 for edit targets and 1 for supporting files |
| `Relevance.IdealIsReached` | ai_workflow/benchmark_relevance.py:95-100 | The ideal DCG is the DCG of a ranking within the cutoff |
| `Relevance.GradedScore` | ai_workflow/benchmark_relevance.py:87-129 | DCG lies between 0 and the ideal DCG, and nDCG, when there is a role at all, is their quotient |
| `Relevance.WeightedRecall` | ai_workflow/benchmark_relevance.py:102-125 | Weighted recall is the ranked share of all gains, and is 1 exactly when every file with a role is ranked |
| `Relevance.RoleAwareFileMetrics` | ai_workflow/benchmark_relevance.py:16-146 | The whole report: none exactly without rows and distractors, otherwise DCG, ideal, nDCG and the three recalls as defined on the distinct ranking |
| `Relevance.DcgBelowIdeal` | ai_workflow/benchmark_relevance.py:87-100 | Graded DCG never exceeds ideal DCG, for every positive non-increasing discount |
| `Relevance.PerfectExactlyWhenIdeal` | ai_workflow/benchmark_relevance.py:87-129 | For a strictly falling discount nDCG is 1 exactly when the ranked gains are the ideal gains |
| `Relevance.IdealIsPositive` | ai_workflow/benchmark_relevance.py:97-101 | The ideal DCG is positive exactly when some file has a role |
| `Relevance.WeightedRecallIsExact` | ai_workflow/benchmark_relevance.py:102-125 | Matched gain equals total gain exactly when every file with a role is ranked |
| `PatternRanking.PositionsIncrease` | ai_workflow/benchmark.py:39-49 | The j-th matched pattern gets the first free position that is not before its first rank, at least j + 1 |
| `PatternRanking.MatchPatterns` | ai_workflow/benchmark.py:36-49 | The nested loops match every findable pattern once, in order of first rank, and earn the sum of the discounts of the positions |
| `PatternRanking.ContainsExactly` | ai_workflow/benchmark.py:36-41 | A text contains a pattern that stands somewhere in it |
| `PatternRanking.TopIsPrefix` | ai_workflow/benchmark.py:33-36 | The first k texts, at least one |
| `PatternRanking.EarnedBelowIdeal` | ai_workflow/benchmark.py:39-53 | Pattern DCG is at most its ideal, and equal to it exactly when all positions are the earliest |
| `PatternRanking.PerfectExactlyWhenEarly` | ai_workflow/benchmark.py:39-53 | The score is perfect exactly when all patterns match and each is found no later than its place |
| `PatternRanking.RetrievalMetrics` | ai_workflow/benchmark.py:30-59 | Over the first k texts: the number of patterns some text contains, and their DCG between 0 and its ideal, reached only when all patterns match |
| `Spans.OverlapIsHitLines` | ai_workflow/benchmark_spans.py:176-184 | `_overlap` gives exactly the common lines, or nothing when there are none |
| `Spans.HitLinesMean` | ai_workflow/benchmark_spans.py:165-184 | A line is hit if both spans have it, in the same file and, where the gold span names one, the same repository |
| `Spans.UnionSize` | ai_workflow/benchmark_spans.py:187-208 | A union is no larger than the sum of its parts, and as large exactly when they are disjoint |
| `Spans.MergeSorted` | ai_workflow/benchmark_spans.py:193-207 | The merge loop over sorted intervals counts each line of their union once |
| `Spans.CoveredLines` | ai_workflow/benchmark_spans.py:187-208 | The covered lines of a gold span are the lines hit by at least one retrieved span |
| `Spans.CoveredMeans` | ai_workflow/benchmark_spans.py:187-208 | A line of the gold span is covered exactly when some retrieved span hits it |
| `Spans.PairsSwap` | ai_workflow/benchmark_spans.py:271-287 | Counting hit lines pair by pair gives one number from both sides |
| `Spans.GoldLinesAreExact` | ai_workflow/benchmark_spans.py:271-274 | The gold-side count equals the pairwise count exactly when no line is hit twice |
| `Spans.RetrievedLinesAreExact` | ai_workflow/benchmark_spans.py:279-287 | The retrieved-side count equals the pairwise count exactly when no line is relevant twice |
| `Spans.LineCountsCompare` | ai_workflow/benchmark_spans.py:271-287 | How the two line counts compare, and when they are equal |
| `Spans.CountBothSides` | ai_workflow/benchmark_spans.py:271-287 | The loops compute the two line counts |
| `Spans.DoubleSpanCountsTwice` | ai_workflow/benchmark_spans.py:271-287 | One span of n lines retrieved twice gives n and 2n; listed as gold twice, 2n and n |
| `Spans.DisjointSpansCountAlike` | ai_workflow/benchmark_spans.py:271-287 | With disjoint spans on each side both line counts are equal |
| `Spans.RankSpans` | ai_workflow/benchmark_spans.py:221-253 | The ranking loop takes the located spans while ranks and lines last |
| `Spans.TakenIsCut` | ai_workflow/benchmark_spans.py:221-253 | What is ranked is a prefix, at most its last span cut short |
| `Spans.TakenFillsTheBudget` | ai_workflow/benchmark_spans.py:221-253 | The ranked lines are exactly as many as budget and first k spans allow |
| `Spans.RankedMeans` | ai_workflow/benchmark_spans.py:221-253 | In the budget as given: the first k spans, the last one cut so that the lines are as many as the budget, at least 1, allows |
| `Calibration.ThresholdMetrics` | ai_workflow/benchmark_calibration.py:97-166 | The counting loop yields the confusion counts and costs of the threshold, and refuses a negative cost |
| `Calibration.TallyCountsCases` | ai_workflow/benchmark_calibration.py:112-126 | Each count is the number of rows with that label whose score reaches the threshold, or does not |
| `Calibration.CostAddsUp` | ai_workflow/benchmark_calibration.py:97-140 | The cost is the sum of the unit cost of every wrong case accepted and of every right case rejected |
| `Calibration.ReportsMillionths` | ai_workflow/benchmark_calibration.py:130-166 | A reported figure is the nearest whole number of millionths, the even one halfway |
| `Calibration.CandidateThresholds` | ai_workflow/benchmark_calibration.py:169-182 | The candidates are 0, 1, every score and every midpoint, each once, ascending |
| `Calibration.CandidatesCover` | ai_workflow/benchmark_calibration.py:169-182 | Every threshold up to 1 gives all scores the verdicts of some candidate |
| `Calibration.CandidatesCoverAllExactly` | ai_workflow/benchmark_calibration.py:169-182 | Every real threshold has such a candidate exactly when no score reaches 1 |
| `Calibration.ScoreOfOneIsNotCovered` | ai_workflow/benchmark_calibration.py:169-219 | With a score of exactly 1, rejecting everything can be cheaper than every candidate |
| `Calibration.RatesAreMonotone` | ai_workflow/benchmark_calibration.py:97-140 | A higher threshold accepts no more wrong cases and rejects no fewer right ones |
| `Calibration.ChooseThreshold` | ai_workflow/benchmark_calibration.py:185-219 | The returned report is that of a candidate preferred to all candidates, and no real threshold up to 1 has a smaller reported (six-digit) cost; errors exactly without scores or with a negative cost |
| `Calibration.ChosenIsOptimal` | ai_workflow/benchmark_calibration.py:185-219 | The reported cost of the choice is minimal over all real thresholds up to 1, and over all reals if no score reaches 1; at equal reported cost it accepts no more wrong cases |
| `Calibration.TiesGoHigh` | ai_workflow/benchmark_calibration.py:206-213 | Among candidates with the same reported cost and as many false accepts the highest threshold is chosen |
| `CostRounding.ChosenIsNearlyCheapest` | ai_workflow/benchmark_calibration.py:165-213 | The true cost of the choice is at most a millionth above that of any such threshold |
| `CostRounding.CheapestExactly` | ai_workflow/benchmark_calibration.py:165-213 | The choice is truly the cheapest up to 1 on every set of rows exactly for unit costs with a common unit of at least a millionth, free rejection, or free acceptance with a rejection cost above half a millionth |
| `CostRounding.CheapestEverywhereExactly` | ai_workflow/benchmark_calibration.py:169-219 | On all rows with given scores the reported cost of the choice is minimal over all real thresholds, above 1 too, exactly when every score is below 1 or accepting is free |
| `CostRounding.MillionthsAreResolved` | ai_workflow/benchmark_calibration.py:10-11 | Whole multiples of a millionth, as the defaults 5 and 1 are, are such costs |
| `CostRounding.InvisibleCost` | ai_workflow/benchmark_calibration.py:206-213 | With costs 0 and 1e-7 and one right case of score 0.5, the search rejects it although accepting it is free |
| `Calibration.ReturnedThresholdIsExact` | ai_workflow/benchmark_calibration.py:249-261 | With four-decimal scores, evaluating at the six-digit threshold gives the same report |
| `CapabilityGate.DigestTraversal.Canonical` | ai_workflow/capability_gate.py:181-243 | The recursive digest traversal with its shared counter fails with the first objection over the node list, and counts the nodes |
| `CapabilityGate.ParameterWalk.Walk` | ai_workflow/capability_gate.py:321-381 | The validating traversal returns the first objection over the node list and collects the repositories named |
| `CapabilityGate.DigestSucceedsExactly` | ai_workflow/capability_gate.py:181-243 | The digest traversal succeeds exactly on trees whose nodes are well formed and at most 256 |
| `CapabilityGate.WalkAfterDigest` | ai_workflow/capability_gate.py:314-381 | After a successful digest the validating traversal objects exactly when a key forbids its value, and never for the budget |
| `CapabilityGate.NodesAreWhatOccurs` | ai_workflow/capability_gate.py:314-381 | The nodes the traversals visit are exactly the values that occur in the parameters, with their keys and depths |
| `CapabilityGate.AllowedExactly` | ai_workflow/capability_gate.py:314-662 | A request is allowed exactly when, on its own fields: at most 256 nodes within the size limits; no key privileged; repository keys name active repositories; depth keys integers from 0 to the limit; path keys safe paths; evidence known; the tool listed; no privileged field; and a repository named if several are active |
| `CapabilityGate.ReasonForKey` | ai_workflow/capability_gate.py:331-359 | The reason for a key names the first table whose demand the value does not meet |
| `CapabilityGate.AuthorizeTool` | ai_workflow/capability_gate.py:524-662 | The tool branch allows exactly the permitted requests |
| `CapabilityGate.Authorize` | ai_workflow/capability_gate.py:479-662 | A request is allowed exactly when the declarative predicate holds of its fields and every parameter node; one without a JSON text is invalid |
| `RunJournal.ChainReplayEvents` | ai_workflow/run_journal.py:104-127 | Chaining succeeds exactly when every event has a kind and a payload, and links each event to its predecessor by digest |
| `RunJournal.SameHeadSameHistory` | ai_workflow/run_journal.py:104-127 | Two chains with one head digest have equal lengths, kinds, links, payloads and digests |
| `RunJournal.SameHeadExactly` | ai_workflow/run_journal.py:104-127 | Two chains have one head digest exactly when they tell one history |
| `RunJournal.HeadNamesPlainChain` | ai_workflow/run_journal.py:104-127 | Two chains have one head digest exactly when they are identical once decoration (kind padding, number spelling, foreign keys) is removed; chains as they are written, exactly when they are identical |
| `RunJournal.BuildReplayJournal` | ai_workflow/run_journal.py:130-170 | Building succeeds exactly on valid records with the seven event kinds in order, and seals the record |
| `RunJournal.NoFaultsExactly` | ai_workflow/run_journal.py:173-314 | The list of faults is empty exactly for journals that meet the declarative definition |
| `RunJournal.VerifiedExactly` | ai_workflow/run_journal.py:173-314 | Which journals are verified, written out on the fields: schema, run id, record, seven linked events of the named kinds, their count and head, the two snapshots, finite numbers, and the seal |
| `RunJournal.RunIdExactly` | ai_workflow/run_journal.py:35-42 | A run id, once stripped, is one or more letters, digits, `-` or `_` |
| `RunJournal.EncodableExactly` | ai_workflow/run_journal.py:51-66 | A value can be written canonically exactly when no number in it is infinite or not a number |
| `RunJournal.RunIdFaultsMean` | ai_workflow/run_journal.py:184-202 | What each fault of the run id says |
| `RunJournal.RecordFaultsMean` | ai_workflow/run_journal.py:173-219 | What each fault of the record says |
| `RunJournal.EventFaultsMean` | ai_workflow/run_journal.py:234-274 | What each fault of an event says |
| `RunJournal.ChainFaultsMean` | ai_workflow/run_journal.py:234-274 | The faults of the chain are those of its events, each against the digest of the last usable event before |
| `RunJournal.VerifyReplayJournal` | ai_workflow/run_journal.py:173-314 | The verifier reports every fault in order and calls exactly the verified journals valid |
| `RunJournal.BuiltVerifiesExactly` | ai_workflow/run_journal.py:130-314 | A built journal verifies exactly when its retrieval and selection events repeat the record and the run id is the expected one |
| `RunJournal.HeadDecidesHistory` | ai_workflow/run_journal.py:173-314 | Two verified journals have one head digest exactly when they tell one history; with events as the builder writes them, exactly when the event lists are identical |
| `RunJournal.HeadMissesDecoration` | ai_workflow/run_journal.py:247-278 | Every verified journal has another one with the same head whose first event has a padded kind, another spelling of its number and other foreign keys |
| `ManagedBlock.CountFindsAll` | ai_workflow/repository_hygiene.py:70-73 | Counting a marker without overlap finds all its occurrences |
| `ManagedBlock.PrefixIsPadding` | ai_workflow/repository_hygiene.py:76-81 | At most two newlines are added, enough for a blank line before an appended block |
| `ManagedBlock.ReplaceHolds` | ai_workflow/repository_hygiene.py:69-88 | A successful call leaves exactly one begin and one end marker and keeps the text before and after the old block |
| `ManagedBlock.ReplaceIsIdempotent` | ai_workflow/repository_hygiene.py:69-88 | Installing twice is installing once |
| `ManagedBlock.RaisesExactly` | ai_workflow/repository_hygiene.py:84-85 | The call raises exactly when the one end marker precedes the one begin marker |
| `ManagedBlock.MalformedExactly` | ai_workflow/repository_hygiene.py:69-73 | The call reports a malformed file, and leaves it alone, exactly when the markers do not occur equally often or more than once |
| `ManagedBlock.BodyIsInstalled` | ai_workflow/repository_hygiene.py:58-88 | After a successful call every pattern stands on a line of its own |
| `ManagedBlock.SwappedMarkersRaise` | ai_workflow/repository_hygiene.py:84-85 | A file of the end marker and then the begin marker makes the call raise |
| `ManagedBlock.LocalExcludeIsWellShaped` | ai_workflow/repository_hygiene.py:9-19 | The markers and patterns in use have the shape these results need |
| `ManagedBlock.InstallIsIdempotent` | ai_workflow/repository_hygiene.py:58-88 | Idempotence for the block in use and every file |
| `StreamReaders.BoundedReader` | ai_workflow/provider_runner.py:360-380 | For every chunking the buffer holds the first min(limit, n) bytes, and overflow is flagged exactly when n exceeds the limit |
| `StreamReaders.BoundedAsyncReader` | ai_workflow/provider_runner.py:383-396 | The asynchronous reader returns the same bytes and flag, and passes an error on unless the limit came first |
| `StreamReaders.KeepIsTail` | ai_workflow/provider_runner.py:824-845 | Keeping the tail of what was kept plus a chunk is keeping the tail of everything |
| `StreamReaders.TailMeans` | ai_workflow/provider_runner.py:824-845 | The tail is what is left when all but the last min(limit, n) bytes are dropped |
| `StreamReaders.BoundedTailReader` | ai_workflow/provider_runner.py:824-845 | For every chunking the buffer holds the last min(limit, n) bytes and `truncated` is set whenever n exceeds the limit; a limit of 0 keeps the last chunk |
| `StreamReaders.BoundedAsyncTailReader` | ai_workflow/provider_runner.py:848-867 | The asynchronous tail reader keeps the same bytes and flag, and passes an error on |
| `StreamReaders.TruncatedMeans` | ai_workflow/provider_runner.py:824-867 | Shorter streams are never called truncated; one of exactly the limit is exactly when it came in one chunk |
| `StreamReaders.ChunkingDecides` | ai_workflow/provider_runner.py:824-867 | The same bytes, as many as the limit, are called truncated as one chunk and not as two |
| `RankFusion.ReciprocalRankFusion` | ai_workflow/math_retrieval.py:97-133 | The dictionary loops compute the order by summed w/(k + first rank), ties by first sight; each error exactly under its condition |
| `RankFusion.SeenHasKeys` | ai_workflow/math_retrieval.py:113-129 | A key is fused exactly when some positively weighted ranking holds it |
| `RankFusion.EachKeyOnce` | ai_workflow/math_retrieval.py:113-133 | Every such key comes out exactly once, with its score |
| `RankFusion.ScoreAddsUp` | ai_workflow/math_retrieval.py:113-129 | A score is a sum with one part per ranking: the weight over k + first rank, or nothing from a ranking without the key |
| `RankFusion.FusedInOrder` | ai_workflow/math_retrieval.py:119-133 | The result falls by score; equal scores come in the order in which their keys are first met, and each item is the one met first under its key |
| `RankFusion.DominanceIsKept` | ai_workflow/math_retrieval.py:97-133 | An item ahead of y in every weighted ranking that holds y comes out ahead of y |
| `MarginalRelevance.JaccardIsASimilarity` | ai_workflow/math_retrieval.py:136-141 | Similarity is symmetric, in [0, 1], and 1 exactly for equal nonempty sets |
| `MarginalRelevance.SimilaritiesAgree` | ai_workflow/math_retrieval.py:136-141 | The similarity that subtracts the overlap equals the one of the context selector that counts the union |
| `MarginalRelevance.PenaltyIsTheMaximum` | ai_workflow/math_retrieval.py:178-187 | The penalty is attained by a selected document and exceeded by none |
| `MarginalRelevance.Select` | ai_workflow/math_retrieval.py:171-195 | The loop picks greedily, first of equals, as many as asked for or available |
| `MarginalRelevance.MaximalMarginalRelevance` | ai_workflow/math_retrieval.py:143-197 | The whole call: empty without query or candidates, an error on ragged input, otherwise the greedy order |
| `MarginalRelevance.PicksAreDistinct` | ai_workflow/math_retrieval.py:171-195 | No document is picked twice and only positive scores are picked |
| `MarginalRelevance.LambdaOneIsScoreOrder` | ai_workflow/math_retrieval.py:171-195 | At lambda 1 the order is the stable order by falling score |
| `MarginalRelevance.LambdaZeroIsNovelty` | ai_workflow/math_retrieval.py:171-195 | At lambda 0 every pick is the one least like what is picked already, the earliest on a tie |
| `MarginalRelevance.TradeIsMixture` | ai_workflow/math_retrieval.py:184-187 | The traded value is relevance at 1, minus the penalty at 0, and the mixture of both in between |
| `MarginalRelevance.NormMeans` | ai_workflow/math_retrieval.py:167-169 | Scores are divided by the largest, if it is positive |
| `Exploration.PropensitiesSumToOne` | ai_workflow/retrieval_learning.py:121-135 | The propensities are a distribution; with exploration mass every arm has some |
| `Exploration.PropensitiesMean` | ai_workflow/retrieval_learning.py:121-135 | With exploration every arm has the same share and the baseline the rest on top; otherwise the baseline has everything |
| `Exploration.SampleArm` | ai_workflow/retrieval_learning.py:138-150 | The loop returns the first arm whose running total reaches the point, else the last |
| `Exploration.DrawnExactlyOnItsInterval` | ai_workflow/retrieval_learning.py:138-150 | Each arm is drawn exactly on an interval as long as its propensity |
| `Exploration.ImpossibleArmExactly` | ai_workflow/retrieval_learning.py:138-150 | The draw alone, of any distribution: an arm without probability is drawn exactly when it is first and the point is 0; its one caller passes positive probabilities only |
| `Exploration.GatheredFinds` | ai_workflow/retrieval_learning.py:188-205 | The parsed dictionary gives each arm the probability of its last entry |
| `Exploration.FollowAssignment` | ai_workflow/retrieval_learning.py:176-247 | A deployment assignment is followed exactly if it is a near-distribution of safe arms with mass on its arm, and low-risk unless that is the baseline; otherwise the baseline is used |
| `Exploration.FollowedExactly` | ai_workflow/retrieval_learning.py:176-247 | Which assignments are followed, on their fields: a listed arm, low risk or the baseline, only fractions for listed arms, mass in the last entry of the arm, and a sum within 1e-9 of 1 |
| `Exploration.ChooseLearningDecision` | ai_workflow/retrieval_learning.py:153-295 | The decision is the followed assignment, a draw if the configuration explores, or the baseline; whatever the configuration, the chosen arm has a recorded positive propensity, and another arm than the baseline is chosen only at low risk |
| `Exploration.UnloggedArmExactly` | ai_workflow/retrieval_learning.py:153-415 | For every configuration and assignment, an arm other than the baseline is used without a log entry exactly when a followed assignment for it has the mode "off" |
| `Exploration.LogMeans` | ai_workflow/retrieval_learning.py:380-415 | Mode off is not logged; otherwise the decision stays if it can be written, and gives way to the baseline if not |
| `Exploration.PrepareLearningDecision` | ai_workflow/retrieval_learning.py:380-415 | The whole call: what is used has a recorded positive propensity, and is another arm than the baseline without a log entry exactly in that case |
| `Exploration.SilencingAssignment` | ai_workflow/retrieval_learning.py:176-247 | A concrete assignment of that kind, with the single propensity 1 |
| `OffPolicy.TargetActionHasMass` | ai_workflow/contextual_policy.py:339-352 | The target action of a row has positive propensity if the baseline has |
| `OffPolicy.DoublyRobustIsUnbiased` | ai_workflow/contextual_policy.py:355-379 | Over the logged arm, the doubly robust score averages to the target reward for any model exactly when the target has mass or the model is right about it |
| `OffPolicy.BiasedWithoutMass` | ai_workflow/contextual_policy.py:355-379 | A target that is never tried and a model that says 1 where it earns 0: the score averages to 1 |
| `OffPolicy.SequentialScoreIsBounded` | ai_workflow/shadow_policy.py:130-165 | No score leaves the absolute bound, for any row, range and cap |
| `OffPolicy.BoundIsReached` | ai_workflow/shadow_policy.py:130-165 | The bound is no larger than it must be: some row reaches it, unless it is the floor of 1e-12 |
| `OffPolicy.RefusedFor` | ai_workflow/shadow_policy.py:130-165 | Why a row is refused: outcome, then reward range, then propensity, then weight |
| `OffPolicy.SequentialScoreIsUnbiased` | ai_workflow/shadow_policy.py:153-165 | Over the logged arm the score averages to target minus baseline when both propensities are within the cap |
| `OffPolicy.RefusedExactlyPastTheCap` | ai_workflow/shadow_policy.py:152-164 | A drawn arm is refused for its weight exactly when it is target or baseline with propensity below the inverse cap |
| `OffPolicy.ComputeEstimate` | ai_workflow/learning_ope.py:56-112 | The loop yields the matched events and their weighted, self-normalised and effective-size figures |
| `OffPolicy.WeightedRewardIsUnbiased` | ai_workflow/learning_ope.py:64-95 | Over the logged arm the weighted reward of a row averages to what the target earns, when the target has mass |
| `OffPolicy.EffectiveSizeBound` | ai_workflow/contextual_policy.py:452-458 | The effective sample size of any positive weights is at most their number, and equal to it exactly when they are equal |
| `OffPolicy.EffectiveSizeAtMostMatched` | ai_workflow/learning_ope.py:107-112 | So it is at most the matched events, and equal exactly for equal weights |
| `OffPolicy.SnipsIsBetween` | ai_workflow/learning_ope.py:97-101 | The self-normalised estimate lies between the smallest and largest matched reward, and exists exactly with a match |

## Left out

General:

- Floating-point rounding and overflow: all float arithmetic is exact, so the 1e-12 tolerance of the heap loop only compares equal values. The rounding that reports apply to their figures is modelled in `Calibration` and left out elsewhere, also the 12-digit rounding of logged propensities.
- Real cryptography, JSON text, regular expressions, tokenizers, case folding: abstract, as described above. JSON numbers that Python calls equal (1, 1.0, true) are told apart inside payloads.
- `fsync`, temporary files and `os.replace`: publishing one file is one step. Removing the lock directory is one step.
- Subprocesses, sandboxes, SQLite, git, command-line modules, configuration parsing: input and output only.

By module:

- LazySelection.LazyGreedy: `heapq` is a set of entries with a pop of the minimum; the layout of the heap array is not modelled.
- ContextSelection.SelectContext: its three passes are methods of their own; of the report only the mode and the two totals are modelled.
- SelectorCandidates.Dedupe: the dedupe digest is a number with the order of the hexadecimal text.
- Indexer.IndexDirectory.IncrementalIndexes: the runs at rest meet no unreadable file; files that vanish or change during a run are in `IndexCrash`. The `ast_files` counter and the report dictionary are left out.
- IndexCrash.ServedRowsAreCurrent: a run may pass over any file, since a walk beside edits can; which files a walk must find is not modelled.
- Rollout.VerifyDeploymentState: fields have their declared JSON types; a missing manifest or a field of another type is not modelled.
- Rollout.CreateIsSound: the context distribution and stage budgets recorded in the payload are left out.
- StateLock.MutualExclusion: process ids are not reused, and the audit event written after an update is left out.
- Relevance.RoleAwareFileMetrics: the sorted name lists, the reciprocal rank and the precision and distractor figures of the report are left out.
- PatternRanking.RetrievalMetrics: the figures that only count relevant texts (density, precision, reciprocal rank) are left out, and nDCG is given by its two parts.
- Spans.RankSpans: reading spans out of context items and the normalisation of gold spans are left out; spans arrive with first line no later than last.
- CostRounding.CheapestExactly: true costs are compared up to the threshold 1; above it, reported costs in `CostRounding.CheapestEverywhereExactly`.
- Calibration.ThresholdMetrics: the rate fields of the report and the stratified split are left out.
- CapabilityGate.DigestTraversal.Canonical: the copied value that feeds the digest is left out, only success and the counter are modelled; that a request can be written as JSON text at all is a parameter. Also left out are the request digest and the research and policy-building functions.
- CapabilityGate.ParameterWalk.Walk: its key checks and its value checks are methods of their own.
- RunJournal.VerifyReplayJournal: run ids are letters and digits of ASCII; the body of the event loop is two methods of its own; the comparison of a journal with the current workspace is left out.
- StreamReaders.BoundedReader: terminating the provider after an overflow is left out.
- StreamReaders.BoundedTailReader: the body of the loop is a method of its own.
- RankFusion.ReciprocalRankFusion: the key function is a field of the item.
- BM25 scoring: a logarithm, so there is no exact statement.
- OffPolicy.ComputeEstimate: the cost figures, the coverage and the maximum weight repeat the same sums; `_snips_value` is the same loop for one field. Bootstrap intervals and Hoeffding radii have no exact statement.
- Exploration.ChooseLearningDecision: fingerprints, features and identifiers of the decision record.

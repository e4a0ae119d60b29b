# Verification of the evaluation and release-gating layer

These Dafny modules model the part of the repository that decides whether a benchmark result may be believed: the
replay engine and its acceptance gates, the evidence checkers, the cohort allocator, the competitive-matrix runner, the
manifest generator, the history gate and the tensor permutation check. `dafny verify dfyconfig.toml` checks everything.

Loops and objects of the original keep their form: they are methods with loops over sequences and maps, or classes with
fields, and each is proved against a specification function. What the original promises is then proved about those
functions, as lemmas over every input, every schedule and every history of stopped and resumed runs.

| modules | what they model |
|---|---|
| `FullPeriod`, `KvManifest` | the 48-bit generator, its full period, and the manifest text as a function of orbit positions |
| `TensorRows` | the query/key row permutation and the chunked comparison |
| `DirectoryDigest` | the byte stream behind a directory hash and its decoder |
| `CheckpointCut`, `TraceCell`, `CompetitivePlan` | prompt checkpoints, waves of warm and measured requests, plan against execution |
| `CompletionMarker`, `ReportLoaders`, `CellDirectories`, `MatrixRun` | the marker and quarantine protocol over crashes, what the report loaders may trust and find, and a resumed run of the whole matrix |
| `Replay`, `WorkerPool`, `PoolGuarantees` | sequential replay, warm-up, and the worker pool as a state machine over arbitrary schedules |
| `SessionEvidence`, `SessionSummaries`, `ContextWindow`, `RecurrentEvidence`, `Acceptance` | completeness, context eligibility, recurrent restores and the acceptance of a cell |
| `CellSummary`, `PooledGates`, `GateGuarantees`, `GateExactness`, `PooledUtilization` | cell summaries, pooling, gates, what passing gates prove, exactly when they pass, and the utilisation bound from schedule to row |
| `ResumableRun`, `FinalVerdict` | the alternating schedule, crash and resume, the decision to fail, and what a run that did not fail has shown |
| `StreamReader`, `StreamRequest`, `StreamMeaning`, `StreamOutcome` | folding streamed fragments into an output identity, judging a stream, what its answer says event by event, and recording its outcome |
| `CohortAllocator` | the one-pass cohort selection against filter, take and slice |
| `HistoryGate` | matrix coverage, the median-of-three verdict and the repair flag |
| `Common` | sequences, counting, decimal text and other shared lemmas |

## Assumptions and simplifications

- Token counts are unbounded integers and times are reals. Rounding is not modelled; where the source divides by two
  or multiplies a length by a fraction, the exact value is used.
- SHA-256 and `stable_hash` are parameters. A lemma that needs injectivity says so (`CollisionFree` on the files at
  hand, `Injective` for cell identities). Log lines are compared by their text instead of by their digest.
- The thread pool is a set of nondeterministic events, a crash is a budget of operations after which a run stops, and
  the network side of a request is an arbitrary sequence of timed lines. A raised exception is the line `Broken`.
- `write_json` replaces a file atomically. Other files are first visible torn. A quarantine name is unique, as the
  source's nanosecond stamp intends; the model uses the number of the run.
- The files of a cell carry the number of the run that wrote them, and a cell identity carries its configuration
  instead of the hash of it.

## Results about the code that a reader may not expect

- `complete_sessions` can never pass a session without assistant turns: the dict of observed sessions has no entry
  for it, and `None` differs from the empty list (`TurnlessSessionNeverPasses`).
- `compare` reports an improved metric as a problem exactly when the median of the last three runs is zero, or negative
  and the improvement exceeds five percent (`ImprovementReportedIff`; `ImprovementFromZeroIsReported` is an input).
- `build_cohorts` hands a session out twice exactly when a framework is named twice (`DisjointIffDistinctFrameworks`;
  `RepeatedFrameworkRepeatsSessions` is an input). The program's own entry refuses such names
  (evals/agentic-trajectory-manifest.py:247-250), so only a direct caller can see it.
- Without an explicit index, a tool-call fragment is merged at its position inside its event. Cutting its arguments so
  that a nonempty rest heads a new event changes the hashed identity, unless the fragment stood first in its event or has
  an index (`CutIsInvisibleIff`; `UnindexedCutShows` is an example).
- A stream can be answered with negative token figures, when a negative usage report follows a positive one
  (`NegativePromptIsAnswered` is an example; `AnsweredFigures` has the exact condition).
- An invalid dataset row fails the allocator only if the scan has to look at it: the caps and the early exit hide
  later ones (`AllocatorMeetsSpec`, `AppendingRowsChangesNothing`).

## Model

| member | source | states |
|---|---|---|
| KvManifest.DeterministicRandom.Next | evals/kv-restart-replay.py:108-110 | One draw advances the 48-bit state by the affine step and returns its upper 32 bits, always below 2^32. |
| KvManifest.DeterministicRandom.Below | evals/kv-restart-replay.py:112-113 | A bounded draw advances the state exactly once and lands below the bound. |
| KvManifest.DeterministicRandom.Words | evals/kv-restart-replay.py:115-116 | From any state, `count` words consume exactly the next `count` positions of its orbit. |
| KvManifest.BlockDrawsMeaning | evals/kv-restart-replay.py:125-130 | A block draws the least multiple of eight that covers three quarters of its target, and at least eight. |
| KvManifest.Block | evals/kv-restart-replay.py:125-130 | A block consumes its word target rounded up to a multiple of eight draws, and its text is the topic and all those words joined by single spaces although it was joined eight at a time. |
| KvManifest.BuildTurn | evals/kv-restart-replay.py:134-147 | One turn consumes its block plus 19 draws, and each of its four inserted phrases comes from the stated positions of the orbit. |
| KvManifest.BuildManifest | evals/kv-restart-replay.py:119-163 | The whole manifest equals a text defined by orbit positions alone, and the generator ends at iterate N = 8*ceil(w_sys/8) + turns*(8*ceil(w_turn/8) + 19) of the seed. |
| KvManifest.ManifestStatesAreFresh | evals/kv-restart-replay.py:119-163 | No generator state repeats while a manifest is built if and only if N < 2^48. |
| FullPeriod.GeometricValuation | evals/kv-restart-replay.py:108-110 | 2^k divides the geometric sum of the multiplier over n terms if and only if it divides n (the multiplier is 1 modulo 4). |
| FullPeriod.ReturnsIffMultiple | evals/kv-restart-replay.py:102-110 | From every 48-bit state, n draws lead back to it if and only if n is a multiple of 2^48. |
| FullPeriod.OrbitCoincidence | evals/kv-restart-replay.py:102-110 | Two points of an orbit are equal if and only if their distance is a multiple of 2^48. |
| FullPeriod.EveryStateIsVisited | evals/kv-restart-replay.py:102-110 | The orbit from any seed meets every 48-bit state within 2^48 draws. |
| FullPeriod.StepIsPermutation | evals/kv-restart-replay.py:108-110 | Every 48-bit state is the successor of exactly one 48-bit state. |
| TensorRows.ReshapeAccepts | evals/skippy-granite-tensor-equivalence.py:71-83 | Both reshapes succeed if and only if twice the head count divides the row count. |
| TensorRows.ConvertMovesRow | evals/skippy-granite-tensor-equivalence.py:71-83 | Row h*2*half + s*half + j of the source becomes row h*2*half + 2*j + s, although the code computes it by reshape, swapaxes, reshape. |
| TensorRows.RestoreUndoesConvert | evals/skippy-granite-tensor-equivalence.py:71-83 | reshape(heads, half, 2), swap, reshape restores the source rows of every accepted tensor. |
| TensorRows.ConvertUndoesRestore | evals/skippy-granite-tensor-equivalence.py:71-83 | The conversion in turn undoes the restoration, so it reaches every tensor of an accepted size. |
| TensorRows.ConvertIsPermutation | evals/skippy-granite-tensor-equivalence.py:71-83 | The converted rows are the source rows as a multiset. |
| TensorRows.EqualChunkedIsEquality | evals/skippy-granite-tensor-equivalence.py:30-39 | Comparing block by block, with the length check first, decides equality of the whole arrays. |
| TensorRows.PassingCheckDeterminesSource | evals/skippy-granite-tensor-equivalence.py:30-83 | Two source tensors of one row width that pass the check against the same converted array are equal. |
| DirectoryDigest.HashDirectory | evals/agentic-replay.py:200-210 | The bytes fed to the hash are the encoding of the file list; an empty directory and a path longer than eight bytes can count are the only errors. |
| DirectoryDigest.BigEndianByte | evals/agentic-replay.py:206-208 | The length is written most significant byte first: byte i of k is the length divided by 256^(k-1-i), modulo 256. |
| DirectoryDigest.DecodeEncode | evals/agentic-replay.py:200-210 | The fed bytes decode back to exactly the encoded file list. |
| DirectoryDigest.EncodeDecode | evals/skippy-competitive-benchmark.py:70-81 | Whatever bytes the decoder accepts are the encoding of what it returns, so the format has no second reading. |
| DirectoryDigest.EqualStreamsEqualTrees | evals/skippy-competitive-benchmark.py:70-81 | Equal fed bytes mean equal paths and equal file contents, given that the content hash does not collide on these files. |
| CheckpointCut.BoundaryMeaning | evals/skippy-competitive-benchmark.py:1554-1561 | The cut lies in [target//2, target]: at the last blank line there, else at the last line end there, else at the target itself. |
| CheckpointCut.TargetMeaning | evals/skippy-competitive-benchmark.py:1555 | The target is the fraction of the length rounded down, and at least one character, for every fraction. |
| CheckpointCut.CheckpointsNest | evals/skippy-competitive-benchmark.py:1554-1561 | For any two fractions the smaller checkpoint is a prefix of the larger one, and both of the prompt, despite the three-way fallback. |
| CheckpointCut.CheckpointLength | evals/skippy-competitive-benchmark.py:1554-1561 | For a nonempty prompt and a fraction of at most one, the cut text is between half the target and the target long. |
| TraceCell.PromptLimitMeaning | evals/skippy-competitive-benchmark.py:227-231 | The limit is the least whole number of waves that covers the minimum and the concurrency; it is not a whole number of waves only when the available prompts cap it. |
| TraceCell.WaveSize | evals/skippy-competitive-benchmark.py:1624-1626 | A wave measures as many prompts as the concurrency, or what is left for the last one. |
| TraceCell.WavesAreFull | evals/skippy-competitive-benchmark.py:1575-1626 | Unless the available prompts cap the limit, every wave of a cell measures exactly as many prompts as the concurrency. |
| TraceCell.SendWave | evals/skippy-competitive-benchmark.py:1625-1677 | One wave sends the warm prompts fraction by fraction and then the full prompts, in order. |
| TraceCell.RunTraceCell | evals/skippy-competitive-benchmark.py:1575-1678 | The records of a cell are the waves over the first `limit` prompts. |
| TraceCell.WavesCover | evals/skippy-competitive-benchmark.py:1624-1677 | Every selected prompt is measured exactly once and in order, and for distinct fractions is warmed exactly once and in order at each. |
| TraceCell.WavesWarm | evals/skippy-competitive-benchmark.py:1625-1646 | Every selected prompt is warmed exactly as often at a fraction as the fraction is listed, repetitions included. |
| TraceCell.WavesLength | evals/skippy-competitive-benchmark.py:1624-1677 | A cell holds limit * (fractions + 1) records. |
| TraceCell.WaveOfRecord | evals/skippy-competitive-benchmark.py:1625-1677 | The wave of a record is its prompt index divided by the concurrency, and a warm record carries the checkpoint of its own prompt. |
| TraceCell.WarmBeforeMeasured | evals/skippy-competitive-benchmark.py:1625-1677 | When a prompt is measured, every prompt of its wave has already been warmed at every fraction. |
| CompetitivePlan.BuildPlan | evals/skippy-competitive-benchmark.py:243-310 | The nested planning loops list exactly the declared cells: synthetic cells arm by arm, then trace cells level by level with the arms reversed at odd levels. |
| CompetitivePlan.PlannedIff | evals/skippy-competitive-benchmark.py:243-310 | A cell is planned if and only if it names a listed platform, a listed model, an arm that applies to that model, a configured level and, per workload, the configured budgets; a trace cell carries its model's shape and its prompt limit. |
| CompetitivePlan.RunBenchmark | evals/skippy-competitive-benchmark.py:1760-1787 | For every set of completed units the runner, with its own loops, executes exactly the planned cells in the planned order less those units; with none complete it executes the plan. |
| CompetitivePlan.RunSyntheticArm | evals/skippy-competitive-benchmark.py:1445-1540 | The runner's own loops over output budgets and concurrency levels measure the arm in plan order, or the arm is skipped as a whole. |
| CompetitivePlan.TraceOrder | evals/skippy-competitive-benchmark.py:279-304 | Cell index*arms + a of a model's trace part is arm number a of level `index`. |
| CompletionMarker.ArtifactRoot.RunOneCell | evals/skippy-competitive-benchmark.py:1445-1551 | The step-by-step body of a cell, stopped after any number of file operations, leaves the state that the operation list predicts, and reports completion only when it skipped or finished. |
| CompletionMarker.PrefixIsGood | evals/skippy-competitive-benchmark.py:1173-1184 | After any prefix of one execution the protocol invariant holds, and after the last operation the directory is the full one. |
| CompletionMarker.RunCellKeepsGood | evals/skippy-competitive-benchmark.py:1445-1551 | Every call, skipped, stopped anywhere or finished, keeps the invariant: each directory holds files of one run only, and a marked directory is the whole output of one execution of the marked cell. |
| CompletionMarker.EveryHistoryIsGood | evals/skippy-competitive-benchmark.py:1445-1551 | The invariant holds after every history of calls, with or without resume, stopped anywhere, under changing configurations. |
| CompletionMarker.EveryDirectoryIsTraced | evals/skippy-competitive-benchmark.py:1445-1551 | After every history each directory, live or quarantined, is the work of one call of the history for its place, and a marker in it means that this call was for the marked cell, did not skip it and ran to its end. |
| CellDirectories.SkipsIff | evals/skippy-competitive-benchmark.py:1145-1156 | After every history a call skips if and only if it resumes and the live marker is for that very cell. |
| CellDirectories.FinishedCellIsTrusted | evals/skippy-competitive-benchmark.py:1173-1184 | After every history a call that is not stopped leaves its place trusted as its cell; without resume it leaves a directory of its own and what was there stands in quarantine whole. |
| CompletionMarker.SkippedCellIsComplete | evals/skippy-competitive-benchmark.py:1145-1156 | A cell that resume skips has its whole output in place, written by an earlier call for that very cell which ran to its end. |
| CompletionMarker.FinishedCellIsSkipped | evals/skippy-competitive-benchmark.py:1465-1470 | A finished cell is skipped by every later resumed call for the same identity, which then changes nothing. |
| CompletionMarker.NothingIsLost | evals/skippy-competitive-benchmark.py:1173-1184 | A call leaves each live directory as it was or moves it to quarantine whole, moves only the directory of the cell that it runs, and never changes a quarantined one. |
| CellDirectories.SkipMeans | evals/skippy-competitive-benchmark.py:1145-1156 | In any store at all, also one that no run left, a call skips if and only if it resumes and finds a marker of its own cell sealed with that cell's hash. |
| CellDirectories.TrustMeans | evals/skippy-competitive-benchmark.py:1159-1170 | Any directory at all, also a copied or edited one, is trusted for a place if and only if its marker is sealed with the hash of the cell in it and that cell is for the place. |
| ReportLoaders.LoadTraceRows | evals/skippy-competitive-benchmark.py:1874-1896 | The trace rows are exactly the result files, once each for distinct directories, in live directories whose marker is self-consistent and names the directory's own path. |
| ReportLoaders.LoadedRowsAreComplete | evals/skippy-competitive-benchmark.py:1159-1170 | After every history a trusted directory holds exactly the outputs of its marked cell and the marker, all whole, written by one call of the history for that cell which ran to its end. |
| CellDirectories.TrustedTraceDirectory | evals/skippy-competitive-benchmark.py:1709-1717 | After every history a trusted trace directory holds exactly the two stage files, the log, the partial records if there was a group, the records, the result and the marker, written in this order by one call for the marked cell which had the operations for it. |
| CellDirectories.OneRowPerTrustedCell | evals/skippy-competitive-benchmark.py:1874-1896 | After every history the loader returns, for distinct places, exactly one row for each trusted trace directory: the result that the marked run wrote last. |
| CellDirectories.TrustedDataDirectory | evals/skippy-competitive-benchmark.py:1489-1551 | After every history a trusted synthetic directory holds exactly the fixed files and the four files of each configured pair, all whole and of the marked run, with the parity file last. |
| ReportLoaders.LoadSyntheticRows | evals/skippy-competitive-benchmark.py:1811-1838 | The synthetic rows are exactly the files named like a measurement in trusted directories of known arms, once each where file names are unambiguous. |
| ReportLoaders.TrustedNamesAreUnambiguous | evals/skippy-competitive-benchmark.py:1833-1837 | After every history no two file names of a trusted arm directory are read as the same pair. |
| ReportLoaders.ParseOfStem | evals/skippy-competitive-benchmark.py:1834-1837 | Reading a measurement file name returns the pair it was written for; the output and progress files of a pair are never read as measurements. |
| ReportLoaders.SyntheticRowsAreTheMatrix | evals/skippy-competitive-benchmark.py:1811-1838 | After every history the rows of a trusted arm are the configured matrix: one row for each output budget and concurrency, from the marked execution, and none besides. |
| MatrixRun.TasksMakeThePlan | evals/skippy-competitive-benchmark.py:1770-1787 | The calls of the runner, one per synthetic arm and per trace cell, measure exactly the planned cells in the planned order. |
| MatrixRun.TasksAreDistinct | evals/skippy-competitive-benchmark.py:1770-1787 | Distinct model keys, arm names and concurrency levels give every call a marker place of its own. |
| MatrixRun.TraceIdIsPlanned | evals/skippy-competitive-benchmark.py:1583-1604 | The identity of a trace unit names the directory of its planned cell and records the planned number of prompts. |
| MatrixRun.MarkersDuringRun | evals/skippy-competitive-benchmark.py:1465-1470 | Which calls find their marker is settled when the run starts, and a call that was made finds it from then on. |
| MatrixRun.RunMatrix | evals/skippy-competitive-benchmark.py:1770-1787 | The runner's calls on an artifact directory with any history leave the store of the extended history and measure the cells of the calls that found no marker. |
| MatrixRun.ResumedRunCompletesTheMatrix | evals/skippy-competitive-benchmark.py:1465-1470 | After any history of stopped and resumed calls, one uninterrupted resumed run measures exactly the planned cells without a matching marker, in plan order, and leaves every unit's directory with the whole output of one execution of that very unit. |
| Replay.RequestIdInjective | evals/agentic-replay.py:1184-1186 | `session:turn` identifies its session and turn uniquely, even when session ids contain colons or digits. |
| Replay.ReplayTrajectory | evals/agentic-replay.py:1151-1200 | The replay loop yields min(limit, turns) requests; request k is sent the recorded messages before the k-th assistant message, and nothing the server answered. |
| Replay.RequestMeans | evals/agentic-replay.py:1097-1199 | Request k stands at the assistant message with k assistant messages in front and sends the messages before it one for one: null fields dropped, encoded tool calls in place of the tool calls; it asks for a quarter of the recorded characters rounded up, at least eight and at most the maximum, under session, colon and turn number. |
| Replay.HistoryIgnoresAnswers | evals/agentic-replay.py:1197-1199 | Two servers with arbitrary answers are asked exactly the same requests. |
| Replay.HistoriesNest | evals/agentic-replay.py:1197-1199 | The history of a turn is a proper prefix of the history of every later turn. |
| Replay.AssistantPositionsMeaning | evals/agentic-replay.py:1164-1165 | The turn positions rise strictly and include every assistant message. |
| Replay.ValidateWarmupCapacity | evals/agentic-replay.py:669-681 | The capacity check accepts if and only if the cohort holds at least the required number of assistant turns. |
| Replay.RunWarmup | evals/agentic-replay.py:1312-1344 | The warm-up loop collects exactly the first `turns` requests of the complete replays, fails for lack of turns exactly when there are fewer, and otherwise succeeds exactly when none of them failed. |
| Replay.ValidatedWarmup | evals/agentic-replay.py:669-681 | When the capacity check accepts, the warm-up never runs short: it collects exactly `turns` requests unless a request fails. |
| SessionEvidence.CompleteSessions | evals/agentic_replay_evidence.py:20-40 | The checker's verdict, loop by loop, equals the declarative verdict. |
| SessionEvidence.PassesIffComplete | evals/agentic_replay_evidence.py:20-40 | It passes if and only if session ids are distinct, no request has an error, no foreign session occurs, every session has a turn and each session's own log is exactly its expected turns. |
| SessionEvidence.PassesIffTurnsInOrder | evals/agentic_replay_evidence.py:20-40 | By positions in the log: it passes if and only if session ids are distinct, no request has an error text or a foreign session, and the requests of each session are its assistant turns in order, each under its own identifier, at least one. |
| SessionEvidence.TurnlessSessionNeverPasses | evals/agentic_replay_evidence.py:30-32 | No list of sessions passes that contains one without assistant turns, although nothing is expected of it. |
| SessionEvidence.VerdictIgnoresInterleaving | evals/agentic_replay_evidence.py:20-40 | Two logs with the same per-session logs get the same verdict, whatever their interleaving. |
| SessionEvidence.PassingAccountsForEveryTurn | evals/agentic_replay_evidence.py:36-39 | Passing implies that the logged ids are the expected ids as a multiset, so the counts agree. |
| SessionSummaries.Summaries | evals/agentic_replay_evidence.py:43-77 | The per-session loops compute, for each session, the verdict on its own rows, its token totals and one row per answered turn with tokens, cached share, first-token time and error. |
| SessionSummaries.SummaryMeans | evals/agentic_replay_evidence.py:43-77 | A session's summary lists its requests of the log in order with their own tokens, cached share, first-token time or error; its totals are the sums of these rows and its longest prompt is the largest of them. |
| SessionSummaries.WholeIffParts | evals/agentic_replay_evidence.py:43-77 | The whole log passes if and only if session ids are distinct, no request is foreign and every per-session verdict is complete. |
| SessionSummaries.TokensAreConserved | evals/agentic_replay_evidence.py:45-48 | Splitting a log by distinct sessions that cover it neither loses nor double-counts tokens. |
| SessionSummaries.PassedSummariesAddUp | evals/agentic_replay_evidence.py:43-77 | The per-session prompt tokens of a passing log add up to the prompt total that the cell summary reports. |
| ContextWindow.ContextEligibility | evals/agentic_replay_evidence.py:95-138 | The preflight loops compute the declared eligibility rows and problems. |
| ContextWindow.CheckSession | evals/agentic_replay_evidence.py:102-131 | One session's loop emits one row per assistant turn with its token count and output budget, and the problems that those rows imply. |
| ContextWindow.EligibleIff | evals/agentic_replay_evidence.py:95-138 | A cohort is eligible if and only if its probes are complete, every turn's positive prompt plus its output budget fits the context and every session reaches the minimum length. |
| ContextWindow.EligibleIffProbed | evals/agentic_replay_evidence.py:95-138 | The same by the probes alone: under every turn's identifier some probe counted a positive prompt that leaves room for the turn's output, and some turn of each session one of the minimum length. |
| RecurrentEvidence.CheckRecurrent | evals/agentic_replay_evidence.py:141-218 | The dedup, grouping and joining loops compute the declared evidence. |
| RecurrentEvidence.SortedArrangementIsUnique | evals/agentic_replay_evidence.py:175-177 | With distinct start times a bag of lookups has only one sorted order. |
| RecurrentEvidence.SortIsStable | evals/agentic_replay_evidence.py:175-177 | Lookups with one start time keep the order in which their lines were read. |
| RecurrentEvidence.RereadingChangesNothing | evals/agentic_replay_evidence.py:149-163 | Appending lines that were already read changes nothing. |
| RecurrentEvidence.EvidenceDependsOnLinesOnly | evals/agentic_replay_evidence.py:147-177 | The evidence depends only on the set of lines, not on their order or repetition, when the lookups of one session have distinct start times. |
| RecurrentEvidence.PassingProvesReuse | evals/agentic_replay_evidence.py:168-218 | It passes if and only if there is a session and every session has one lookup per turn and a later turn with an exact hit on a recurrent payload whose restored tokens lie between the minimum and the turn's prompt; restores then count all these turns over all sessions. |
| RecurrentEvidence.LookupsAreTheLines | evals/agentic_replay_evidence.py:147-177 | The lookups of a session are those of the distinct log lines that name it, in order of start time. |
| RecurrentEvidence.EvidenceRowsReport | evals/agentic_replay_evidence.py:183-205 | Each row of the evidence reports its turn, its lookup and the restored tokens, which are zero unless the turn counts as a restore. |
| Acceptance.AcceptCell | evals/agentic-replay.py:1959-1999 | The acceptance tail reports exactly the stated problems, and none if and only if the cell is complete, its token counts equal the preflight's, its sessions are long enough and reuse their prompts, and the recurrent evidence holds where required. |
| Acceptance.AcceptedMeans | evals/agentic-replay.py:1959-1999 | A cell is accepted if and only if its log passes, each request counted the prompt tokens of its last qualified turn, and, where asked for, each session had a prompt of the minimum length, a cached answer after its first turn, and evidence without problems. |
| Acceptance.AcceptedRequestsFit | evals/agentic-replay.py:1827-1855 | End to end: if the preflight passed and a measured cell is accepted, every replayed request succeeded and its prompt tokens plus its requested output fit the preflight context. |
| Acceptance.AcceptedRunFits | evals/agentic-replay.py:1373-1390 | The same for every schedule of the worker pool: no request of an accepted run outgrew the preflight context. |
| WorkerPool.StepKeepsGood | evals/agentic-replay.py:1373-1388 | Every event of the pool keeps its invariant: each started session belongs to one worker or is finished, and its results are its own replay so far. |
| WorkerPool.ReachableIsGood | evals/agentic-replay.py:1373-1388 | The invariant holds in every state that any schedule reaches. |
| WorkerPool.FinishedIsReplay | evals/agentic-replay.py:1376-1388 | Whatever the interleaving, the collected results of each session are a sequential replay of it. |
| WorkerPool.WorkersAreBounded | evals/agentic-replay.py:1373-1374 | No schedule ever has more requests in flight than the concurrency or the number of sessions. |
| WorkerPool.AllAreBusy | evals/agentic-replay.py:1373-1388 | When the sessions have turns, some schedule has min(concurrency, sessions) requests in flight at once. |
| PoolGuarantees.EverySchedulePassesUnlessErrors | evals/agentic-replay.py:1373-1390 | For every schedule the finished cell passes the completeness check if and only if session ids are distinct, each session has a turn and no request reported an error. |
| PoolGuarantees.LogAndResultsAgree | evals/agentic-replay.py:1366-1371 | At any moment the shared, interleaved record log has the same per-session logs, hence the same verdict, as the collected results. |
| PoolGuarantees.ElapsedIsBounded | evals/agentic-replay.py:1217-1231 | In every reachable state the successful requests' elapsed times sum to at most workers * window. |
| PoolGuarantees.UtilizationIsBounded | evals/agentic-replay.py:1232-1292 | The mean number in flight never exceeds min(concurrency, sessions), and utilisation never exceeds 100 percent. |
| PoolGuarantees.RunLength | evals/agentic-replay.py:1373-1388 | Every schedule spends exactly one of a fixed number of moves per event, so no schedule runs for ever. |
| PoolGuarantees.NeverStuck | evals/agentic-replay.py:1373-1388 | No reachable unfinished state is without a next event. |
| CellSummary.PercentileIsNearestRank | evals/agentic-replay.py:861-866 | The percentile is one of the samples; at least `rank` samples do not exceed it and fewer than `rank` lie below it. |
| CellSummary.RankMeaning | evals/agentic-replay.py:861-866 | The rank is the fraction of the count rounded up. |
| CellSummary.MeanInFlightMeans | evals/agentic-replay.py:1217-1292 | The window runs from the first start to the last completion of a successful request; the mean in flight is the sum of their durations over it, and utilisation that mean over the offered concurrency. |
| CellSummary.IdsAreCounted | evals/agentic-replay.py:1240-1251 | The failed and successful ids are listed as often as requests failed or succeeded under them. |
| CellSummary.PromptExtremes | evals/agentic-replay.py:1252-1257 | The reported extremes exist as soon as a request succeeded and bound every successful prompt. |
| PooledGates.GroupCells | evals/agentic-replay.py:2026-2031 | The grouping loop keeps, per arm and concurrency, the cells in pass order, and its keys are those that occur. |
| PooledGates.PoolRows | evals/agentic-replay.py:2025-2264 | The pooling loops return, for each key, the row of its group compared with the first arm's row at the same concurrency. |
| PooledGates.CheckRow | evals/agentic-replay.py:2304-2355 | Exactly the configured checks of a row are recorded, each with its own verdict, and they all pass if and only if the row passes every configured gate. |
| PooledGates.EvaluateGates | evals/agentic-replay.py:2277-2360 | Nothing is evaluated unless a gate is configured; otherwise the checks are those of all rows, or the one for missing rows, and the gates pass if and only if there is a row and every row passes. |
| GateGuarantees.KeysAgainstBag | evals/agentic-replay.py:2137-2139 | A key set inside a bag of ids is no larger than the bag, and as large only if it is the bag. |
| GateGuarantees.KnownMeansHashed | evals/agentic-replay.py:2137-2139 | When the record counts agree in total, every cell recorded one hash for each of its successful ids and no id twice. |
| GateGuarantees.PassingGatesAccountForRequests | evals/agentic-replay.py:2304-2344 | If the gates pass with output matching, then in every cell of every pass of every arm nothing failed, no id occurs twice and every success has a hash. |
| GateGuarantees.PassingGatesMatchOutputs | evals/agentic-replay.py:2223-2248 | If the gates pass with output matching, requests with one id at one concurrency have equal hashes across all arms and passes. |
| GateGuarantees.PassingGatesCoverEveryArm | evals/agentic-replay.py:2223-2248 | If the gates pass with output matching, what a cell of one arm answered, some cell of every other arm measured at that concurrency answered too, with the same hash. |
| GateExactness.GatesPassIff | evals/agentic-replay.py:2025-2360 | The exact condition for every configuration of gates, on the raw requests of all passes: at each measured arm and level nothing failed, and per configured gate all prompts lie in range, the summed cached tokens reach the percentage of the summed prompt tokens, the outputs are known and like the first arm's, the middle waiting time exceeds the first arm's by at most the limit. |
| GateExactness.OutputGateIff | evals/agentic-replay.py:2137-2142 | The output gate alone passes if and only if at every measured level the first arm was measured, nothing failed, something was answered under an id, each cell used each id once and hashed its answer, and each arm sent as many requests as the first arm and got the same single hash for the same ids. |
| GateExactness.MiddleIsUnique | evals/agentic-replay.py:861-866 | At most one value is the middle of a list: at least half of the values do not exceed it and fewer than half lie below it. |
| GateGuarantees.LatencyGateComparesLikeWithLike | evals/agentic-replay.py:2345-2355 | A passing first-token gate compared the row with a baseline of the same requests, failures and comparable outputs, and bounds the median by the allowed factor. |
| GateGuarantees.RangeGateConfinesEveryPrompt | evals/agentic-replay.py:2312-2326 | A passing prompt-range gate confines the prompt length of every single request. |
| GateGuarantees.PooledConcurrency | evals/agentic-replay.py:2111-2121 | The pooled concurrency is total busy time over total window and stays between zero and the offered concurrency. |
| PooledUtilization.RunIsBusyWithin | evals/agentic-replay.py:1217-1234 | The summary of any pool run, stopped anywhere, reports a mean concurrency whose busy time is within offered concurrency times window. |
| PooledUtilization.RowStaysWithinConcurrency | evals/agentic-replay.py:2111-2121 | Whatever the schedules of the pooled passes, the row reports a concurrency between zero and the offered one and at most 100 percent utilisation, also when no pass has a positive window. |
| ResumableRun.AbOrder | evals/agentic-replay.py:325-332 | The alternating schedule, or a refusal for a nonpositive pass count. |
| ResumableRun.ScheduleDistinct | evals/agentic-replay.py:325-332 | With distinct arms no (pass, arm) slot occurs twice. |
| ResumableRun.PositionsBalance | evals/agentic-replay.py:325-332 | Over an even number of passes the indices at which an arm stands in the passes of the schedule sum to passes * (arms - 1) / 2, the same for every arm. |
| ResumableRun.RunStore.RunBenchmark | evals/agentic-replay.py:2885-2946 | One start of the loop, stopped after any number of persisted writes, stores exactly the earlier results and the first slots still to run; it refuses exactly for a zero pass count, for a stored run without resume and for a changed identity, and then stores nothing. |
| ResumableRun.InvokeKeepsPrefix | evals/agentic-replay.py:2933-2945 | A start keeps the stored slots a prefix of the schedule, keeps earlier results as they are and never changes the run's identity. |
| ResumableRun.HistoryIsPrefix | evals/agentic-replay.py:2885-2945 | After any history of starts and crashes the stored slots are a prefix of the schedule, and a longer history only extends a shorter one. |
| ResumableRun.ResultsAreMeasured | evals/agentic-replay.py:2885-2945 | After any history every stored result is what some start of the same run measured for the slot that it stands for. |
| ResumableRun.FinishedRunIsTheSchedule | evals/agentic-replay.py:2933-2946 | A start holds exactly the schedule afterwards if and only if it could run every slot that was still missing, however often the run was interrupted before. |
| ResumableRun.BaselineIsFirstArm | evals/agentic-replay.py:2217-2222 | The pooled baseline is always the first arm of the run. |
| FinalVerdict.Conclude | evals/agentic-replay.py:2946-2970 | The run fails if and only if some cell is not accepted, or a configured gate fails on some row or has no row. |
| FinalVerdict.PassedRunIsReproducible | evals/agentic-replay.py:2947-2957 | If the gates pass with output matching, any two complete cells at one concurrency answered every recorded turn, and answered it with the same hash. |
| FinalVerdict.RunThatDoesNotFail | evals/agentic-replay.py:2958-2971 | If a finished run does not fail, every cell of every scheduled slot is accepted, and with output matching all cells at one concurrency answered every recorded turn alike. |
| StreamReader.ToolCallParts.Merge | evals/agentic-replay.py:869-892 | Merging one fragment field by field changes the call at its index and no other call. |
| StreamReader.FoldIsPerIndex | evals/agentic-replay.py:869-892 | The folded call at an index is the fold of the fragments placed at that index, and exists exactly when there are some. |
| StreamReader.FoldOneMeaning | evals/agentic-replay.py:878-892 | A folded call has the last type, the last name and the in-order concatenation of all argument fragments. |
| StreamReader.SplitArguments | evals/agentic-replay.py:886-892 | Cutting an argument fragment in two that are merged at one index leaves the folded calls unchanged. |
| StreamReader.SameFoldIff | evals/agentic-replay.py:869-892 | Two sequences of fragments fold to the same calls if and only if they agree at every index, whatever their interleaving. |
| StreamReader.IndexedIgnoresPosition | evals/agentic-replay.py:1032-1035 | Fragments with an explicit index fold alike at every position of an event. |
| StreamReader.CommuteIndices | evals/agentic-replay.py:874-877 | Groups of fragments that never meet at an index may be merged in either order. |
| StreamRequest.ReadStream | evals/agentic-replay.py:966-1094 | The event loop and its final checks compute the declared response to a sequence of timed lines. |
| StreamRequest.AnsweredIff | evals/agentic-replay.py:1046-1069 | A stream is answered if and only if its first ending line is the done marker and the body before it generated output, counted tokens and reported consistent usage; a qualification probe is excused from the first two. |
| StreamRequest.IndicesAreKeys | evals/agentic-replay.py:903 | The index list is strictly rising and holds exactly the keys of the folded calls. |
| StreamRequest.GapsTelescope | evals/agentic-replay.py:1081-1084 | The inter-token gaps add up to the last minus the first event time. |
| StreamRequest.SameOutputSameIdentity | evals/agentic-replay.py:895-908 | Bodies with equal texts that agree at every tool index have the same hashed identity, for every interleaving and every division into events. |
| StreamRequest.SplitEvent | evals/agentic-replay.py:1018-1035 | Cutting any event in two, anywhere in both texts and between any two of its tool fragments, leaves the hashed identity unchanged when the fragments of the second event are indexed. |
| StreamRequest.CutIsInvisibleIff | evals/agentic-replay.py:874-876 | A cut inside the arguments of a tool fragment, with a nonempty second part at the head of a new event, leaves the hashed identity unchanged if and only if the fragment has an index or stood first in its event. |
| StreamRequest.CommuteEvents | evals/agentic-replay.py:1018-1035 | Neighbouring events may arrive in either order if their fragments never meet at an index and only one of them brings each kind of text. |
| StreamMeaning.AnswerMeans | evals/agentic-replay.py:966-1094 | The whole answer in terms of the events before the done marker: when there is one, its identity, its figures as the last nonzero reports, its finish reason, and its times as those of the events that brought output. |
| StreamMeaning.IdentityIsWhatWasSaid | evals/agentic-replay.py:895-908 | The hashed identity holds the contents and the reasoning of all deltas one after the other, and per index in rising order the call that the fragments for it add up to. |
| StreamMeaning.OneIdentityIff | evals/agentic-replay.py:895-908 | Two bodies have one identity if and only if the concatenated contents, the concatenated reasoning and the calls in index order are equal. |
| StreamMeaning.EventGrowsIdentity | evals/agentic-replay.py:1018-1035 | One more event appends exactly its own content and reasoning to the identity and its fragments to the pieces of their index or position; an event without a delta adds nothing. |
| StreamMeaning.RecordMeans | evals/agentic-replay.py:1072-1094 | The recorded request carries the hash of what was said, the reported figures and the times of the events that spoke. |
| StreamOutcome.FigureIsNegativeIff | evals/agentic-replay.py:997-1007 | A usage figure ends up negative if and only if a negative report was not followed by a positive one. |
| StreamOutcome.AnsweredFigures | evals/agentic-replay.py:1046-1069 | The figures of an answered stream are natural numbers if and only if no negative report of cached or completion tokens was left standing; the prompt is then positive. |
| StreamOutcome.StreamsAreReceivable | evals/agentic-replay.py:1072-1094 | Every stream without such a report becomes an outcome, failed or served, that the worker pool can receive. |
| CohortAllocator.QuotasShareEvenly | evals/agentic-trajectory-manifest.py:72-80 | Quotas sum to the sessions per cohort and differ by at most one, earlier frameworks first. |
| CohortAllocator.CohortsHoldTheirRows | evals/agentic-trajectory-manifest.py:112-123 | On success with distinct framework names every cohort has exactly the sessions asked for, and row j that cohort c holds of a framework is number c * quota + j of the framework's eligible rows. |
| CohortAllocator.CohortsHoldTheFirstRows | evals/agentic-trajectory-manifest.py:112-123 | All cohorts together hold exactly the first eligible rows of each framework, as many as all cohorts need. |
| CohortAllocator.RefusalsMeanArguments | evals/agentic-trajectory-manifest.py:63-80 | The two argument errors occur exactly for an empty list or a nonpositive number, and for fewer sessions per cohort than frameworks. |
| CohortAllocator.SelectRows | evals/agentic-trajectory-manifest.py:82-111 | The selecting loop, with its skips, caps and early exit, returns what the scan of all rows returns. |
| CohortAllocator.EarlyExitChangesNothing | evals/agentic-trajectory-manifest.py:110-111 | Once every framework is full, the rows that the early exit skips cannot change the result, not even invalid ones. |
| CohortAllocator.Distribute | evals/agentic-trajectory-manifest.py:112-122 | The slicing loop fails with the first short framework, and otherwise gives each cohort its windows. |
| CohortAllocator.BuildCohorts | evals/agentic-trajectory-manifest.py:55-123 | The whole allocator equals its functional reading, including which error it raises. |
| CohortAllocator.ScanReadsKept | evals/agentic-trajectory-manifest.py:86-92 | On every dataset the scan reads only rows of a wanted framework whose session has no earlier row that was looked at. |
| CohortAllocator.ScanIsFilterAndTake | evals/agentic-trajectory-manifest.py:82-111 | On every dataset the scan succeeds if and only if none of these rows that it has to examine is invalid, and it then picks the first eligible ones of each framework up to the cap. |
| CohortAllocator.AllocatorOnDistinct | evals/agentic-trajectory-manifest.py:55-123 | On distinct framework names and distinct sessions it succeeds if and only if no examined row is invalid and no framework is short, and cohort c then gets the c-th window of the first eligible rows of each framework. |
| CohortAllocator.AllocatorMeetsSpec | evals/agentic-trajectory-manifest.py:55-123 | On distinct framework names and every dataset the same holds of the rows left after each session's rows behind its first examined one are dropped. |
| CohortAllocator.AppendingRowsChangesNothing | evals/agentic-trajectory-manifest.py:83-123 | Appending any rows to an input that succeeded leaves the cohorts unchanged. |
| CohortAllocator.SessionsPickedOnce | evals/agentic-trajectory-manifest.py:86-92 | No session is picked twice, even when the dataset repeats it. |
| CohortAllocator.CohortsAreDisjoint | evals/agentic-trajectory-manifest.py:119-122 | With distinct framework names no session id occurs twice anywhere in the output. |
| CohortAllocator.DisjointIffDistinctFrameworks | evals/agentic-trajectory-manifest.py:112-123 | On every input that succeeds, no session id occurs twice in the output if and only if the framework names are distinct. |
| HistoryGate.CoverageIsExact | scripts/agentic-replay-history.py:75-84 | There is no coverage problem if and only if the observed pairs list passes x levels without repetition. |
| HistoryGate.IncompleteReasons | scripts/agentic-replay-history.py:288-305 | A row has reasons if and only if it is incomplete, and exactly the stated ones. |
| HistoryGate.CompareRow | scripts/agentic-replay-history.py:308-364 | The comparison loop returns the declared problems. |
| HistoryGate.WorseMeansFivePercent | scripts/agentic-replay-history.py:354-358 | For a positive baseline the test fires if and only if the candidate is more than five percent worse in the metric's direction. |
| HistoryGate.ImprovementReportedIff | scripts/agentic-replay-history.py:345-363 | On a complete row with three comparable values the comparison reports a metric that is better than the median if and only if the median is zero, or it is negative and the metric is better by more than five percent of it. |
| HistoryGate.MedianOutvotes | scripts/agentic-replay-history.py:341-358 | More than five percent worse than the median of three is more than five percent worse than at least two of them. |
| HistoryGate.RegressionIff | scripts/agentic-replay-history.py:308-364 | A complete row with three comparable values and a positive median is reported if and only if it is over five percent worse than the median of the last three matching complete rows, hence than at least two of them. |
| HistoryGate.VerdictOnLastRuns | scripts/agentic-replay-history.py:308-364 | The verdict in full, for a median of any sign: the compared values are those of the runs of the same model file, hardware, replay settings and sessions with none, one and two such runs behind them, and a metric is reported exactly when it is on the wrong side of five percent around the middle of the three, or moved from zero. |
| HistoryGate.ForeignRowsDoNotMatter | scripts/agentic-replay-history.py:314-323 | Inserting non-matching or incomplete rows anywhere in the history changes nothing. |
| HistoryGate.Decide | scripts/agentic-replay-history.py:459-495 | The exit code is 1 if and only if there is an integrity problem or a gated regression; repair is requested if and only if reports are on, the gate is on, there are regressions and there is no integrity problem. |
| HistoryGate.PriorFilterIsRedundant | scripts/agentic-replay-history.py:471-478 | Filtering the stored rows by replay settings before comparing does not change the comparison. |
| HistoryGate.DecideRepair | scripts/agentic-replay-history.py:480-493 | A repair is requested if and only if the gate is on, the matrix is whole, there are rows, all complete, and some metric moved against the runs stored for its model and concurrency; the exit code is then 1. |

## Left out

- Processes, sockets, HTTP, git, DuckDB, server start-up, heartbeats, argument parsing, engine command lines, rendering
  to SVG, Markdown and CSV, bootstrap intervals: only the results of such calls appear, as inputs.
- Floating point: the model computes over integers and reals, so results within a rounding error of a threshold may
  differ from the program's.
- The disk-L3 lifecycle runner (`final_checkpoint_request` passes arguments that `replay_trajectory` does not take) and the
  replay modes other than `all`, which the code refuses.
- The other A/B runners, smoke tests and family reports: small aggregations similar to those modelled.
- Performance fields of summaries and pooled rows that no gate reads (decode speed, agent steps, budget exhaustion, p95):
  they would only add easy members.
- The order of pooled rows (the source sorts them by label and concurrency), sorted lists of ids (kept as bags or
  sets, since only their contents are compared) and legacy cells without `failed_request_ids`.
- Payloads with unexpected JSON types: truthy content that is not a string, boolean indices, usage that is not an
  integer; the model represents such a field as absent.
- Tool schemas, `source_dataset`, `recorded_model` and other metadata that requests and rows only carry along.
- The message checks of `validate_messages`: a dataset row is either invalid or has a number of assistant turns.
- Duplicate cohort names in the allocator, for which the source's dict would merge the windows of equal names; results
  are given per position.
- The contents of report rows (throughput, progress events, retries counted in output text): the loaders' choice of
  files is modelled, not what is computed from them.
- `build_rows`, `load_cells` and `verify_session_artifacts` of the history script, the `converted_values` branches other
  than query/key, tensor name mapping, and the parity rows: field-by-field conversions.
- SessionSummaries.Summaries: a request with an empty error text counts as failed here, whereas the source would stop on its
  missing token counts.
- CompetitivePlan.RunBenchmark: the number of prompts in the trace manifest is assumed to be the configured selection, as the
  source's manifest verification requires; that verification is not part of this model.
- StreamRequest.SplitEvent: a cut that moves whole fragments without an index to another event has no exact condition here. It
  may leave the identity as it was, for a moved fragment can land at another index and keep its place in the order.
- PooledGates.PoolRows: does not compute the performance fields and does not order the rows, as said above.
- StreamRequest.ReadStream: a response status other than 200 is a raised exception here, and the server's error texts are
  not formatted.

# Release-evidence tooling: a verified model

ProbOS decides whether a change may ship from evidence that its `scripts/` produce: a test run split over
shards and workers, a canonical gate that runs the checks on a materialized tree, a selector that may leave
tests out, an append-only ledger of what the selector would have done, and several inventories of the source
tree. This project models those programs in Dafny and proves what they are for: every test ran exactly once,
nothing was left out that the change could affect, no recorded observation was rewritten, and each inventory
finds what it says it finds.

The files follow the program:

- `Graham`, `Planner`, `PlannerProperties`, `PlanRules`: the shard planner, Graham's bound for it, and the one plan
  that its rule allows.
- `ShardEvidence`, `Verifier`, `VerifierProperties`, `Acceptance`, `Recorder`: what each worker process writes, the
  verifier that reads all of it, both directions between an accepted verdict and exactly-once execution, and the
  accepted evidence value by value.
- `Gate`, `GateProperties`, `JUnit`, `GateEvidence`, `GateTiming`, `Durations`, `DurationsProperties`, `Collections`:
  the canonical gate and what its answer means, its JUnit and collection checks, the timing analysis, and the
  durations file that feeds the planner.
- `Selector`, `SelectorRules`, `Ledger`, `LedgerProperties`, `Lines`: the fail-broad selector, its verdict stated on
  the change alone, and the hash-chained ledger.
- `Scanner`, `ClassMembers`, `Dormant`, `DormantProperties`, `StoreRegistry`, `StoreProperties`, `Graphs`: chunked
  byte scanning, member resolution over possibly cyclic inheritance, liveness and schema kinds, store claims and
  their baseline.
- `Ordering`, `NodeIds`, `Text`, `Wrappers`: string order and sorting, node IDs and digests, helpers.

Loops and mutable objects of the original are methods, loops and classes here, each proved against a
specification; the theorems are lemmas about the specification. External effects (git, processes, clocks,
file system, JSON, SHA-256) are parameters: a digest is an arbitrary function, and collision freedom is a
hypothesis only where a row says so. Seconds are exact reals.

## What the proofs found

Where the code falls short of what its comments or tests suggest, the model follows the code, and the exact
condition is proved.

- The chunked id scan finds everything the whole-file pattern finds, but it can find more: when a run of more
  than 64 hex digits has its first 64 end exactly at the end of a read, they are accepted as an id, whatever the
  size of the reads (`Scanner.ChunkingCanFindMore`). The chunked scan is the whole-file scan if and only if every
  target that a block edge cuts off a longer run also stands isolated somewhere (`Scanner.ChunkedIsWholeIff`).
- The gate's collection validation compares a JSON exit status with 0 by value, so `false` and `0.0` pass; the
  timing re-check asks for an integer. `GateEvidence.ValidatorsCanDisagree` is evidence that one accepts and the
  other does not; on accepted evidence the two agree if and only if every exit status is an integer
  (`GateEvidence.ValidatorsAgree`).
- Suites whose declared failures cancel (+1 and -1) are accepted (`JUnit.CountersMayCancel`). In an accepted
  report without failures every suite declares none if and only if no suite declares a negative number, and the
  same holds for errors (`JUnit.NoneDeclaredIff`). The testcase records are right either way
  (`JUnit.CleanTotalsMean`).
- The ledger's chain protects everything before the tail. Rows cut off the end leave a clean ledger
  (`LedgerProperties.CleanPrefix`).
- Widening a change set never drops a selected test, except when the smaller set failed broad only because it
  resolved to no test: `Selector.MoreChangesCanDrop` is such a pair of change sets, and
  `Selector.DropsExactlyWhen` is the exact condition on the two inputs.
- Regenerating the store baseline leaves out every named owner module, while the check leaves out only those
  that resolve. The regenerated baseline passes if and only if every declared owner that creates tables is
  claimed by some declaration (`StoreRegistry.RegeneratedIsClean`); `StoreRegistry.UnresolvedOwnerReported` is
  a declaration for which it does not.

## Model

| member | source | states |
|---|---|---|
| Graham.Bound | scripts/ci_shards.py:237-250 | for every longest-first greedy schedule on N shards and every other schedule that fits in M, each greedy load L has 3·N·L ≤ (4·N−1)·M |
| Graham.BoundIsTight | scripts/ci_shards.py:237-250 | for every N there are 2N+1 files, a longest-first greedy schedule and another schedule that meet the bound with equality, so the constant cannot be lowered for any N |
| Graham.Balanced | scripts/ci_shards.py:246-250 | at every step two shards differ by at most the heaviest file |
| Graham.EveryShardUsed | scripts/ci_shards.py:246-251 | once N files are placed every shard holds exactly one, and none is ever empty again |
| Graham.HeavyCase | scripts/ci_shards.py:237-250 | while every file is heavier than a third of the optimum, longest-first is as good as any schedule |
| Planner.LeastKey | scripts/ci_shards.py:247 | the chosen shard precedes every other in (load, size, index) |
| Planner.PlaceFiles | scripts/ci_shards.py:243-250 | the running tables after the loop are the shards, loads and file counts of the greedy rule applied to the whole order |
| Planner.PlaceGreedy | scripts/ci_shards.py:246-250 | every placement goes to a shard that was least loaded, then least filled, when it was made |
| Planner.NoShardEmpty | scripts/ci_shards.py:251-256 | with at least as many files as shards every shard gets one |
| Planner.FillShards | scripts/ci_shards.py:243-256 | the empty-shard refusal happens exactly when there are fewer files than shards |
| Planner.WeighFiles | scripts/ci_shards.py:232-242 | refuses exactly on a recorded duration below 1 of a collected file; otherwise weighs known files by their record and the rest by node count and mean |
| Planner.WeightsPositive | scripts/ci_shards.py:232-242 | every collected file weighs at least 1 |
| Planner.AssignFiles | scripts/ci_shards.py:214-262 | counting, weighing, sorting and placing in loops gives the plan defined on the set of node IDs, or the first refusal |
| PlannerProperties.PlanIgnoresOrder | scripts/ci_shards.py:226-262 | permuted node IDs give the identical plan or refusal |
| PlannerProperties.PlanCovers | scripts/ci_shards.py:226-262 | each collected file has one shard in 1..N, none is empty, each estimate is the weight of its files, and the estimates sum to the whole weight |
| PlannerProperties.NearOptimal | scripts/ci_shards.py:237-250 | no shard of the plan exceeds (4N−1)/(3N) of the longest shard of any other split of the same files |
| PlannerProperties.NearlyLevel | scripts/ci_shards.py:237-250 | the longest and shortest shard differ by at most the heaviest file |
| PlannerProperties.AssignedPartition | scripts/ci_shards.py:265-269 | the shards' node lists together hold each collected node exactly once, and none is empty |
| PlannerProperties.AssignedOnce | scripts/ci_shards.py:265-269 | how often a node occurs over shards 1..n: once if collected and owned by one of them, else never |
| PlanRules.WeightRule | scripts/ci_shards.py:232-242 | a recorded file weighs its milliseconds; every other file weighs its collected nodes times one number: 1000 when no recorded file is collected, else the recorded milliseconds per node rounded down, at least 1 |
| PlanRules.PlanFollows | scripts/ci_shards.py:243-250 | every file is on the shard that, over the heavier files and the equally heavy ones with a lesser path, has the least load, then the fewest files, then the least index |
| PlanRules.OnePlan | scripts/ci_shards.py:243-250 | and no other assignment to shards 1..N has that property |
| PlanRules.PlanRecords | scripts/ci_shards.py:257-262 | the unrecorded files are listed sorted, and the digest is over the files with their shards, sorted by file |
| PlanRules.RefusedWhen | scripts/ci_shards.py:226-256 | each refusal is given exactly in its case: no shard, repeated nodes, a recorded duration below 1, or fewer files than shards |
| NodeIds.EndsAtSeparator | scripts/ci_shards.py:78-80 | the file of a node ID ends where the first `::` starts |
| ShardEvidence.EncodeRoundTrip | scripts/ci_shards.py:272-310 | written evidence passes the shape rules exactly when its values are presentable, and reads back unchanged |
| Acceptance.OnlyAtItsPlace | scripts/ci_shards.py:372-416 | written evidence is well-formed exactly when presentable and read as the worker, in the shard and for the shard count it was written for |
| Verifier.CheckShardWorkers | scripts/ci_shards.py:465-493 | adds exactly the problems that hold: no file, a non-zero exit, worker counts or run ids that differ, names missing or not expected; none exactly when the workers are `main` alone or gw0..gw(k−1), with one count, exit 0 and one run id |
| Verifier.ReadShard | scripts/ci_shards.py:440-462 | answers the well-formed payloads and adds exactly the problems of unusable entries and of the workers that were read |
| Verifier.ReadShards | scripts/ci_shards.py:418-437 | adds exactly the problems of the root, of missing or unexpected names and of each shard; none exactly when the root holds shard-1..shard-n, nothing else, and each reads clean |
| Verifier.AgreedCollection | scripts/ci_shards.py:496-528 | answers the first verified primary collection when all claims agree, and adds exactly the problems: nothing readable, claims that differ, a primary that is not canonical or does not hash to its claim, no primary that verifies |
| Verifier.ReferenceCarried | scripts/ci_shards.py:515-528 | the agreed collection is really carried by a primary worker, is sorted, free of repeats and hashes to its claim |
| Verifier.CheckAssignment | scripts/ci_shards.py:531-559 | adds one problem for exactly each field of a worker that differs from the value recomputed from the plan |
| Verifier.CheckExecutions | scripts/ci_shards.py:562-609 | the missing nodes, the duplicated ones with the place of each run, and the unexpected reports with their multiplicity are those of all setup reports |
| Verifier.VerifyEvidence | scripts/ci_shards.py:612-651 | `ok` holds exactly when the evidence satisfies one condition, `Verified`; a problem is listed exactly when it is warranted, and the node total and execution findings are those of the agreed collection |
| VerifierProperties.ExecutionsMean | scripts/ci_shards.py:562-609 | nothing missing, repeated or misplaced if and only if every shard ran exactly its own nodes, each once |
| VerifierProperties.AcceptedMeansExactlyOnce | scripts/ci_shards.py:612-651 | soundness, for any digest function: N complete shards, and all reports together are the collection, each node once and in its owning shard |
| VerifierProperties.AcceptedCollectionsIdentical | scripts/ci_shards.py:496-528 | with a collision-free digest every worker claims the size and digest of the one collection, and that digest belongs to no other list of nodes |
| VerifierProperties.HonestRunIsAccepted | scripts/ci_shards.py:531-651 | completeness: evidence of any clean run is accepted, however its nodes were spread over the workers |
| VerifierProperties.HonestEvidenceIsBuilt | scripts/ci_shards.py:272-310 | the evidence of an honest run is what the builder writes for that process |
| Acceptance.AcceptedExactly | scripts/ci_shards.py:418-651 | the verdict, with no hypothesis on the digest: a root is accepted with a collection if and only if it holds exactly the planned shards, in each the files of one complete set of workers whose payloads carry the recomputed values one by one, exit 0 and one run id, and whose setup reports are the shard's nodes, each once |
| Acceptance.AcceptedHasJob | scripts/ci_shards.py:418-651 | every accepted root is accepted for some such collection and plan |
| Acceptance.AcceptedFields | scripts/ci_shards.py:531-559 | each accepted worker exited 0 and reports the recomputed durations digest, assignment digest, assigned nodes, counts and map |
| Acceptance.FailedRunRefused | scripts/ci_shards.py:465-493 | a root that holds evidence built for a process with a non-zero exit status is not accepted |
| Acceptance.MisplacedRefused | scripts/ci_shards.py:372-416 | a root that holds evidence at another worker, shard or shard count than it was written for is not accepted |
| Acceptance.DifferencesListed | scripts/ci_shards.py:531-559 | each field is listed as different exactly when that value differs from the recomputed one |
| Acceptance.ShardFindings | scripts/ci_shards.py:440-493 | each finding about a shard directory is listed exactly when its entries or workers are so |
| Acceptance.RootFindings | scripts/ci_shards.py:418-437 | a finding about the root is listed exactly when it is no directory, lacks shard k, or has a shard beyond n or an entry of another name |
| Acceptance.ClaimFindings | scripts/ci_shards.py:496-528 | nothing readable, differing claims and no verifiable collection are listed exactly when no worker was read, two claims differ, or no primary worker carries what all claim |
| Acceptance.PrimaryFindings | scripts/ci_shards.py:515-528 | with one claim, a primary worker's collection is listed exactly when it does not carry the claim, as unsorted or as of another digest or size |
| Acceptance.ExecutionFindings | scripts/ci_shards.py:562-609 | a collected node is missing when nobody reported it and duplicated, with the place of every report, when there are several; a report is unexpected when its node is not collected or belongs to another shard |
| Recorder.SplitCollection | scripts/_ci_shard_pytest_plugin.py:119-150 | refuses exactly on duplicate items, on items changed by another hook, or when there is no plan; the plan is that of the sorted collection |
| Recorder.ShardRecorder.CollectionModifyItems | scripts/_ci_shard_pytest_plugin.py:119-158 | a refusal changes nothing; otherwise the item list keeps this shard's items in their order and the rest is reported deselected |
| Recorder.ShardRecorder.SessionFinish | scripts/_ci_shard_pytest_plugin.py:164-187 | evidence is written exactly when a collection was planned; each value of the payload is that of this process, its exit status and setup reports included |
| Recorder.KeptIsAssigned | scripts/_ci_shard_pytest_plugin.py:140-158 | the items a process keeps are exactly the nodes the verifier expects of its shard |
| Lines.AppendLine | scripts/select_tests.py:1181-1193 | a line written after a terminated text adds exactly that line to the stored lines |
| Lines.PrintableFits | scripts/select_tests.py:1181-1193 | a line of printable ASCII that is not all spaces is stored as one non-blank line |
| Ledger.LedgerFile.Append | scripts/select_tests.py:1201-1217 | refuses exactly on a partial last line; otherwise the stored text only grows, by one line chained to the last |
| Ledger.LedgerFile.DeclareEnrollment | scripts/select_tests.py:1220-1259 | writes the header exactly on an empty ledger |
| Ledger.LedgerFile.RunShadow | scripts/select_tests.py:1377-1512 | appends exactly when readable, terminated and not a dry run; the row's eligibility is the history's, and the answer is the refusal, the dry run's eligibility or the row, with exactly the complaints that hold |
| Ledger.LedgerFile.Check | scripts/select_tests.py:1321-1374 | reports exactly the faults of the lines and of the readable rows, each with its number; none exactly on a header followed by chained run rows whose eligibility and digests recompute |
| LedgerProperties.LineFaultsExactly | scripts/select_tests.py:1287-1318 | the faults of lines: not readable, no chain, or not the digest of the line before |
| LedgerProperties.StructureFaultsExactly | scripts/select_tests.py:1321-1337 | the faults of the structure: no rows, no header first, more than one header, another kind of row |
| LedgerProperties.RowFaultsExactly | scripts/select_tests.py:1338-1374 | the faults of a row: eligibility or the digest of its nodes do not recompute from the rows before it |
| LedgerProperties.TailDeterminesHistory | scripts/select_tests.py:1287-1318 | with a collision-free digest two clean ledgers with the same last line are equal line for line |
| LedgerProperties.TailDeterminesLedger | scripts/select_tests.py:1287-1374 | the same for the stored files |
| LedgerProperties.CleanPrefix | scripts/select_tests.py:1287-1374 | every non-empty prefix of a clean ledger is clean: truncation is not seen |
| LedgerProperties.EligibleRowsDistinct | scripts/select_tests.py:1338-1362 | eligible rows of a clean ledger have pairwise different fingerprints |
| LedgerProperties.ShadowKeepsClean | scripts/select_tests.py:1377-1512 | a shadow run keeps a clean ledger clean and strictly extends it by one line when it records |
| LedgerProperties.DeclaredClean | scripts/select_tests.py:1220-1259 | a declared ledger is clean and holds one line |
| LedgerProperties.EveryRunIsClean | scripts/select_tests.py:1412-1512 | after any series of shadow runs, whatever is observed, the ledger is clean, holds one line per recording run and extends what was stored before |
| LedgerProperties.DeclaredHeader | scripts/select_tests.py:1220-1259 | the one line of a declared ledger is a header whose cutoff is the time of the declaration |
| LedgerProperties.EligibleExactly | scripts/select_tests.py:1412-1512 | the next row recorded after any series of runs is eligible if and only if its fingerprint is not empty and in no recorded observation before, some path changed, and its time is after the declaration |
| Selector.ValidateMap | scripts/select_tests.py:639-690 | gives exactly the map rules that fire |
| Selector.DiffReasons | scripts/select_tests.py:796-812 | gives exactly the change rules that fire; an unreadable diff counts as deletion and rename |
| Selector.PathReasons | scripts/select_tests.py:814-850 | gives a path rule exactly when some changed path triggers it |
| Selector.Select | scripts/select_tests.py:763-945 | the passes give the one verdict that the rules define: fail broad with every node, or exactly the nodes that are related, uncontexted or crossing |
| Selector.ContextedIsPython | scripts/select_tests.py:358-374 | only nodes of Python files have a context |
| Selector.DroppedIsUnrelated | scripts/select_tests.py:825-945 | on `selected`, a dropped node has its own context in the map, that context covers no changed path, its file is unchanged, and it is neither uncontexted nor crossing |
| Selector.NeverTooLittle | scripts/select_tests.py:895-945 | fail broad returns the full set, and a non-empty change never selects nothing of a non-empty collection |
| Selector.MoreChangesMoreTests | scripts/select_tests.py:804-945 | extending a change set whose verdict was `selected` drops no selected node |
| Selector.MoreChangesCanDrop | scripts/select_tests.py:906-931 | without that hypothesis it fails: a map, two tests and two changes where the wider change set drops a test |
| Selector.DropsExactlyWhen | scripts/select_tests.py:895-945 | a wider change set drops a node if and only if the narrower one resolved to no test and the wider one fires no rule and resolves to some tests but not all |
| SelectorRules.GlobStar | scripts/select_tests.py:445-453 | the text before the first star of a pattern is literal, and the star takes any text before what the rest matches |
| SelectorRules.BlastsMean | scripts/select_tests.py:217-233 | the paths that match a blast-radius pattern, written as names, prefixes and suffixes |
| SelectorRules.VerdictExactly | scripts/select_tests.py:763-945 | the verdict is `selected` if and only if the map is current, the contexts account for every node, nothing was deleted, renamed or copied, every touched path can be related and is in no blast radius, and some test is related if anything changed; then exactly the forced and related nodes run |
| SelectorRules.ReasonsExactly | scripts/select_tests.py:763-945 | every reason is given exactly when its condition on map, change and collection holds |
| SelectorRules.BlastFailsBroad | scripts/select_tests.py:814-820 | any change that touches a blast-radius path or the selector itself runs the whole collection |
| SelectorRules.ContextOfTest | scripts/select_tests.py:358-374 | the context of a test function or method is its module and names with dots, whatever its parameters |
| SelectorRules.NoContextExactly | scripts/select_tests.py:358-374 | a node has no context exactly when it has no test name or its file is no Python file |
| SelectorRules.NoMapFailsBroad | scripts/select_tests.py:763-795 | without a map everything runs |
| JUnit.ParseJUnit | scripts/run_test_gate.py:1387-1496 | accepts exactly the reports of well-typed suites whose declared counters are those of the records, with something executed and every required file seen; the totals are those of the records and the summed suite time |
| JUnit.TalliesFit | scripts/run_test_gate.py:1442-1492 | with one outcome per testcase the categories never exceed the testcases, so agreement implies the range checks |
| JUnit.AcceptedExactly | scripts/run_test_gate.py:1387-1496 | the condition value by value: numbers everywhere, one outcome per testcase, declared counters equal to the numbers of testcases with each outcome, something not skipped, and a testcase for every required file |
| JUnit.CleanTotalsMean | scripts/run_test_gate.py:1418-1492 | accepted totals have no failure and no error if and only if every record passed or was skipped |
| JUnit.SomePassed | scripts/run_test_gate.py:1418-1492 | and then some record passed: a report of skipped testcases alone is not accepted |
| JUnit.CountersMayCancel | scripts/run_test_gate.py:1418-1441 | suites that declare +1 and −1 failures are accepted with none |
| JUnit.NoneDeclaredIff | scripts/run_test_gate.py:1418-1441 | in an accepted report with no failure (or error) every suite declares none if and only if none declares a negative number |
| Gate.GateRun.Validate | scripts/run_test_gate.py:1855-1948 | ends as the phases' outcomes determine, with the first non-zero code or the exception; 0 exactly when preflight is green, the tree stood still and, in a full run, pytest, JUnit and collection are green |
| Gate.GateRun.CompareGateTree | scripts/run_test_gate.py:1949-1964 | a changed materialized tree can only take a 0 away |
| Gate.GateRun.Materialized | scripts/run_test_gate.py:1849-1964 | ends as set-up, block, final comparison and removal determine; 0 exactly when all of them succeed |
| Gate.GateRun.Admit | scripts/run_test_gate.py:1822-1974 | ends with the refusal code, an exception or the materialized run's end; 0 exactly when admission, that run and the source comparison succeed |
| Gate.GateRun.Finish | scripts/run_test_gate.py:2006-2101 | the manifest carries the answered code, the receipt exists exactly when asked for and 0 is answered, and it hashes that manifest |
| Gate.RunGate | scripts/run_test_gate.py:1770-2101 | over every outcome of every external step the answer is the one code or exception those outcomes determine; 0 exactly when all checks were green and nothing changed; manifest and receipt agree with the answer |
| GateProperties.CodesMean | scripts/run_test_gate.py:1770-2101 | an answered code is 0, 2, 3, 4, 5, 130 or the code of a phase; unless a phase gave it, 2 means a refused admission, 3 a tree that moved, 4 an error before the materialized tree was looked at, 130 an interrupt |
| GateProperties.ZeroIsGreen | scripts/run_test_gate.py:1770-2101 | the determined answer is 0 if and only if every step was green and the manifest could be written |
| GateProperties.RaisedCode | scripts/run_test_gate.py:1816-2030 | when the first trouble of a run is a step that raises, an interrupt gives 130, an error up to the first look at the materialized tree 4, and anything else 5 |
| GateProperties.TroubleCode | scripts/run_test_gate.py:1816-2030 | when the first trouble is a step that is not fine, a phase gives its own code, a moved tree 3, a complaint at admission 2, and a JUnit report that does not hold up 5 |
| GateProperties.MovedTree | scripts/run_test_gate.py:1949-2020 | a green validation during which the materialized or the source tree moved answers 3 |
| GateProperties.ReceiptRefused | scripts/run_test_gate.py:2070-2096 | a green run whose receipt cannot be written answers 5 |
| GateProperties.LateRaise | scripts/run_test_gate.py:1949-2030 | a look or clean-up after the validation that raises answers 130 for an interrupt and else 5; only the last look lets another code stand |
| GateProperties.RaiseOutlives | scripts/run_test_gate.py:1949-2005 | an exception of the validation decides the code even when the tree moved or its removal fails |
| GateProperties.ZeroMeansRanAndPassed | scripts/run_test_gate.py:1770-2101 | a full run that answers 0: the workers executed the collection, each node exactly once, JUnit has one record for each of them, and every record passed or was skipped |
| GateEvidence.ValidateCollection | scripts/run_test_gate.py:1239-1375 | succeeds exactly when the workers are complete and agree and their executions hold the collection, each node once, in the JUnit number; the artifact is the primary's collection with the workers' counts |
| GateEvidence.ValidExactly | scripts/run_test_gate.py:1239-1375 | the condition value by value: which workers there are, and identity, exit status, counts and digests before and after the run, unchanged items and executions of each |
| GateEvidence.MergeExecutions | scripts/run_test_gate.py:1317-1343 | merging refuses exactly on a missing list, a repeat inside a worker or a node of two workers |
| GateEvidence.EvidenceProblems | scripts/_gate_timing.py:395-445 | lists exactly the problems of workers, exit statuses, repeats, counts, sharing and coverage, in order; none exactly when the workers are the recorded ones, sound, disjoint and cover the collection |
| GateEvidence.ValidIsPartition | scripts/run_test_gate.py:1315-1375 | accepted executions partition the collection and their lengths sum to the JUnit total |
| GateEvidence.ValidatorsAgree | scripts/_gate_timing.py:395-445 | on accepted evidence the re-check is empty if and only if every exit status is an integer |
| GateEvidence.ValidatorsCanDisagree | scripts/_gate_timing.py:395-445 | one worker that ran the one collected node and wrote `false` for its exit status is accepted by the validation and rejected by the re-check |
| GateEvidence.SoundIsPartition | scripts/_gate_timing.py:395-445 | conversely an empty re-check implies the partition, each worker in its recorded number |
| Collections.PartitionIff | scripts/run_test_gate.py:1317-1343 | lists without repeats that are disjoint and cover a collection are exactly those whose union with multiplicity is the collection |
| Collections.OnceOnlyIff | scripts/run_test_gate.py:1317-1343 | the running check, one list at a time, is pairwise disjointness of lists without repeats |
| GateTiming.ReadJUnitTimes | scripts/_gate_timing.py:122-153 | the tables by node and by file hold every resolved testcase, in document order |
| GateTiming.TableMeans | scripts/_gate_timing.py:122-153 | each table entry is the seconds of the testcases of its key, and no key is left out |
| GateTiming.TableTotal | scripts/_gate_timing.py:122-153 | however testcases are grouped the groups sum to the same whole |
| GateTiming.TimeConserved | scripts/_gate_timing.py:504-576 | the workers' busy times plus unattributed time equal the time of all nodes and of all files |
| GateTiming.Critical | scripts/_gate_timing.py:550-576 | the critical worker is the one with the greatest busy time and, among equals, the least index |
| GateTiming.ReadTiming | scripts/_gate_timing.py:225-296 | a block is believed exactly when its events are in order and its entries are the executed files, count their nodes and fit the active span with 0.02 s to spare; then its events and seconds per file are answered |
| GateTiming.BelievedExactly | scripts/_gate_timing.py:225-296 | the condition value by value: version 1, the executed files and no others, and entries that count their nodes, run in order and together fit the active span with 0.02 s to spare |
| GateTiming.EventsExactly | scripts/_gate_timing.py:212-245 | the events are in order exactly when all six are stamps or null and no stamp is earlier than one of an earlier event |
| GateTiming.CheckEventOrder | scripts/_gate_timing.py:212-222 | comparing each stamp with the last one that was not null accepts exactly the stamps that are ordered pair by pair |
| GateTiming.BusyOf | scripts/_gate_timing.py:504-547 | a worker's files add up to its busy time, whether they come from its stamps or from JUnit |
| GateTiming.Analyse | scripts/_gate_timing.py:550-576 | each worker once in index order, the critical one busy longest, and the time of the nodes that no worker executed; nothing exactly when there is no worker |
| GateTiming.AnalysisConserves | scripts/_gate_timing.py:395-576 | when the re-check finds nothing, the analysed workers' JUnit times plus the unattributed time are the time of all nodes, of all files, and of all resolved testcases |
| Durations.Credited | scripts/gen_file_durations.py:136-142 | the file credited is that of the longest dotted-component prefix, and none exactly when no prefix is collected |
| Durations.DottedIndex | scripts/gen_file_durations.py:123-133 | refuses exactly when two files share a dotted name; otherwise one name per file |
| Durations.ReadTestcases | scripts/gen_file_durations.py:160-204 | accepts exactly when every element passed, has a time and is credited, one credit per element in order; otherwise the refusal names the first kind of defect that occurs |
| Durations.RunUnique | scripts/gen_file_durations.py:229-237 | a run has at most one index and one crediting that make it clean |
| Durations.BuildPayload | scripts/gen_file_durations.py:229-262 | writes version, counts, total, mean and table of the one clean reading of the run, and refuses exactly when there is none or it took no time |
| Durations.CreditedToOwnFile | scripts/gen_file_durations.py:153-157 | in an accepted run every testcase is credited to the file of its own collected node |
| DurationsProperties.CreditOfTest | scripts/gen_file_durations.py:136-204 | a passing test of a class chain in a collected file, whose class name no other collected file's dotted name claims further, is credited to that file under its own node ID |
| DurationsProperties.OwnReportIsClean | scripts/gen_file_durations.py:160-237 | completeness: the report of a run of exactly the collection, in any order, is accepted and credited test by test |
| DurationsProperties.KeysExactly | scripts/gen_file_durations.py:72-91 | a key is usable exactly when it is not empty, has no backslash, `::`, drive or root, and no `..` among its segments |
| DurationsProperties.TookTimeExactly | scripts/gen_file_durations.py:243-247 | the run has enough time to be written exactly when its mean per test is above half of the last digit |
| DurationsProperties.DocumentExactly | scripts/gen_file_durations.py:248-262 | the written total, mean and file times are the nearest numbers with one, four and one decimals, ties to even |
| Durations.WithinFifty | scripts/ci_shards.py:137-152 | seconds written to a tenth and read as milliseconds are off by at most 50 |
| Durations.MillisecondsExactly | scripts/ci_shards.py:137-151 | a time below a millisecond and a half is 1 ms, any other the nearest millisecond, ties to even |
| Durations.ReaderFeedsPlanner | scripts/ci_shards.py:137-182 | what the reader answers is at least 1 ms, so the planner never refuses it |
| Durations.ReadDurations | scripts/ci_shards.py:155-182 | accepts exactly the current version with usable keys and non-negative times; answers each file in milliseconds and the digest it was given |
| Durations.WriterToReader | scripts/gen_file_durations.py:229-262 | the planner's reader accepts every written document; its keys are the collected files, its testcases the nodes, unrounded times sum to the run's total, and each file is within 50 ms |
| Scanner.Scan | scripts/tts_audio_inventory.py:113-116 | adds exactly the targets that match somewhere; skipping past a match loses none |
| Scanner.MatchesExactly | scripts/tts_audio_inventory.py:113-116 | a target matches exactly when its 64 characters of 0-9a-f stand somewhere with none of them on either side |
| Scanner.ScanFile | scripts/tts_audio_inventory.py:119-130 | the loop with its 65-byte carry finds what the blocks hold and answers the first chunk's head |
| Scanner.BlockScanned | scripts/tts_audio_inventory.py:119-130 | the block scanned with a chunk is that chunk and the 65 bytes of the file before it |
| Scanner.ChunkedFindsAll | scripts/tts_audio_inventory.py:119-130 | however the file is cut, everything the whole-file pattern finds is found |
| Scanner.ChunkedFindsExactly | scripts/tts_audio_inventory.py:119-130 | exactly the targets found are 64 consecutive hex digits of the file, isolated as far as some block shows |
| Scanner.ChunkedIsWholeIff | scripts/tts_audio_inventory.py:119-130 | the chunked scan is the whole-file scan if and only if every target cut off a longer run at a block edge also matches in the whole file |
| Scanner.OneChunkIsExact | scripts/tts_audio_inventory.py:119-130 | a file that one read holds is scanned exactly |
| Scanner.ChunkingCanFindMore | scripts/tts_audio_inventory.py:119-130 | 64 hex digits at the end of a chunk of any size from 64 bytes on, and one more in the next: found, and not matched in the whole file |
| Scanner.HeadOfFile | scripts/tts_audio_inventory.py:71-130 | with reads of 16 MiB the answered head is always the file's first 16 bytes |
| ClassMembers.Resolve | scripts/phantom_api_ast_helper.py:842-869 | a walk with a shared visited set ends, marks only reachable classes, closes under parents and collects their members |
| ClassMembers.ResolveTransitive | scripts/phantom_api_ast_helper.py:842-869 | on every class graph the answer is the members of all indexed classes reachable from the start, and no others |
| Dormant.Live | scripts/check_dormant_classes.py:194-206 | the worklist ends with exactly the names reachable from the roots by same-module uses |
| Dormant.SchemaClasses | scripts/check_dormant_classes.py:213-227 | the result is closed under the base rule and contained in every closed set |
| Dormant.RecordUsers | scripts/check_dormant_classes.py:230-257 | the users of a name are the paths of the modules that use it |
| Dormant.BuildReport | scripts/check_dormant_classes.py:230-257 | reports exactly the public classes that are in not every set closed under the base rule and that no root of their module reaches |
| DormantProperties.DormantExactly | scripts/check_dormant_classes.py:230-257 | a class is reported exactly when its name is public, no chain of bases through any modules ends in a schema base, and no chain of same-module uses leads to it from a definition that is used elsewhere, by module-level code or registered |
| DormantProperties.SchemaKindExactly | scripts/check_dormant_classes.py:209-227 | being in every set closed under the base rule is having a chain of bases that ends in a schema base, by name or ending |
| DormantProperties.LiveExactly | scripts/check_dormant_classes.py:194-206 | being live is being at the end of a chain of uses that starts outside |
| Dormant.SchemaGrows | scripts/check_dormant_classes.py:213-227 | a larger tree has no fewer schema kinds |
| Dormant.LiveGrows | scripts/check_dormant_classes.py:194-206 | more modules or uses make no live name dead |
| Dormant.NeverTurnsDormant | scripts/check_dormant_classes.py:230-257 | adding modules or uses never makes an existing class dormant |
| StoreRegistry.ValidCompanions | scripts/check_store_registry.py:936-951 | companions count only as a tuple of distinct non-blank strings other than the owner |
| StoreRegistry.Registry.Claim | scripts/check_store_registry.py:1172-1189 | the first claimant of a module keeps it and every later claim is one error |
| StoreRegistry.ClaimAll | scripts/check_store_registry.py:1138-1232 | the declared modules are those claimed, and duplicate-claim errors are the attempts beyond one per module |
| StoreRegistry.CountRepeats | scripts/check_store_registry.py:1141-1164 | duplicate identifiers and paths are counted as the repeats of the non-blank names |
| StoreProperties.NamedExactly | scripts/check_store_registry.py:1141-1164 | a name that is not blank counts once wherever it is given |
| StoreRegistry.DeclaredMeans | scripts/check_store_registry.py:1165-1232 | a module is declared exactly when some declaration in the list owns it by a resolving symbol or names it as a usable companion |
| StoreProperties.ClaimedExactly | scripts/check_store_registry.py:1165-1232 | a module is claimed once by each declaration that owns it by a resolving symbol and once by each whose distinct, non-blank companions name it as a tracked source that creates tables |
| StoreProperties.UnresolvedExactly | scripts/check_store_registry.py:1165-1190 | the unresolved-owner errors are the declarations whose owner module lacks the symbol |
| StoreProperties.UnusableExactly | scripts/check_store_registry.py:1190-1232 | the companion errors of a declaration are its usable companions that are untracked or create no table |
| StoreRegistry.OrderIsIrrelevant | scripts/check_store_registry.py:1138-1232 | permuting declarations changes neither the declared modules nor the number of duplicate claims |
| StoreRegistry.CompareToBaseline | scripts/check_store_registry.py:1044-1093 | reports each difference once, sorted by kind and name, and none exactly when the rows are the undeclared stores with their tables |
| StoreRegistry.DifferencesExactly | scripts/check_store_registry.py:1044-1093 | each kind of finding names exactly its difference, and the list is ordered by kind and name |
| StoreRegistry.BaselineRows | scripts/check_store_registry.py:995-1031 | the rows kept and exactly one error for each row that is not a mapping, has a blank or repeated name, or tables that are not a list of strings |
| StoreProperties.RowsExactly | scripts/check_store_registry.py:995-1031 | the rows kept are the first of each name that is not blank, with their tables |
| StoreProperties.NameErrorsExactly | scripts/check_store_registry.py:995-1031 | a name is reported as repeated when two rows carry it, and its tables when the first row has no list of strings |
| StoreRegistry.RenderRoundTrip | scripts/check_store_registry.py:1286-1289 | rendered rows read back as the undeclared stores without error |
| StoreRegistry.DeclaredForBaseline | scripts/check_store_registry.py:1311-1332 | regeneration counts every named owner, resolved or not, and the usable companions |
| StoreRegistry.RegeneratedIsClean | scripts/check_store_registry.py:1311-1332 | a regenerated baseline compares clean if and only if every named owner that creates tables is claimed |
| StoreRegistry.NoErrorsThenClean | scripts/check_store_registry.py:1138-1332 | with no unresolved owner that condition holds |
| StoreRegistry.UnresolvedOwnerReported | scripts/check_store_registry.py:1311-1332 | a declaration with an unresolved owner for which regeneration leaves a finding |

## Left out

- JSON, YAML and XML parsing, encodings and SHA-256: parsed values and digest functions are parameters, and JSON values that the rules do not tell apart are one case.
- Files, git, processes, locks, clocks and the console: their answers are parameters or arbitrary outcomes.
- Wording of findings: they are kinds with the place, row or field they are about. The verifier's problems are stated as a set, not in the order of the original.
- Floating point: seconds are exact reals, so a NaN or infinite time has no counterpart.
- `ShardSummary` and the report renderers of every tool.
- Verifier.ReadShard: the several shape flaws of one evidence file are one problem.
- Verifier.CheckExecutions: the places of a duplicated node and the unexpected reports are given with their multiplicity, not their order, because the original only prints them.
- Verifier.VerifyEvidence: directory entries arrive already told apart by name, and the shard count is at least 0.
- Ledger.LedgerFile.Check: the order of problems is not stated, lines are numbered among the non-blank ones, and a line that is not JSON and one that is not an object are one kind.
- Ledger status, `--status` arithmetic and the shadow record file beside the row.
- Selector.Select: the collection is a set, and the import scan and the seam catalogue are given as their answers; `details` are not modelled.
- Gate.RunGate: when an exception escapes the outer `finally` there is no answer, and nothing is said of the files then left behind.
- The gate's duration budget is one outcome; its statistics are report-only.
- GateTiming.Analyse: wall spans, preludes, idle gaps, the mean and extremes over workers and the dominant file, which no check reads.
- Durations.BuildPayload: the names and digests of the source files copied into the document.
- Dormant.BuildReport: line numbers and the sorted order of the report; it is a set of paths and names.
- Backslash node IDs: node IDs are compared as they stand.
- The merge of dormant-class rows into a reviewed baseline: a map union that keeps reviewed text.
- Declaration fields checked one by one against the vocabulary, which no other property reads.
- Blank names in the store registry: only ASCII white space counts as blank.
- Import aliasing, table detection and environment scans: their results are given maps and sets.

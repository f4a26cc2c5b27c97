# fluentbase in Dafny

A Dafny model of the parts of fluentbase in which the most can go wrong, and proofs about them. Each
module models one piece of the repository and proves it against an independent reference.

| module | models | reference it is proved against |
|---|---|---|
| `TestScheduler` | the worker pool of the evm-e2e test runner, as an interleaving transition system | what each test did, over every schedule |
| `CivilTime`, `TimestampFormat` | the build script's Unix-time formatter | the Gregorian calendar; a parser; lexicographic order |
| `PrimeField`, `CurveGroup`, `Bn254Add`, `HostWitness` | the ADD branch of the bn256 precompile | the chord-and-tangent group law |
| `BlockHistory`, `HistoryAssembly` | the EIP-2935 contract | the unbounded block history; the EVM program in the source comment, executed opcode by opcode |
| `TraceRecorder` | the trace inspector of evm-e2e | a recorder with explicit stacks; the tree of frames |
| `Erc20` | the ERC-20 example | sums of balances; replay of the log |
| `UpgradeRollout` | the runtime-upgrade tool | the release; sessions of aborted and repeated runs |
| `WasmEmitter` | LEB128 and the generated Wasm module of the deployer tests | a decoder of the WebAssembly binary format |
| `CompileCache` | the memoised compilation of the genesis contracts | compiling every entry directly |
| `BlsLegacy` | the G1 multi-scalar price of the legacy BLS12-381 precompile | the price in exact arithmetic |

`Prelude` and `Bytes` hold the `Option`/`Result` types and byte strings read as numbers.

Objects that the source updates in place are classes (`HistoryContract`, `TraceInspector`, `Token`);
buffers reversed in place are arrays; the compiler that must run once per key is an object that remembers its
runs; loops are methods with invariants. Each such method is proved
against a specification function, and the results below are proved of those functions.

## Assumptions

- `Bn254Add` takes the base field and the subgroup check of arkworks and the curve operations of the
  runtime as a parameter `Host`. `HostCorrect` is their contract: a prime modulus above 3, the chord
  formula for two points with different x, the tangent formula off the x axis, and a subgroup check that
  accepts the curve points annihilated by an odd order. That a doubled point is never on the x axis is
  derived from the check. `CofactorOne` says that the subgroup is the whole curve, as it is for bn254; it is
  used only where a contract says so. `HostWitness` shows that all of this can be met.
- `UpgradeRollout` assumes that a transaction changes no code but its target's and that nobody else
  writes in between; what the network does is otherwise arbitrary (`Visit`). A transaction that was sent
  and not confirmed stays outstanding and may install the module it carries at any later time.
- `CompileCache`: that the cache key determines the artifact is a hypothesis, shown to be equivalent to
  correctness, and derived from an injective hash and a compiler that looks only at code and configuration.

## Where the code and what one would expect of it differ

- Without `keep_going` the scheduler may claim up to `threads - 1` more files after the first counted
  error; the bound is proved and reached (`FewClaimsAfterAnError`, `OverrunIsReached`).
- `step_end` misses a step behind which something was recorded, so not every step record gets its
  after-state; `StepsCompleteIffEnded` gives the exact condition and `LoggingStepStaysIncomplete` an input.
- The EIP-2935 contract answers as its assembly does except in two cases: block 0, and system calls whose
  input is not 32 bytes, which the assembly stores and the contract refuses. `ContractRefinesAssembly` is
  an if-and-only-if with that condition.
- `build_max_locals_module` truncates section sizes to u32, and always exports function 0:
  `ModuleDecodesIffSizesFit` says for which counts the module decodes, `ModuleIsUsableIff` for which it is
  also well-formed, which leaves out count 0 (`EmptyModuleExportsNothing`).
- The formatted timestamp has the shape of section 5.6 of RFC 3339 only for years 0 to 9999
  (`ShapeIffFourDigitYear`); it is injective for all.

## Model

| member | source | states |
|---|---|---|
| TestScheduler.NumThreads | evm-e2e/src/runner.rs:1053-1075 | the pool never has more threads than files and is empty only if there are no files; printing, tracing or unknown parallelism mean at most one thread, otherwise all of it is used unless there are fewer files |
| TestScheduler.StepInv | evm-e2e/src/runner.rs:1075-1152 | every step of every thread keeps the invariant: mutual exclusion on the queue, files handed out once and in order, each claim in flight or reported once by its claimer, no error lost or counted twice, a reason for every stopped thread |
| TestScheduler.ReachableInv | evm-e2e/src/runner.rs:1075-1152 | the invariant holds in every state of every schedule |
| TestScheduler.RunIsRecorded | evm-e2e/src/runner.rs:1085-1111 | over every run the files handed out and the tests that ended, with thread, file and outcome, are read off the actions of the run and are exactly what the history holds |
| TestScheduler.AllPassedIffEveryFilePassed | evm-e2e/src/runner.rs:1075-1138 | in every schedule, Ok comes back exactly when every file was handed to one thread, and the one test that ended on it did so on that thread and passed; all of it read off the actions |
| TestScheduler.ExitStatusOne | evm-e2e/src/runner.rs:1134-1144 | the process exits with status 1 exactly when `keep_going` is set, some test of the run ended in an error and none panicked |
| TestScheduler.ReturnedErrorIsReal | evm-e2e/src/runner.rs:1115-1152 | the error that comes back is that of the lowest-numbered thread that has one, and a test of the run really ended that way on that thread |
| TestScheduler.JoinAndDecide | evm-e2e/src/runner.rs:1115-1153 | the join loop collects the errors in thread order; success exactly when the counter is zero and every thread stopped normally; the first element is taken only from a non-empty list |
| TestScheduler.NothingIsLost | evm-e2e/src/runner.rs:1085-1111 | after every run the shared index is the number of files handed out, which is ended plus in-flight tests; failed tests are counted or about to be; at the end the error counter is the number of tests that returned an error |
| TestScheduler.KeepGoingRunsEverything | evm-e2e/src/runner.rs:1085-1111 | with `keep_going`, every file is run unless every thread panicked |
| TestScheduler.FewClaimsAfterAnError | evm-e2e/src/runner.rs:1085-1110 | without `keep_going`, every continuation of a run whose error counter is positive hands out at most `threads - 1` files |
| TestScheduler.OverrunIsReached | evm-e2e/src/runner.rs:1085-1110 | for every pool there is a schedule that claims exactly `threads - 1` files more, so the bound is exact |
| TestScheduler.SchedulesAreFinite | evm-e2e/src/runner.rs:1079-1152 | every schedule ends after at most `5 * files + 9 * threads + 2` shared steps |
| TestScheduler.NeverStuck | evm-e2e/src/runner.rs:1079-1152 | before the verdict some thread can always move: no deadlock |
| TestScheduler.SuccessIgnoresTheSchedule | evm-e2e/src/runner.rs:1085-1138 | if the tests that ended did so as their file dictates, success is independent of schedule, pool size and `keep_going`: it comes exactly when every file's test passes |
| TestScheduler.ErrorCountIgnoresTheSchedule | evm-e2e/src/runner.rs:1085-1144 | with `keep_going` and no panics, every schedule ends with the number of failing files as error count and the same verdict |
| CivilTime.EraOf | bins/fluent/build.rs:33-35 | truncated division with the correction for negative days is floor division: the day of the era is in range for every integer |
| CivilTime.YearOfEraBounds | bins/fluent/build.rs:36 | the year-of-era formula finds the year that contains the day, for all 146097 days |
| CivilTime.CivilIsCorrect | bins/fluent/build.rs:31-42 | every integer day number gets a valid Gregorian date, and counting the days to that date gives the number back |
| CivilTime.CivilIsOnto | bins/fluent/build.rs:31-42 | every valid date is the image of its own day number |
| CivilTime.CivilFollowsTheCalendar | bins/fluent/build.rs:31-42 | the date of the next day number is the next day of the calendar, leap years and negative eras included |
| CivilTime.CivilEpoch | bins/fluent/build.rs:31-42 | day 0 is 1970-01-01 |
| TimestampFormat.FieldsRecombine | bins/fluent/build.rs:28-46 | all fields are in range and recombine to the second count |
| TimestampFormat.NothingOverflows | bins/fluent/build.rs:27-42 | for every i64 input every intermediate value of the date computation, and the year, stays in the i64 range |
| TimestampFormat.FormatRoundTrip | bins/fluent/build.rs:27-48 | a parser of the layout recovers the fields, and hence the second, from the string, for every year |
| TimestampFormat.FormatIsInjective | bins/fluent/build.rs:27-48 | two seconds with the same string are the same second |
| TimestampFormat.FormatKeepsOrder | bins/fluent/build.rs:27-48 | for years 0 to 9999, earlier is exactly lexicographically smaller |
| TimestampFormat.ShapeIffFourDigitYear | bins/fluent/build.rs:48 | the string has the RFC 3339 shape exactly for years 0 to 9999 |
| Bn254Add.PointBeToLe | contracts/bn256/src/lib.rs:25-28 | reverses both halves in place; the result read little-endian is the point read big-endian before |
| Bn254Add.PointLeToBe | contracts/bn256/src/lib.rs:32-35 | the way back: the result read big-endian is the point read little-endian before |
| Bn254Add.SwapEndianKeepsThePoint | contracts/bn256/src/lib.rs:25-35 | changing the byte order keeps the point in both directions, infinity included |
| Bn254Add.IsValidPoint | contracts/bn256/src/lib.rs:50-82 | accepts exactly (0,0) and reduced coordinates on the curve and in the subgroup; on the curve alone where the cofactor is one |
| Bn254Add.Pad | contracts/bn256/src/lib.rs:91-95 | the 128-byte buffer is the padded input |
| Bn254Add.PaddingLaws | contracts/bn256/src/lib.rs:91-95 | missing bytes count as zeros, surplus bytes do not count, 128 bytes stand for themselves |
| Bn254Add.DifferentX | contracts/bn256/src/lib.rs:116-127 | the last branch never sees equal x coordinates |
| Bn254Add.Dispatch | contracts/bn256/src/lib.rs:116-127 | the five-way dispatch calls each curve operation inside its domain, the doubling off the x axis because the subgroup has odd order, and always yields the group sum |
| Bn254Add.AddEntry | contracts/bn256/src/lib.rs:84-133 | for every input: out of fuel exactly below 150 gas; else an error exactly when a padded point is neither (0,0) nor in the group (for cofactor one: nor on the curve); else the encoding of the sum, a point of the curve |
| Bn254Add.OperandOrderIsIrrelevant | contracts/bn256/src/lib.rs:116-127 | the sum required for (p, q) and for (q, p) is one and the same point |
| Bn254Add.OutputIsDetermined | contracts/bn256/src/lib.rs:84-133 | the specification leaves no freedom: one input has one possible 64-byte answer |
| CurveGroup.SameX | contracts/bn256/src/lib.rs:45-47 | two curve points with the same x are equal or opposite, which is what the inverse test relies on |
| CurveGroup.OddOrderIsOffTheAxis | contracts/bn256/src/lib.rs:81 | a point that passes the subgroup check of an odd order has y different from zero |
| CurveGroup.SumIsUnique | contracts/bn256/src/lib.rs:116-127 | chord and tangent determine one sum |
| CurveGroup.SumExists | contracts/bn256/src/lib.rs:116-127 | any two curve points have a sum |
| CurveGroup.SumIsOnCurve | contracts/bn256/src/lib.rs:116-127 | the sum of curve points is a curve point |
| BlockHistory.HistoryContract.Submit | contracts/eip2935/src/lib.rs:111-136 | storage, fuel, output and exit code of a submission on every path, host faults included |
| BlockHistory.HistoryContract.Retrieve | contracts/eip2935/src/lib.rs:139-180 | a block is served exactly when it is one of the last 8191; the gas of each refusal; storage untouched |
| BlockHistory.HistoryContract.Entrypoint | contracts/eip2935/src/lib.rs:182-192 | the system address submits, everybody else retrieves |
| BlockHistory.FaultsLeaveNoTrace | contracts/eip2935/src/lib.rs:111-180 | a failing storage access leaves storage and gas alone, passes its code on, and is reached exactly on the calls that would not be refused |
| BlockHistory.RunAgrees | contracts/eip2935/src/lib.rs:111-180 | over every run the ring holds the last 8191 entries of the unbounded history |
| BlockHistory.RingIsTheHistory | contracts/eip2935/src/lib.rs:111-180 | asked in block n for b, the contract answers exactly when n-8191 <= b <= n-1, with the hash recorded for b, or zero for blocks before the first |
| BlockHistory.AnswerIsTheSubmittedHash | contracts/eip2935/src/lib.rs:111-180 | over every run and for every block of the window since the first, the reply carries the very 32 bytes the system submitted for that block |
| HistoryAssembly.HaltsOnce | contracts/eip2935/src/lib.rs:26-98 | the EVM program has one result |
| HistoryAssembly.AssemblyHalts | contracts/eip2935/src/lib.rs:26-98 | run opcode by opcode with 256-bit wrap-around, the program halts on every call with the stated outcome, storage and summed opcode cost without storage accesses |
| HistoryAssembly.RepliesCoincide | contracts/eip2935/src/lib.rs:26-180 | contract and program have the same reply exactly on faithful calls |
| HistoryAssembly.ContractRefinesAssembly | contracts/eip2935/src/lib.rs:26-180 | the program halts with the contract's outcome, storage and gas if and only if the call is faithful (block at least 1, or a reader's input of the wrong length; 32-byte input for submissions) |
| TraceRecorder.TraceInspector.constructor | evm-e2e/src/inspector.rs:57-63 | a new inspector is empty |
| TraceRecorder.TraceInspector.OnStep | evm-e2e/src/inspector.rs:75-92 | counts the step and records it without an after-state |
| TraceRecorder.TraceInspector.OnStepEnd | evm-e2e/src/inspector.rs:94-100 | patches the last event if, and only if, it is a step |
| TraceRecorder.TraceInspector.OnLog | evm-e2e/src/inspector.rs:102-104 | appends the log and touches nothing else |
| TraceRecorder.TraceInspector.OnBegin | evm-e2e/src/inspector.rs:106-113 | opens a call (or a creation, which does not count towards the depth) |
| TraceRecorder.TraceInspector.FindLastOpen | evm-e2e/src/inspector.rs:120-124 | the reverse search finds the last event of the kind without an outcome |
| TraceRecorder.TraceInspector.OnEnd | evm-e2e/src/inspector.rs:115-128 | fills that event; panics, in a build with overflow checks, exactly when the depth would go below zero |
| TraceRecorder.SearchIsAStack | evm-e2e/src/inspector.rs:74-150 | on every sequence of hooks the search picks what explicit stacks of open frames would pop |
| TraceRecorder.DepthCountsOpenCalls | evm-e2e/src/inspector.rs:74-150 | the depth underflows exactly when some prefix ends more calls than it began; otherwise it is the number of open calls |
| TraceRecorder.UncheckedBuildAgrees | evm-e2e/src/inspector.rs:115-128 | a build without overflow checks records the same trace on every sequence that does not underflow |
| TraceRecorder.TraceIsTheTree | evm-e2e/src/inspector.rs:74-150 | for every tree of calls, creations and instructions the whole trace is its pre-order listing, each frame with its own outcome, depth zero, nothing open |
| TraceRecorder.NestedHooksPairUp | evm-e2e/src/inspector.rs:74-150 | for every sequence whose begin and end hooks nest, with steps, step ends and logs anywhere in between, each end fills its own begin, the depth never underflows and ends at zero, and nothing stays open |
| TraceRecorder.EventsFollowTheHooks | evm-e2e/src/inspector.rs:74-150 | for every sequence, one event per step, log and begin, in order: nothing is lost, moved or invented |
| TraceRecorder.StepsCompleteIffEnded | evm-e2e/src/inspector.rs:75-104 | for every sequence, every step record gets its after-state exactly when every step is ended before the next step, log or begin |
| TraceRecorder.LoggingStepStaysIncomplete | evm-e2e/src/inspector.rs:94-104 | the smallest failing sequence: a step, a log, a step end |
| Erc20.Token.constructor | examples/erc20/lib.rs:60-78 | the new state is the deployed ledger, of which DeployerHoldsTheSupply says what it is |
| Erc20.DeployerHoldsTheSupply | examples/erc20/lib.rs:60-78 | the deployer has the whole supply, everybody else nothing, no allowance is set and the log is the one mint |
| Erc20.Token.DoTransfer | examples/erc20/lib.rs:103-122 | the method does what TransferMoves describes, and returns 1 or the reason of the rejection |
| Erc20.Token.DoApprove | examples/erc20/lib.rs:131-147 | the method does what ApproveSets describes, and returns 1 |
| Erc20.Token.DoTransferFrom | examples/erc20/lib.rs:149-183 | the method does what TransferFromMoves describes, and returns 1 or the reason of the rejection |
| Erc20.TransferMoves | examples/erc20/lib.rs:103-122 | accepted exactly when the balance covers the value; then the caller has that much less, the receiver that much more, every other account the same, and the log names the three; otherwise nothing changes |
| Erc20.TransferFromMoves | examples/erc20/lib.rs:149-183 | rejected for the allowance first, then for the balance; otherwise the value moves from owner to receiver, exactly one allowance falls by it, and the log names owner, receiver and value |
| Erc20.ApproveSets | examples/erc20/lib.rs:131-147 | exactly the allowance of caller and spender becomes the value, balances stay, and the log names owner, spender and value |
| Erc20.SupplyIsConserved | examples/erc20/lib.rs:60-183 | over every sequence of calls, rejected ones and self-transfers included, the balances sum to the supply |
| Erc20.CreditDoesNotWrap | examples/erc20/lib.rs:103-122 | crediting never exceeds the sum of all balances, so it cannot wrap |
| Erc20.ReachableCreditsAreExact | examples/erc20/lib.rs:103-183 | in every reachable ledger the 256-bit addition of a transfer is plain addition |
| Erc20.LogReplaysToBalances | examples/erc20/lib.rs:71-183 | replaying the Transfer log of any run reproduces every balance |
| Erc20.AllowanceAccounting | examples/erc20/lib.rs:131-183 | allowance left plus amount moved since the last approval is the approved amount, for every owner and spender |
| Erc20.OnlyAuthorisedDebits | examples/erc20/lib.rs:103-183 | an account loses tokens only by its own transfer or a spender within the allowance, and exactly the value moved |
| UpgradeRollout.LoadReleaseModules | bins/runtime-upgrade/main.rs:498-522 | succeeds exactly when every selected contract is in the release with code that decodes and has a Wasm section, all of them decoded; otherwise names the first that is not, and why |
| UpgradeRollout.PreflightSelectedModules | bins/runtime-upgrade/main.rs:545-567 | accepts exactly the lists whose every module is present, non-empty and below 1 MiB |
| UpgradeRollout.VisitIsCareful | bins/runtime-upgrade/main.rs:843-942 | one visit, whatever the network does: it sends only a contract that does not match, loses no match, changes only its target and what was outstanding, and a printing run sends nothing |
| UpgradeRollout.VisitManifest | bins/runtime-upgrade/main.rs:843-942 | a visit logs at most one entry, for its contract; without one the run has stopped; a sending run that goes on has logged a good entry and left the contract matching |
| UpgradeRollout.WorkingVisitUpgrades | bins/runtime-upgrade/main.rs:847-942 | against a working network a contract that differs is sent, matches afterwards, is logged as upgraded with its transaction and receipt, and the run goes on |
| UpgradeRollout.FailedTransactionStops | bins/runtime-upgrade/main.rs:605-662 | a transaction refused, unconfirmed or with a status other than 1 stops the run with a failed entry |
| UpgradeRollout.ReadBackDecides | bins/runtime-upgrade/main.rs:910-942 | after a successful transaction the run goes on exactly when the code read back is the release's; the entry has the hash of what was read |
| UpgradeRollout.VisitWithoutSending | bins/runtime-upgrade/main.rs:847-908 | matching contracts are logged as up to date, printing runs only print, unreadable contracts stop the run without an entry |
| UpgradeRollout.RunUpgradeTransactions | bins/runtime-upgrade/main.rs:825-946 | the loop performs the visits in order until one stops it, panics on missing contracts included |
| UpgradeRollout.RunKeeps | bins/runtime-upgrade/main.rs:825-946 | wherever a run stops: no match is lost, only mismatching selected contracts were sent, only those and what was outstanding changed, printing runs send nothing, the manifest follows the list and only its last entry may be bad |
| UpgradeRollout.WorkingRunSucceeds | bins/runtime-upgrade/main.rs:825-946 | against a working network a sending run returns Ok, every contract equals the release, every contract that differed and had nothing outstanding was sent, and every manifest entry is good |
| UpgradeRollout.OnlyMissingContractsPanic | bins/runtime-upgrade/main.rs:847-849 | a run panics only at a contract that the release lacks, so never after LoadReleaseModules succeeded |
| UpgradeRollout.MatchedIsNeverResent | bins/runtime-upgrade/main.rs:847-871 | from any point of a session at which a contract matches the release it keeps matching and is never sent again, late transactions included |
| UpgradeRollout.SessionConverges | bins/runtime-upgrade/main.rs:825-946 | any aborted runs followed by one sending run that returns Ok leave every selected contract equal to the release, with one good manifest entry per contract in order |
| UpgradeRollout.FurtherRunIsIdle | bins/runtime-upgrade/main.rs:847-871 | a further run sends nothing, changes nothing but what late transactions install, keeps every match and returns Ok exactly when no read fails |
| UpgradeRollout.UpgradedAtMostOnce | bins/runtime-upgrade/main.rs:825-946 | over any session a contract is reported as upgraded at most once, and then it matches |
| WasmEmitter.Leb128 | e2e/src/deployer.rs:132-146 | the shift loop computes the base-128 encoding |
| WasmEmitter.LebRoundTrip | e2e/src/deployer.rs:132-146 | decoding an encoding followed by any bytes gives the number and exactly those bytes |
| WasmEmitter.LebIsMinimal | e2e/src/deployer.rs:132-146 | no byte string that decodes to the number is shorter, and one of the same length is the same |
| WasmEmitter.LebPrefixFails | e2e/src/deployer.rs:132-146 | a truncated encoding does not decode |
| WasmEmitter.BuildMaxLocalsModule | e2e/src/deployer.rs:149-185 | the bytes appended are the preamble and the four sections in order |
| WasmEmitter.ModuleDecodesIffSizesFit | e2e/src/deployer.rs:149-185 | for every u32 count, a decoder that checks magic number and version itself reads back the one type, all functions, the export and all bodies exactly when the code section's size fits in a u32, and fails otherwise |
| WasmEmitter.ModuleIsUsableIff | e2e/src/deployer.rs:149-185 | for every u32 count, the module decodes with every function, type and export index in range exactly when there is at least one function and the code section's size fits |
| WasmEmitter.EmptyModuleExportsNothing | e2e/src/deployer.rs:173-174 | with count 0 the module decodes and exports a function that it does not define |
| CompileCache.CompileAllContracts | crates/genesis/build.rs:103-141 | panics exactly when the first entry of some key does not compile, comes with another fingerprint or has parameters; otherwise each address has the code the compiler makes of the first entry with its key, and the hash of that code; the compiler was run on the first entry of each key, in order, and on nothing else |
| CompileCache.MemoisedIsRight | crates/genesis/build.rs:103-141 | the same of the specification the loop is proved against |
| CompileCache.OneCompilationPerKey | crates/genesis/build.rs:107-130 | no two of the entries the compiler is run on have the same key |
| CompileCache.EveryKeyIsCompiled | crates/genesis/build.rs:107-130 | every key of the list has an entry the compiler is run on, and no other key has |
| CompileCache.MemoisedIsDirect | crates/genesis/build.rs:103-141 | if the key determines the artifact, the memoised build is the direct one, failures and repeated addresses included |
| CompileCache.MemoisedIsDirectIff | crates/genesis/build.rs:103-141 | for distinct addresses on which one of the builds succeeds, the two agree, failures included, if and only if entries with the same key compile alike |
| CompileCache.InjectiveHashDetermines | crates/genesis/build.rs:107-111 | an injective hash and a compiler that sees only code and configuration are enough |
| CompileCache.CollisionsMixContracts | crates/genesis/build.rs:107-116 | without it the build is wrong: two contracts whose code collides get one artifact |
| BlsLegacy.PriceIncreases | contracts/bls12381/src/legacy.rs:91-98 | more pairs always cost more, across the table and its clamped tail |
| BlsLegacy.PriceIsSubadditive | contracts/bls12381/src/legacy.rs:91-98 | splitting a multiplication in two is never cheaper |
| BlsLegacy.ChargeIsExactIffItFits | contracts/bls12381/src/legacy.rs:97 | the u64 computation is the exact price if and only if the product fits in a u64 |
| BlsLegacy.TableFalls | contracts/bls12381/src/legacy.rs:54-62 | the 128 discounts fall, but slower than the number of pairs rises |
| BlsLegacy.MsmGasLaws | contracts/bls12381/src/legacy.rs:91-98 | for all counts a u32 input length can hold, nothing wraps and gas is strictly increasing and subadditive |
| BlsLegacy.MsmGasFormula | contracts/bls12381/src/legacy.rs:91-98 | k pairs cost 12 k times row k of the table, the last row from 128 on; one pair costs 12000 |

## Left out

- TestScheduler: what a test executes, the progress bar, timers and printing; failure to spawn a thread, which panics the main thread. A poisoned mutex does not arise: nothing panics while a guard is held, short of a total CPU time that overflows.
- `resolve_externalized_bytecodes`, `check_evm_execution` and the rest of the runner: JSON rewriting and comparisons that would only add easy members.
- TimestampFormat: where the second count comes from (`build_timestamp` and its environment variables).
- Bn254Add: MUL and PAIR, which delegate to libraries; field arithmetic itself; a proof that the modulus of bn254, which the repository takes from a library, is prime.
- CurveGroup: associativity of the sum, which no part of the modelled code relies on.
- BlockHistory: the 64-bit width of the block number and the 256-bit width of the request are not bounds in the model; block arithmetic is exact there, and HistoryAssembly adds the 256-bit wrap-around of the assembly.
- HistoryAssembly: the gas of storage accesses, which the contract leaves to the host as well.
- TraceRecorder: opcode names, `selfdestruct` and the comparison of traces in `check_evm_trace`.
- TraceRecorder.TraceInspector.OnEnd: is the build with overflow checks; the wrapped depth of the other build is in UncheckedBuildAgrees, but what follows an underflow there is not characterised.
- Erc20: `name`, `symbol`, `decimals` and `total_supply`, which only return stored values, and ABI dispatch.
- UpgradeRollout: the network, wallet, ABI and Safe-bundle code, provenance checks and printing of the manifest (so an error while printing it is not modelled either); a late transaction that installs anything but the module it carries.
- WasmEmitter.ModuleDecodesIffSizesFit: the decoder expects the type, function, export and code sections in that order and keeps later sections undecoded; it does not validate instructions or value types.
- CompileCache: the compiler and serialiser, which are parameters, and the progress output.
- BlsLegacy: the conversion of points between layouts, and the group operations; `legacy.rs` is not declared as a module by `lib.rs`.
- Node start-up, docker and cargo orchestration, the generator of evm-e2e tests and the small examples.

# Verified models of the trading repository's release, evidence and backtest code

This project models seven parts of the repository in Dafny and proves properties of the models for all
inputs, all interleavings or all runs.

| part | modules |
|---|---|
| Static analyser of the execution-release builder | `PythonSyntax`, `StaticStrings`, `OrderTaint`, `StarImports`, `TaintReach`, `TaintRuns` |
| Publication of a base release suite by racing builders | `SuitePublication`, `SuiteFailures` |
| The bounded stable reader | `StableRead`, `QuietRead` |
| The two-output release writer and its rollback | `ReleaseOutputs` |
| The prospective M15 partition chain | `SignedRecords`, `ProspectiveChain`, `ChainHistory`, `ChainRuns`, `ChainRaces`, `ChainScenarios`, `ChainStore` |
| The backtest simulator | `TradeRules`, `Backtest`, `BacktestRuns`, `BacktestLaw`, `BacktestLookahead`, `BacktestMetrics` |
| Wheel verification, wheel manifest and SBOM | `RecordHash`, `PackageNames`, `WheelBinding`, `SbomLaw`, `BindingAgreement`, `BindingFailures`, `WheelRecord`, `WheelInstall`, `WheelOverlaps` |

`Common` holds `Option` and `Result`. `dafny verify dfyconfig.toml` checks everything.

How the models are built:

- Code that only computes is a set of functions; loops and updates in place are methods and classes, each
  proved against a specification function or relation, and the properties are proved about those.
- What the source text does not determine is a parameter and is quantified over: the behaviour of the running
  Python program (`PythonSyntax.World`), hashes and MACs, case mappings, the strategy selector and the
  indicator of the backtest, clocks, faults of system calls, and what other programs do in between.
- Concurrency is a state machine whose actions are single system calls (suite publication, stable read) or
  single commits (chain). A run is any sequence of enabled actions by any number of participants, with
  failures and crashes anywhere.

What the proofs show about the code, beyond what it promises. Where a promise fails, there is a concrete failing
case and the exact condition under which it holds:

- The constant folder looks through `!r` and `!a` conversions and format specifications. As long as no specification
  has a precision, its answer is right if and only if no conversion adds quotes to the text and no specification asks
  for more width than the text has (`FoldIsExact`, `ReprIsMisfolded`, `PaddingIsMisfolded`). With precisions, changes
  in several fields can cancel out (`AlterationsCanCancel`); where nothing changes, the folder is right whatever the
  specifications (`FoldIsRight`).
- The pass over function parameters in the taint closure never adds a name (`ParametersAreRedundant`). The closure
  covers every run if and only if no statement star-imports the broker package, which the closure takes for a binding
  of the name `*` (`CoveredIffNoStarImport`, `StarImportEscapes`). This is about the closure alone: the builder rejects
  every `from` import of the package elsewhere (build_windows_execution_release.py:857-861).
- The taint rules are exact for expressions that evaluate (`OrderCapableIffReachable`), and every tainted name can be
  bound to the module in some run as long as no two variables differ in case only (`EveryTaintedNameIsReachable`). With
  such twins the closure taints names that no run reaches (`TwinsAreOvertainted`).
- The stable reader needs more than a modification time that changes with every write: it is right in all runs if and
  only if no number of writes can bring a modification time back (`WholeReadsExactly`).
- A builder that has published and ended reports failure if and only if closing its lock failed (`EveryRunIsSafe`);
  such a run exists for every suite (`CloseCanFailAfterPublishing`). A lock whose holder is gone blocks publication for
  ever (`OrphanedLockBlocks`), and a builder leaves one behind if and only if reading the lock's identity, closing it,
  looking at it or unlinking it failed, or the builder crashed in between (`LockIsLeftIff`). Likewise a builder leaves
  its staging directory behind if and only if reading its identity, looking at it or removing it failed, or the builder
  crashed while it was there (`StagingIsLeftIff`).
- The rollback's identity check protects other programs' files if and only if identities of vanished files are not
  given out again (`IdentityCheckIsExact`). An undisturbed build that fails restores the directory if and only if no
  output lost its identity and every unlink worked (`BuildRelease`).
- The chain stays valid in all interleavings, but an ingest that stopped between its two commits cannot be repeated
  while the head stays (`InterruptedIngestCannotBeRepeated`): a retry meets the taken id if and only if it starts from
  the same sequence (`RetryTakesSameIdIff`), and goes through once the head has moved (`RetryGoesThroughLater`). An
  ingest that read an old head can roll the history back (`StaleIngestRollsBack`). The history only ever grows if and
  only if every head replacement finds the head that its ingest had read (`HistoryGrowsIffUnraced`).
- `expectancy` times trades is the net profit if and only if the timeout amounts that no win and no loss accounts for
  cancel out (`ExpectancyIsExact`); a profitable run can have no expectancy (`ProfitWithoutExpectancy`). The net-profit
  threshold is implied by the profit-factor threshold (`ProfitFactorDecides`).
- The base64 decoder under the RECORD check takes both alphabets and drops the left-over bits of the last character;
  the re-encoding check is what makes the field canonical (`DecoderTakesBothAlphabets`, `DecoderDropsLowBits`,
  `OneTextPerDigest`).
- The two wheel selectors agree on every list of wheels if and only if lower-casing and case-folding order every pair
  of file names alike (`SelectorsAgreeIff`); outside ASCII they can differ (`SelectorsCanDiffer`).
- The manifest builder lets a later package replace an earlier one of the same normalised name and renders names and
  versions that are not strings; the SBOM builder rejects all three. A manifest that was built passes if and only if
  the lock avoids these, empty lists, empty versions and another target, and the selectors agree
  (`ManifestPassesIffPresentable`, `BuiltManifestsCanFail`, `BuiltManifestCanPass`), as they do on ASCII file names
  (`PresentableWithPlainNamesPasses`).
- The ownership check does not see RECORD files, nor files that stand where another needs a directory. Accepted wheels
  install completely in every order if and only if the RECORD paths have Windows keys of their own and no file lies
  below another (`EveryFileIsInstalledIff`, `RecordCanBeOverwritten`, `FileCanLieBelowFile`).

## Model

| member | source | states |
|---|---|---|
| `StaticStrings.FoldMatches` | build_windows_execution_release.py:325-356 | Whatever a folded expression evaluates to is a string: the folded text unless a conversion or specification changes it, and where specifications only pad never shorter, and longer exactly when something changes it. |
| `StaticStrings.FoldEvaluates` | build_windows_execution_release.py:325-356 | With foldable specifications that only pad, what is folded evaluates to a string in every environment. |
| `StaticStrings.FoldIsExact` | build_windows_execution_release.py:325-356 | For foldable specifications without precision, in every world where strings are padded and quoted as Python does: the value is the folded text if and only if no `!r` or `!a` conversion contributes and no specification asks for more width than its text has. |
| `StaticStrings.FoldIsRight` | build_windows_execution_release.py:325-356 | For any specifications: an expression that evaluates, and in which nothing changes text, has the folded text as its value. |
| `StaticStrings.FoldIsComplete` | build_windows_execution_release.py:325-356 | The folder answers on exactly the fragment of string constants, `+`, f-strings and `join` over list or tuple displays. |
| `StaticStrings.ReprIsMisfolded` | build_windows_execution_release.py:332-342 | A concrete f-string whose folded text is not its value. |
| `StaticStrings.PaddingIsMisfolded` | build_windows_execution_release.py:334-338 | An f-string with a width whose folded text is not its value, and one with a neutral specification whose folded text is. |
| `StaticStrings.AlterationsCanCancel` | build_windows_execution_release.py:332-342 | An f-string with a precision and a width that change two fields and leave the folded text as its value. |
| `PythonSyntax.JoinHolds` | build_windows_execution_release.py:352-355 | Joined text holds the pieces in order, each at its offset, with the separator after each but the last. |
| `PythonSyntax.ConcatIsJoin` | build_windows_execution_release.py:342-342 | The pieces of an f-string are joined without a separator. |
| `OrderTaint.OrderCapableMonotone` | build_windows_execution_release.py:403-446 | More tainted names never make an expression harmless. |
| `OrderTaint.SeedNames` | build_windows_execution_release.py:450-472 | The pass over imports and parameters gives the seeds and nothing that a closed set with the seeds could leave out. |
| `OrderTaint.Pass` | build_windows_execution_release.py:476-493 | One pass adds only names that every closed set must have, reports whether it added any, and otherwise leaves the set closed. |
| `OrderTaint.OrderCapableNames` | build_windows_execution_release.py:449-494 | The seeding pass and the loop until stable terminate with the least set that contains the seeds and is closed under assignment. |
| `OrderTaint.WalkOrderIsIrrelevant` | build_windows_execution_release.py:474-494 | Programs with the same nodes in any walk order have the same least set. |
| `OrderTaint.ParametersAreRedundant` | build_windows_execution_release.py:459-472 | Leaving all parameter lists out of the program does not change the least set. |
| `OrderTaint.EvalCovered` | build_windows_execution_release.py:403-446 | If a tracked expression evaluates to something that reaches the broker module, the rules call it order-capable. |
| `OrderTaint.BindCovered` | build_windows_execution_release.py:378-387 | Binding a nested target, even when unpacking fails half-way, makes the module reachable under tainted names only. |
| `OrderTaint.EveryRunIsCovered` | build_windows_execution_release.py:378-494 | For programs without a star import of the broker package: in every execution of the statements, in any order and any number of times, each variable that reaches the broker module has its casefolded name in the closed set. |
| `StarImports.StarImportEscapes` | build_windows_execution_release.py:456-458 | Any program with a star import of the broker package has a one-step run that binds the module under an uncovered name. |
| `StarImports.CoveredIffNoStarImport` | build_windows_execution_release.py:449-494 | All runs are covered if and only if no statement star-imports the broker package. |
| `TaintReach.OrderCapableIffReachable` | build_windows_execution_release.py:403-446 | A tracked expression that evaluates is order-capable if and only if in some lawful world and some environment whose module-reaching variables are tainted it evaluates to something that reaches the module. |
| `TaintReach.ReflectionLaw` | build_windows_execution_release.py:416-423 | Reflection on something order-capable is order-capable if and only if it asks for the one attribute of the rule, although in some lawful world every other attribute reaches the module too; such calls are not tracked. |
| `TaintRuns.EveryTaintedNameIsReachable` | build_windows_execution_release.py:449-494 | Converse of coverage: every name of the least set outside the fixed ones has a variable and a lawful schedule that binds it to something reaching the module, for programs whose assignments evaluate, whose imports bind no variable twice and whose variables do not differ in case only. |
| `TaintRuns.TwinsAreOvertainted` | build_windows_execution_release.py:488-493 | A program with two variables that differ in case only, in which a name is tainted that no run makes reach the module. |
| `SuitePublication.StepKeepsInv` | build_windows_base_release_suite.py:917-993 | Every action of every builder keeps the invariant that ties directory entries, ownership, identities and program points together. |
| `SuitePublication.EveryRunIsSafe` | build_windows_base_release_suite.py:917-1146 | In every interleaving at most one builder publishes, the destination is absent or the complete directory of one builder, at most one builder holds the lock and the critical section needs it, success means published, and a builder that published and ended reports failure if and only if its close failed. |
| `SuitePublication.StepsTouchOnlyOwnThings` | build_windows_base_release_suite.py:944-993 | No action removes, moves or rewrites an entry that its builder did not create, nor the destination, nor another builder's record. |
| `SuitePublication.DestinationIsFinal` | build_windows_base_release_suite.py:854-939 | Once something is at the destination it stays there, complete, whatever happens later. |
| `SuitePublication.OrphanedLockBlocks` | build_windows_base_release_suite.py:917-964 | A lock left by a builder that has ended is never removed, and the destination never changes again. |
| `SuiteFailures.LockIsLeftIff` | build_windows_base_release_suite.py:921-964 | In every run a builder that has ended still holds the lock if and only if its identity read, close, look or unlink of the lock failed, or it crashed between creating and unlinking it. |
| `SuiteFailures.StagingIsLeftIff` | build_windows_base_release_suite.py:967-1146 | In every run a builder that has ended still has its directory at its staging path if and only if its identity read, its look at or removal of the directory failed, or it crashed, while the directory was there. |
| `SuiteFailures.GuardsAreExact` | build_windows_base_release_suite.py:937-991 | In any state, whatever else is on the disk: a builder sets out to unlink the lock, to remove its staging directory or to rename if and only if it sees the captured identity, the captured identity, or no destination. |
| `SuiteFailures.CloseCanFailAfterPublishing` | build_windows_base_release_suite.py:939-946 | For every number of files there is a run that ends failed, with the suite published and the lock left behind. |
| `StableRead.ReturnedBytesAreOneVersion` | build_windows_base_release_suite.py:347-391 | If no modification time can come back, whatever is returned is the whole contents that one regular file had at one moment of the run, within the bound, with the same facts seen four times. |
| `StableRead.TornReadIsPossible` | build_windows_base_release_suite.py:358-386 | For every cycle of modification times and positive bound there is a run that returns bytes the file never held. |
| `StableRead.EmptyReadIsPossible` | build_windows_base_release_suite.py:358-386 | For every such cycle and any bound there is a run that returns nothing for a file whose compared size is one. |
| `StableRead.WholeReadsExactly` | build_windows_base_release_suite.py:347-391 | For every bound, all runs return whole versions if and only if no modification time can come back. |
| `StableRead.IncreasingNeverReturns` | build_windows_base_release_suite.py:371-386 | A modification time that only moves forward never comes back. |
| `QuietRead.QuietReadsDecide` | build_windows_base_release_suite.py:347-391 | If only the reader acts, it returns the bytes of the file, and refuses only what is no regular file or exceeds the bound. |
| `QuietRead.QuietReadReturns` | build_windows_base_release_suite.py:347-391 | For every regular file within the bound there is such a read that returns its bytes. |
| `ReleaseOutputs.Disk.RemoveCreatedOutput` | build_windows_release.py:657-676 | Unlinks the path exactly when it is a regular file with the captured identity. |
| `ReleaseOutputs.Disk.WriteExclusive` | build_windows_release.py:679-713 | Undisturbed, it succeeds exactly when the path is new and no call fails, and then holds the data; a failure leaves a file exactly when the identity was not captured or the unlink failed; with unique identities it only unlinks the writer's files. |
| `ReleaseOutputs.Disk.Rollback` | build_windows_release.py:831-851 | Removes whichever outputs still carry the captured identity and nothing else; with unique identities only the writer's files, whatever others do. |
| `ReleaseOutputs.Disk.FinishRelease` | build_windows_release.py:830-851 | The sidecar is added, or both outputs are taken away unless an unlink failed or the sidecar lost its identity. |
| `ReleaseOutputs.Disk.BuildRelease` | build_windows_release.py:828-851 | Undisturbed, success is equivalent to free, distinct paths, no fault and an unchanged source, and leaves both outputs with the intended bytes and all else alone; a failure restores the directory if and only if no output was left without identity and no needed unlink failed; under any interference with unique identities only the writer's files are unlinked. |
| `ReleaseOutputs.IdentityCheckIsExact` | build_windows_release.py:657-676 | For all interference the rollback hits only the writer's file, if and only if identities are not recycled. |
| `SignedRecords.AcceptedIffSigned` | collect_finex_m15_prospective_partition.py:53-87 | Verification accepts exactly the signed records of payloads without the two reserved fields, and returns them unchanged. |
| `SignedRecords.SignVerifyRoundTrip` | collect_finex_m15_prospective_partition.py:53-87 | Signing then verifying succeeds if and only if the payload does not use a reserved field. |
| `SignedRecords.DomainsAreSeparate` | collect_finex_m15_prospective_partition.py:65-87 | A record accepted under one domain is rejected under every other. |
| `SignedRecords.HeadIsNoReceipt` | collect_finex_m15_prospective_partition.py:39-40 | A verified head is never accepted as a partition receipt. |
| `ProspectiveChain.LoadFollowsChain` | collect_finex_m15_prospective_partition.py:114-157 | A head that describes a valid chain always loads, to the position at the end of that chain; a head without capture time gets its last receipt's. |
| `ProspectiveChain.LoadsIffBound` | collect_finex_m15_prospective_partition.py:127-157 | A head is taken if and only if it is bound to the baseline with an end per symbol and, without a capture time, to its last receipt; the position is the one it records. |
| `ProspectiveChain.CommitsIff` | collect_finex_m15_prospective_partition.py:165-201 | An ingest commits if and only if the snapshot has exactly the four symbols with enough candles, is not the latest one and is newer than it. |
| `ProspectiveChain.NewPartitionExtends` | collect_finex_m15_prospective_partition.py:190-263 | The partition decided on continues the chain: next number, predecessor's hash, later capture time, and the new rows of a snapshot with the recorded hash. |
| `ProspectiveChain.CommitExtendsChain` | collect_finex_m15_prospective_partition.py:184-285 | Storing a decided partition yields a valid longer chain that the decided head describes. |
| `ChainHistory.EveryLink` | collect_finex_m15_prospective_partition.py:225-262 | Link by link: stored under its id, numbered 1 to n, bound to the baseline, linked to its predecessor's content hash. |
| `ChainHistory.ReceiptsRecordRows` | collect_finex_m15_prospective_partition.py:202-249 | For every partition of a valid chain and every symbol: the row count, the hash, the least and greatest time of the stored rows, the end before and the end after; the total is the sum of the four counts. |
| `ChainHistory.CaptureTimesIncrease` | collect_finex_m15_prospective_partition.py:184-189 | Capture times strictly increase along a chain. |
| `ChainHistory.NoSnapshotTwice` | collect_finex_m15_prospective_partition.py:175-189 | With an injective hash no source snapshot appears twice on a chain. |
| `ChainHistory.SameLinkSameHistory` | collect_finex_m15_prospective_partition.py:231-262 | Two chains of equal length, in any two stores, with the same last content hash are identical, rows included. |
| `ChainHistory.SameHeadSameHistory` | collect_finex_m15_prospective_partition.py:231-285 | Two histories that one head describes are identical. |
| `ChainHistory.WindowLosesNothing` | collect_finex_m15_prospective_partition.py:196-214 | The new rows of a window are all rows of the series between the previous and the new end if and only if there are none or the window reaches back to the previous end. |
| `ChainHistory.ContentsAreFresh` | collect_finex_m15_prospective_partition.py:190-223 | Along any valid chain the rows of a symbol strictly increase in time, lie after the baseline boundary, and end at the recorded end. |
| `ChainHistory.IncrementalEqualsBatch` | collect_finex_m15_prospective_partition.py:190-223 | Fed with windows of one series that reach back, the concatenated partitions are the series between the boundary and the chain's end. |
| `ChainHistory.ChainAvoidsBaseline` | finex_m15_prospective_validation.py:122-130 | Every frozen row is older than every row on the chain. |
| `ChainHistory.FreezesIff` | finex_m15_prospective_validation.py:122-130 | Freezing succeeds if and only if there are the four symbols with 300 rows or more each, and records the greatest time of each frame. |
| `ChainRuns.StepKeepsInv` | collect_finex_m15_prospective_partition.py:174-285 | Every step of every concurrent ingest keeps the stored head and all ingests in flight tied to valid chains. |
| `ChainRuns.EveryRunKeepsAValidChain` | collect_finex_m15_prospective_partition.py:160-293 | Whatever the interleaving and wherever ingests stop, the stored head describes a valid chain of stored partitions. |
| `ChainRuns.EveryRunEqualsBatch` | collect_finex_m15_prospective_partition.py:160-293 | After every such run fed with windows of one series, the chain holds exactly the series between boundary and head end. |
| `ChainScenarios.InterruptedIngestCannotBeRepeated` | collect_finex_m15_prospective_partition.py:264-285 | While the head stays, deciding on the same snapshot again yields the partition id that is already taken. |
| `ChainScenarios.RetryTakesSameIdIff` | collect_finex_m15_prospective_partition.py:176-230 | From any position a retry commits if and only if the snapshot is not the latest and is newer than it, and then takes the first attempt's id if and only if the sequence is the one first read. |
| `ChainScenarios.RetryGoesThroughLater` | collect_finex_m15_prospective_partition.py:174-285 | For any two snapshots that can be ingested, the older one not yet in: an ingest of the newer stops between its commits, the older one moves the head, and the retry becomes the second partition. |
| `ChainScenarios.StaleIngestRollsBack` | collect_finex_m15_prospective_partition.py:174-285 | For any three snapshots that can be ingested: a run in which an ingest that read the empty chain takes the head from sequence 2 back to 1. |
| `ChainRaces.ReadHeadIffReadHistory` | collect_finex_m15_prospective_partition.py:174-285 | After every run, raced or not, what an ingest in flight read is the present head if and only if the history it read is the present one. |
| `ChainRaces.ReplacementAppendsIff` | collect_finex_m15_prospective_partition.py:285-285 | A head replacement keeps the stored history if and only if the present chain is the one its ingest had read. |
| `ChainRaces.HistoryGrowsIffUnraced` | collect_finex_m15_prospective_partition.py:174-285 | Over every run, no step takes a partition out of the history if and only if every head replacement finds the head record that its ingest had read (with injective receipt and row hashes). |
| `ChainStore.Store.Collect` | collect_finex_m15_prospective_partition.py:190-223 | The loop over the symbols gives, per symbol, the rows newer than its end, their record and the new end, and the total. |
| `ChainStore.Store.Prepare` | collect_finex_m15_prospective_partition.py:190-284 | The receipt, files and head built step by step are those of the specification. |
| `ChainStore.Store.Ingest` | collect_finex_m15_prospective_partition.py:160-293 | A committed ingest appends one partition to the history the head stands for; an interrupted one stores it and leaves head and history; a blocked or repeated one changes nothing. |
| `TradeRules.TrailInGains` | backtest.py:246-267 | For both sides at once: the stop moves exactly when the gain reaches the trail start, to the better of the old stop and the gain less the trail step. |
| `TradeRules.BarKeepsStop` | backtest.py:215-307 | The stop never moves against the trade, stays strictly behind the surviving bar's close and the target, is never hit at the entry, and in the low-volatility mode never moves. |
| `TradeRules.BarOutcome` | backtest.py:270-307 | In gains, for both sides: a bar ends a trade if and only if it reaches stop or target; a win is the target without the stop, and the stop is a loss, break-even or trailing win by the sign of its gain. |
| `TradeRules.ModelTable` | backtest.py:215-243 | When which risk model applies, its distances, and that the reward is the ratio of target to stop up to rounding. |
| `TradeRules.EntryHasPositiveRange` | backtest.py:192-212 | A market that is not LOW has a positive average true range. |
| `Backtest.HoldTrade` | backtest.py:411-447 | The inner loop computes the exit of the recursive specification. |
| `BacktestLaw.HoldFollowsBars` | backtest.py:411-438 | A trade ends at the first bar that reaches the target or the stop in force, which is the best of the first one and of what the closes so far have locked in; it times out if no bar does. |
| `Backtest.HoldKeepsStop` | backtest.py:402-447 | Over any bars: no break-even exit, no trailing win in the low-volatility mode, final stop no worse than the first, and a timeout's close strictly between stop and target. |
| `Backtest.AmountIsBounded` | backtest.py:435-505 | Each trade earns between -0.5 and +1.0, timeouts included. |
| `Backtest.RunBacktest` | backtest.py:347-505 | The nested loops book exactly the event log that the specification gives. |
| `BacktestLaw.ChoiceLaw` | backtest.py:359-387 | A buy signal with volatility in the asset's band opens a long trade, a sell signal a short one; sideways, low and waiting bars are skipped for that reason. |
| `BacktestLaw.EveryBarFollowsMarket` | backtest.py:347-505 | Every bar of every run: passed over if and only if a trade ended less than ten bars before, and otherwise skipped by its reason or traded on the signal of its side, at its close, with the exit and the amount that the following bars decide. |
| `BacktestRuns.EveryTradeIsSound` | backtest.py:347-505 | In every run every trade ends within its window, never at break-even, within the amount bounds, and after the cooldown. |
| `BacktestRuns.TradesAreApart` | backtest.py:347-349 | Any two trades of a run: the later one enters at least ten bars after the earlier one's exit. |
| `BacktestRuns.TradeDensity` | backtest.py:347-349 | Trades are at least eleven bars apart from entry to entry, counted from any point of a run. |
| `BacktestRuns.EveryRunReconciles` | backtest.py:347-538 | Balance, gross totals, win and loss totals and the log agree; balance within [50 - 0.5 n, 50 + n] for n trades; trades = buys + sells = wins + losses + timeouts; bars outside cooldown = skips + trades; 11 (n - 1) <= bars - 271 when n >= 1. |
| `BacktestLaw.SkipsAreCounted` | backtest.py:377-387 | Each skip counter is the number of bars skipped for its reason. |
| `BacktestLaw.EntriesAreCounted` | backtest.py:397-409 | Buys, sells and the two volatility counters are the numbers of such trades. |
| `BacktestLaw.EndingsAreCounted` | backtest.py:435-499 | Trades, timeouts, trailing-stop hits, wins and losses are the numbers of such endings. |
| `BacktestLaw.SidesAreCounted` | backtest.py:452-499 | Wins and losses by side are the numbers of such trades. |
| `BacktestLaw.MoneyIsSummed` | backtest.py:460-505 | Gross profit and gross loss are the sums of what the trades won and lost. |
| `BacktestRuns.StrategyCountsAddUp` | backtest.py:389-391 | The counts of any listing of the strategies add up to the number of trades. |
| `BacktestLookahead.ExitIgnoresItsClose` | backtest.py:296-307 | A finished trade's exit is the same for every frame that agrees before the exit bar and on its high and low. |
| `BacktestLookahead.NoLookahead` | backtest.py:347-433 | Frames of equal length that agree before row k yield the same sequence of trades that exit before k. |
| `BacktestMetrics.ExpectancyIsExact` | backtest.py:513-538 | Trades times expectancy is the net profit if and only if unattributed timeout gains equal unattributed timeout losses; in particular when there are both wins and losses. |
| `BacktestMetrics.ProfitFactorDecides` | backtest.py:556-602 | Passing the profit-factor threshold implies a positive gross loss and a positive net profit. |
| `BacktestMetrics.AcceptedIff` | backtest.py:556-602 | No rejection reason applies if and only if the symbol is ready, there are twenty trades, expectancy is positive, and gross profit is at least the symbol's factor times a positive gross loss. |
| `BacktestMetrics.ProfitWithoutExpectancy` | backtest.py:484-538 | A concrete run, with the average true range of its own bars, that has positive net profit, zero expectancy and no acceptance. |
| `RecordHash.DecodeInvertsEncode` | build_windows_wheel_manifest.py:104-115 | Decoding the unpadded URL-safe encoding of any bytes gives them back. |
| `RecordHash.AcceptsExactlyCanonical` | build_windows_wheel_manifest.py:98-118 | A field decodes to a digest if and only if it is the algorithm prefix and the canonical encoding of that digest. |
| `RecordHash.AcceptedHasDigest` | build_windows_wheel_manifest.py:98-118 | Every accepted field is the canonical field of some 32-byte digest. |
| `RecordHash.DecoderTakesBothAlphabets` | build_windows_wheel_manifest.py:106-110 | The decoder alone gives the same bytes for the standard alphabet. |
| `RecordHash.DecoderDropsLowBits` | build_windows_wheel_manifest.py:106-110 | Two texts of any equal length that agree up to the last character decode alike if and only if the last characters agree above the left-over bits (four for length 2 modulo 4, two for 3, none otherwise). |
| `RecordHash.OneTextPerDigest` | build_windows_wheel_manifest.py:115-118 | Two accepted fields with the same digest are the same text. |
| `PackageNames.ManifestName` | build_windows_wheel_manifest.py:62-68 | The replace-until-stable loop terminates and gives the run-collapsed name, or fails on an empty one. |
| `PackageNames.ReplaceKeepsCollapse` | build_windows_wheel_manifest.py:64-65 | One replacement pass does not change what the separator runs collapse to. |
| `PackageNames.NormalisersAgree` | build_windows_dependency_sbom.py:57-60 | On strings the two normalisers agree, errors included; on other values only the manifest builder answers. |
| `PackageNames.NormalisingIsIdempotent` | build_windows_wheel_manifest.py:62-68 | A normalised name is its own normalisation under both. |
| `PackageNames.NormalFormLaw` | build_windows_wheel_manifest.py:62-68 | A normalised name has no underscore, dot, capital or double hyphen, keeps the letters in order, and has one hyphen per run of separators. |
| `WheelBinding.BestIsLeast` | build_windows_wheel_manifest.py:141-166 | Selection finds a wheel exactly when a compatible one exists, and none has a smaller key. |
| `WheelBinding.SelectionLaw` | build_windows_wheel_manifest.py:141-166 | Selection fails if and only if a file name is unreadable or none is of the three kinds; otherwise it takes the first of the smallest names of the wanted kind: interpreter-specific, else stable-ABI, else pure. |
| `WheelBinding.TextLessIff` | build_windows_wheel_manifest.py:141-149 | Names are ordered by the first character that differs, a proper prefix first. |
| `WheelBinding.ContainsIff` | build_windows_wheel_manifest.py:145-146 | One text contains another if and only if it stands somewhere in it. |
| `WheelBinding.SelectorsAgreeIff` | build_windows_dependency_sbom.py:73-101 | Both selectors pick the same wheel from every list if and only if lower-casing and case-folding judge every pair of wheels alike. |
| `WheelBinding.SelectorsCanDiffer` | build_windows_dependency_sbom.py:73-81 | Two file names outside ASCII for which they differ. |
| `WheelBinding.SelectLocked` | build_windows_wheel_manifest.py:169-201 | The two loops fill the selection of the specification: later packages replace, bootstrap duplicates are errors. |
| `BindingAgreement.LastPackageIsLocked` | build_windows_wheel_manifest.py:174-183 | A package that no later one of the same name replaces is locked with its own version and wheel. |
| `BindingAgreement.BuiltEntry` | build_windows_wheel_manifest.py:443-498 | The manifest entry of such a package has its version and the file name, size and hash of its wheel as it is on disk. |
| `BindingAgreement.BuiltBootstrapEntry` | build_windows_wheel_manifest.py:190-200 | The same of every bootstrap wheel. |
| `WheelBinding.BuildSbom` | build_windows_dependency_sbom.py:175-311 | Components are produced exactly when the target, schema, payload and all binding checks pass and the package sets are equal; they are sorted by name and are a permutation of one component per lock entry with its name, version and selected wheel. |
| `SbomLaw.SbomAcceptsIff` | build_windows_dependency_sbom.py:175-311 | The builder accepts if and only if target, schema and payload hash agree, all names are proper and different, each entry has exactly the version, file, size and hash of its wheel, and the manifest has no other entries. |
| `WheelBinding.SortSorts` | build_windows_dependency_sbom.py:309-309 | Sorting components orders them by name. |
| `BindingAgreement.ManifestPassesIffPresentable` | build_windows_dependency_sbom.py:175-311 | Every manifest that is built passes all header and binding checks if and only if the lock has the target, both lists are non-empty, names and versions are strings, versions are non-empty, no normalised package name repeats, and the two selectors agree on each package. |
| `BindingAgreement.PresentableWithPlainNamesPasses` | build_windows_dependency_sbom.py:175-311 | A manifest built from a presentable lock whose wheel file names have equal lower and casefold forms passes. |
| `BindingFailures.BuiltManifestsCanFail` | build_windows_dependency_sbom.py:246-288 | Whatever sound wheels with different files are locked, six locks have their manifest built and rejected: one name in two spellings, a version or a name that is no string, an empty version, no bootstrap wheels, nothing at all. |
| `BindingFailures.BuiltManifestCanPass` | build_windows_dependency_sbom.py:175-311 | Whatever two sound wheels with different files are locked, a lock whose manifest is built and passes. |
| `WheelRecord.ScanRow` | build_windows_wheel_manifest.py:348-424 | A row is taken exactly when it passes all checks after the rows before it, and then the collected sets are those of the longer prefix. |
| `WheelRecord.VerifyWheel` | build_windows_wheel_manifest.py:304-440 | A wheel is accepted exactly when archive, rows, self-row, completeness and console-script checks hold, with its installed files under distinct Windows keys. |
| `WheelRecord.InspectWheel` | build_windows_wheel_manifest.py:319-440 | The same with the RECORD found in the archive, which must be the only one. |
| `WheelRecord.RowsMatchFiles` | build_windows_wheel_manifest.py:304-434 | In an accepted wheel members and rows correspond one to one, each with its canonical hash and exact size. |
| `WheelRecord.AcceptedMember` | build_windows_wheel_manifest.py:244-260 | Each member of an accepted wheel is no symbolic link and has a safe path; other than RECORD it lies outside the data directory or below its library or script directories, is not forbidden as a library file, and as entry points names valid scripts. |
| `WheelRecord.ItemPath` | build_windows_wheel_manifest.py:382-424 | A library file is installed under its own path, or under what is left of it below the data directory's library directories. |
| `WheelInstall.MergeOwners` | build_windows_wheel_manifest.py:466-492 | Owners are recorded exactly when no Windows key occurs twice across packages, each key under its own package and path. |
| `WheelInstall.AnyOrderSameTree` | build_windows_wheel_manifest.py:466-492 | Unpacking distinct keys in any order gives the same tree, with every file present and none overwritten. |
| `WheelInstall.CompleteInAnyOrderIff` | build_windows_wheel_manifest.py:466-492 | Every order of installing some files succeeds with all of them in place if and only if their keys are distinct and none lies below another. |
| `WheelInstall.EveryFileIsInstalledIff` | build_windows_wheel_manifest.py:304-492 | For accepted wheels whose owners merge: installing in any order leaves every library member of every archive, RECORD included, in place with its own content if and only if RECORD keys are distinct, none is an owned key, and no file lies below another. |
| `WheelOverlaps.RecordCanBeOverwritten` | build_windows_wheel_manifest.py:356-361 | An archive that passes inspection with the rows of its own RECORD and has a library file on the path of that RECORD; the order of unpacking decides which is left. |
| `WheelOverlaps.FileCanLieBelowFile` | build_windows_wheel_manifest.py:466-492 | Two archives that pass inspection and whose owners merge although one installs a file where the other needs a directory. |

## Left out

- OrderTaint.EveryRunIsCovered: statements use the tracked expressions (names, attributes, subscripts, displays, foldable strings, the import and namespace calls and the one reflection the rules name; other reflection escapes the closure, as `ReflectionLaw` shows, and is for the builder's other checks) and targets without starred or attribute parts; reaching the module through other calls, submodules of its package, mutation of objects, rebinding of builtins, other binding forms or a module that re-exports it is not followed.
- `_python_order_primitive_counts`, the reflection and allow-shape checks and the source inventory of the execution builder: long lists of one-branch patterns.
- SuitePublication: a directory's contents are the number of suite files it holds, so role validation, the suite manifest and git checks appear only as the step that finds all files present; `rmtree` removes one entry per step; actors other than builders do not touch the directory.
- StableRead: device numbers are part of the inode number.
- ReleaseOutputs: lstat and unlink are one step, as are the data write, flush and close; path validation and archive creation are not modelled.
- ChainRuns: partition commit and head replacement are one atomic step each; the fields `read` and `chain` of the workers and `chain` of the state record what was read and the history, and no step depends on them.
- ChainHistory.NoSnapshotTwice: needs an injective snapshot hash. SameHeadSameHistory, SameLinkSameHistory and HistoryGrowsIffUnraced need injective receipt and row hashes.
- ProspectiveChain: times are integers, so time texts, time zones and sub-microsecond capture times in partition ids are not modelled; a head is taken as already authenticated (`SignedRecords` covers that step); constant fields of receipts and heads are omitted.
- Backtest: prices are real numbers, so floating-point rounding is not modelled; bars satisfy 0 < low <= open, close <= high; statistics are grouped into sub-records; reporting and the price download are omitted.
- BacktestMetrics: the sorting of accepted pairs and the limit on their number are omitted.
- StaticStrings.FoldIsExact: specifications with a precision, where only `FoldIsRight` holds because changes in several fields can cancel out (`AlterationsCanCancel`).
- PackageNames: lower-casing and white space of package names are ASCII; file-name case mappings are parameters.
- WheelBinding: lock entries that are not mappings, the lock's hash of the manifest file and the SBOM's other metadata are omitted; the keys that a wheel installs are a parameter here, which `WheelRecord` and `WheelInstall` compute.
- WheelRecord: the archive path policy, the forbidden start-up names and the parsing of entry points are parameters; zip and CSV parsing and tree hashes are omitted.
- SHA-256, HMAC, JSON, TOML and zip libraries, MetaTrader, pandas and the network: parameters or omitted.
- Command-line wrappers, dashboards, executor configuration and active-pair scoring: would only add easy members.

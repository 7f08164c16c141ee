# Verified models of the run-time logic of oss-crs

A Dafny project that models the parts of oss-crs whose correctness is hardest to see from the code,
and proves what they are meant to guarantee. `dafny verify dfyconfig.toml` checks everything.

| files | what they model |
|---|---|
| `Text.dfy` | decimal numerals, `split`, `join`, `strip`, code-point order |
| `Cpuset.dfy` | the parser and the printer of CPU sets such as "0-3,5,8-11" |
| `CpuMapping.dfy` | mapping template CPU sets onto a real pool (`create_cpu_mapping`, `map_cpuset`, `map_cpus`) |
| `Shares.dfy`, `CpuScaling.dfy`, `CpuFairness.dfy`, `DefaultCpus.dfy` | scaling CPU shares to a pool, how fair the result is, the default split |
| `Memory.dfy`, `MemoryScaling.dfy`, `MemoryFairness.dfy`, `DefaultMemory.dfy` | memory sizes as text, scaling them, how fair the result is, the default split |
| `TaskTree.dfy`, `TaskEnds.dfy`, `TaskTreeLaws.dfy` | a pure evaluator of task trees that grow while they run, what its calls do told from the task bodies alone, and its other laws |
| `Progress.dfy`, `ProgressSteps.dfy`, `ProgressOutcomes.dfy`, `MultiTaskProgress.dfy` | the tables of `MultiTaskProgress`, the laws carried over to them, and the class, which refines the evaluator |
| `Exchange.dfy`, `ExchangeContent.dfy`, `Fetching.dfy`, `ExchangeRuns.dfy` | the exchange process and its consumers, one pass at a time and in every interleaving |
| `SubmitQueue.dfy`, `SubmitOutcomes.dfy`, `SubmitHelper.dfy`, `SubmitPaths.dfy` | the batching submitter: every interleaving of its threads, its methods, and how the two agree |
| `EndToEnd.dfy`, `Delivery.dfy` | submitters, exchange process and consumers together: what arrives is genuine, and what is submitted arrives |
| `JobCache.dfy` | the job table of the builder sidecar under concurrent requests and workers |
| `Lifecycle.dfy` | the list-then-subscribe protocol behind the ready signal |
| `ChunkSearch.dfy`, `RunId.dfy`, `UniqueNames.dfy` | chunked substring search, run id normalisation, unique names |

How the models are built:

- Code that updates variables is a method with the loops of the source, or a class with its fields.
  Each such method is proved to compute a specification function or predicate, and the results are
  lemmas about these.
- Python exceptions are `Failure` values; None is `None`.
- Processes and threads that run at the same time are one state machine per protocol; the results
  are about every run of it. Lemmas such as `ExchangeRuns.PassIsPath`,
  `Delivery.FetchIsPath`, `SubmitHelperModel.FlushIsPath` and `SubmitPaths.HandlingIsPath` show that the sequential methods are paths of these machines.
- The proportional estimates, which the code computes with floating-point division, are a parameter
  `base`. That the pool is partitioned and that memory sizes are whole and nearly use up the total is
  proved for every `base`; fairness, of CPUs and memory, and the upper bound on memory are proved for exact floors
  (`CpuFairness.ExactFloors`).

Results that differ from what a reader of the code or its comments may expect:

- A task that succeeds with an early exit stops its siblings, but its caller cannot tell: a
  successful `run_added_tasks` always returns a plain success (`TaskTreeLaws.SuccessIsPlain`).
- The chunked search differs from a whole-file test on an empty file and an empty needle, and only
  there (`ChunkSearch.DiffersOnEmptyFile`).
- Two different tasks can share an identifier (`ProgressBoard.TaskIdClash`). They do exactly when
  their paths, without leading empty names, have the same pieces between slashes
  (`ProgressBoard.SameTaskId`); siblings never do, whatever their names contain
  (`ProgressBoard.SiblingIds`).
- A second call of `run_added_tasks` with nothing added runs something exactly when the first left
  regular tasks pending, which it does when a task before the last fails, raises or exits early
  (`TaskTreeLaws.SecondRun`, `TaskTreeLaws.SecondRunContinues`).
- A fetched file is not always reported: if the fetch that gets it across then fails, its name is lost
  (`Fetching.LostReport`). A name is reported exactly when it was absent at the start and the first
  fetch to carry it over completes, and then once (`Fetching.ReportedOnce`).
- The initial scan of a watched directory ends at the first file whose destination cannot be looked for: an error
  that the code does not catch (`SubmitHelperModel.ScanCares` is about the files before it).
- Run ids can collide although a hash is appended (`RunId.DifferentIdsCollide`); `RunId.Collisions`
  says exactly when.
- With a CRS, the default CPU split is a partition of the pool exactly when the names are distinct and none is
  the infrastructure's (`DefaultCpus.DefaultPartitions`); of a repeated name only the last slice is kept.
- The default memory split exceeds the total exactly when infrastructure, which always gets at least one
  megabyte, leaves less than a megabyte per CRS, and without CRSs when there is less than it gets
  (`DefaultMemory.DefaultMemoryFits`).

## Model

| member | source | states |
|---|---|---|
| Cpuset.ParseCpuset | oss_crs/src/cpuset.py:12-52 | the set accumulated part by part, or the first error, is the meaning of the text |
| Cpuset.Accumulate | oss_crs/src/cpuset.py:40-52 | the loop fails at the first backward range, with its ends, and otherwise unites all ranges |
| Cpuset.MeaningCharacterised | oss_crs/src/cpuset.py:32-52 | a text is rejected for its format exactly when it does not match the pattern, accepted exactly when moreover no range is backward, and then it denotes a non-empty set: exactly the CPUs some range covers |
| Cpuset.MeaningByGrammar | oss_crs/src/cpuset.py:32-52 | a text written as numbers and pairs of numbers with dashes, with commas between them, denotes exactly the CPUs of these ranges, or its first backward range is the error |
| Cpuset.BadFormatMeans | oss_crs/src/cpuset.py:32-38 | a text is rejected for its format exactly when, stripped, it cannot be written so |
| Cpuset.PatternIsPartwise | oss_crs/src/cpuset.py:33-42 | matching the whole pattern is the same as every piece of the later `split` being a number or a range |
| Cpuset.CpusetToStr | oss_crs/src/cpuset.py:55-97 | the running-range loop prints the canonical text of the set; the empty set is an error |
| Cpuset.SortedCorrect | oss_crs/src/cpuset.py:75 | sorting a set gives the ascending sequence of just its elements |
| Cpuset.SortedUnique | oss_crs/src/cpuset.py:75 | the sorted list of a set is the only ascending list of its elements |
| Cpuset.RunsCorrect | oss_crs/src/cpuset.py:75-95 | the ranges printed are ascending, at least 2 apart, and cover exactly the set |
| Cpuset.PrintedShape | oss_crs/src/cpuset.py:75-97 | a printed set lists its runs in ascending order with gaps between them, a single CPU as a number, a longer run as its two ends, numbers without zeros in front |
| Cpuset.RangesReadBack | oss_crs/src/cpuset.py:32-52 | any printed list of forward ranges parses to exactly the CPUs of the list |
| Cpuset.PrintThenParse | oss_crs/src/cpuset.py:55-97 | round trip: a printed non-empty set parses back to the same set |
| Cpuset.CanonicalUnique | oss_crs/src/cpuset.py:75-97 | only one list of ranges at least 2 apart covers a given set |
| Cpuset.CanonicalTextUnique | oss_crs/src/cpuset.py:75-97 | every canonical list of ranges prints as the text that `cpuset_to_str` gives its set |
| Cpuset.NormalFormDecides | oss_crs/src/cpuset.py:55-97 | two valid texts denote the same set exactly when their re-printed forms are equal |
| Text.SplitJoin | oss_crs/src/cpuset.py:97 | splitting undoes joining when no piece contains the separator |
| Text.JoinSplit | oss_crs/src/cpuset.py:41 | joining undoes splitting, and no piece contains the separator |
| Text.DecimalRoundTrip | oss_crs/src/cpuset.py:44 | a printed number reads back as itself |
| Text.StripMeans | oss_crs/src/cpuset.py:32 | stripping removes the white space at both ends, all of it and nothing else |
| Text.StringLeMeans | oss_crs/src/cpuset.py:229 | the order of names: one is a prefix of the other, or has the smaller character where they first differ |
| CpuMapping.CreateCpuMapping | oss_crs/src/cpuset.py:127-172 | the mapping by rank of the CPUs of all the texts onto the sorted pool; the first unreadable text, an unreadable pool, or texts that together have more CPUs than the pool are the error, in that order, and there is no other |
| CpuMapping.UnionMeans | oss_crs/src/cpuset.py:154-157 | the united set has exactly the CPUs that some text has; if a text cannot be read, the first such gives the error |
| CpuMapping.RejectionMeans | oss_crs/src/cpuset.py:154-166 | there is no mapping exactly if a text cannot be read, or else the pool cannot, or else the texts together have more CPUs than the pool |
| CpuMapping.MappingIsIncreasing | oss_crs/src/cpuset.py:168-172 | the mapping is defined on exactly the CPUs that some text has, strictly increasing, and uses the smallest CPUs of the pool |
| CpuMapping.MapCpus | oss_crs/src/cpuset.py:114-122 | visiting the CPUs in any order gives their image, or stops exactly when one is not mapped |
| CpuMapping.MapCpuset | oss_crs/src/cpuset.py:100-124 | the printed image of the set a text denotes, or the error of parsing or of an unmapped CPU |
| CpuMapping.MappedOutcome | oss_crs/src/cpuset.py:100-124 | that text parses back to the image of the set; the error is that of parsing, or else that of an unmapped CPU |
| CpuMapping.ImageCount | oss_crs/src/cpuset.py:113-124 | mapping keeps the number of CPUs |
| CpuMapping.ImageIntersection | oss_crs/src/cpuset.py:113-124 | the images of two sets intersect in the image of their intersection |
| CpuMapping.MappedTogether | oss_crs/src/config/crs_compose.py:375-384 | once a mapping exists no entry fails; new texts parse to sets inside the pool, keep their sizes, and share CPUs exactly where the old ones did |
| CpuMapping.ComposeConfig.Collect | oss_crs/src/config/crs_compose.py:376-378 | the list of all CPU sets of the configuration, infrastructure first |
| CpuMapping.ComposeConfig.MapCpus | oss_crs/src/config/crs_compose.py:363-384 | all entries are rewritten in place with one mapping, or there is an error and none is touched: an unreadable pool, or else an unreadable text, or else more CPUs in the texts than in the pool |
| CpuMapping.ComposeConfig.Apply | oss_crs/src/config/crs_compose.py:382-384 | every entry becomes its mapped text |
| CpuScaling.Shrink | oss_crs/src/cpuset.py:213-220 | the loop ends, never through its break, with shares between 1 and the old ones that sum to the pool size if they exceeded it, each taken only from the then largest entry |
| CpuScaling.LevellingUnique | oss_crs/src/cpuset.py:213-220 | that description has only one solution |
| CpuScaling.ServingOrderCorrect | oss_crs/src/cpuset.py:225-229 | those served are the entries except infrastructure (or all, if there is no other), each once, larger share first, then by the characters of the name |
| Shares.SortOrdered | oss_crs/src/cpuset.py:229 | sorting by descending share and then name yields that order, names compared character by character |
| Shares.HandOut | oss_crs/src/cpuset.py:230-231 | the round robin gives position j one unit for each index congruent to j, and adds r units to the sum |
| Shares.HandedOutUnique | oss_crs/src/cpuset.py:230-231 | the outcome of the round robin is determined by that count |
| CpuScaling.FloorShares | oss_crs/src/cpuset.py:208-211 | every entry has its estimate, but at least one |
| CpuScaling.ScaleShares | oss_crs/src/cpuset.py:208-231 | floors of at least one, levelled, then completed round robin to the pool size, for any estimates |
| CpuScaling.ScalingUnique | oss_crs/src/cpuset.py:208-231 | the shares are a function of the template, the estimates and the pool size |
| CpuScaling.Cut | oss_crs/src/cpuset.py:233-242 | each entry gets the text of its own consecutive slice of the sorted pool |
| CpuScaling.AssignSlice | oss_crs/src/cpuset.py:237-240 | one more entry has its slice, the offset is the sum of the shares so far |
| CpuScaling.SlicesAscend | oss_crs/src/cpuset.py:236-240 | every CPU of an earlier entry is below every CPU of a later one |
| CpuScaling.CutPartitions | oss_crs/src/cpuset.py:233-242 | texts cut from shares that sum to the pool parse to a partition of the pool |
| CpuScaling.CutCounts | oss_crs/src/cpuset.py:237-239 | the parsed set of an entry has as many CPUs as its share |
| CpuScaling.ScaleCpusets | oss_crs/src/cpuset.py:175-242 | the error cases and no others; else the slices cut from the scaled shares |
| CpuScaling.ScalePartitions | oss_crs/src/cpuset.py:196-242 | for any estimates the returned texts, parsed again, are non-empty, pairwise disjoint and together the whole pool |
| CpuFairness.FloorTotal | oss_crs/src/cpuset.py:211 | exact floors leave fewer CPUs than there are entries |
| CpuFairness.FairWithoutShrinking | oss_crs/src/cpuset.py:206-231 | without shrinking everyone gets the floor (at least 1) or one more, infrastructure no more |
| CpuFairness.LargestServedFirst | oss_crs/src/cpuset.py:222-231 | who gets one more precedes who does not: larger template share first, then the name whose character is smaller where they first differ |
| CpuFairness.FairWithShrinking | oss_crs/src/cpuset.py:213-220 | with shrinking, at most one CPU is taken back per entry raised to the minimum, always from the largest entry |
| CpuFairness.SharesFollowTemplate | oss_crs/src/cpuset.py:206-231 | in all cases a template share at least as large gets at least as many CPUs, up to one |
| DefaultCpus.DefaultCpuAllocation | oss_crs/src/cpuset.py:245-301 | the error cases and no others; else slices with the default counts, one per position of the list, of which each name has the last; names may repeat |
| DefaultCpus.Split | oss_crs/src/cpuset.py:275-286 | the counts after the steal from infrastructure |
| DefaultCpus.CutEvenly | oss_crs/src/cpuset.py:288-301 | infrastructure and then each CRS has its slice, stored under its name |
| DefaultCpus.AssignSlot | oss_crs/src/cpuset.py:297-299 | one more position has its slice, the offset is the sum of the counts so far |
| DefaultCpus.DefaultShares | oss_crs/src/cpuset.py:275-286 | infrastructure gets the most of 1 to 4 CPUs that is within a quarter of the pool, if more than one, and leaves one for each CRS; CRS shares are at least 1, do not increase along the list, differ by at most 1, and use up the rest |
| DefaultCpus.DefaultTotal | oss_crs/src/cpuset.py:275-297 | the counts are positive and sum to the pool if there is a CRS |
| DefaultCpus.DefaultPartitions | oss_crs/src/cpuset.py:288-301 | with a CRS, the returned texts, parsed again, partition the pool exactly when the CRS names are distinct and none is the infrastructure's |
| DefaultCpus.DefaultCounts | oss_crs/src/cpuset.py:291-299 | the parsed set of an entry has the count of the last position with its name |
| DefaultCpus.DefaultSlicesAscend | oss_crs/src/cpuset.py:288-301 | infrastructure gets the lowest CPUs, and every CRS lower ones than those after it in the list |
| Memory.FormatAccepted | oss_crs/src/memory.py:35-41 | a text is rejected for its format exactly when, stripped, it is not digits, optional fraction, blanks and a word |
| Memory.SizeMeans | oss_crs/src/memory.py:42-49 | an accepted size in bytes or in one of the first four powers of 1024, spelled in any case, is the decimal number times the unit, rounded down |
| Memory.UnitMeans | oss_crs/src/memory.py:10-20 | the units are b, and k, m, g and t with or without a b, in any case, standing for powers of 1024 |
| Memory.UnknownUnitMeans | oss_crs/src/memory.py:43-48 | an accepted size with any other unit is an error of its own |
| Memory.UnpointedMeans | oss_crs/src/memory.py:42 | the digits of a decimal number read without the point: the whole part shifted, plus the fraction |
| Memory.MemoryToStr | oss_crs/src/memory.py:52-74 | the table scan prints the canonical text; numbers that are not positive are an error |
| Memory.TextMeans | oss_crs/src/memory.py:63-74 | the text is a plain numeral and the letter of the largest unit that divides the size |
| Memory.MemoryRoundTrip | oss_crs/src/memory.py:63-74 | a printed size parses back to the same number of bytes |
| Memory.MemoryTextInjective | oss_crs/src/memory.py:63-74 | different sizes print differently |
| MemoryScaling.ScaleMemory | oss_crs/src/memory.py:77-117 | the error of the total, of the first unreadable entry, or the printed scaled sizes; division by zero exactly for an empty template with a megabyte to hand out or a template of zero bytes |
| MemoryScaling.ReadSizes | oss_crs/src/memory.py:94 | all entries parsed, or the error of the first one that cannot be |
| MemoryScaling.FloorSizes | oss_crs/src/memory.py:99-103 | whole megabytes below each estimate, at least one |
| MemoryScaling.ScaleSizes | oss_crs/src/memory.py:99-115 | floored sizes, and the rest of the total handed out in megabytes, round robin |
| MemoryScaling.PrintSizes | oss_crs/src/memory.py:117 | one text per entry, of its size |
| MemoryScaling.MemoryScalingUnique | oss_crs/src/memory.py:99-115 | the sizes are a function of the template, the estimates and the total |
| MemoryScaling.SizesAreWhole | oss_crs/src/memory.py:99-115 | for any estimates every size is a whole number of megabytes, at least one |
| MemoryScaling.AlmostAllAssigned | oss_crs/src/memory.py:105-115 | for any estimates less than one megabyte of the total is unassigned |
| MemoryScaling.NotMuchOver | oss_crs/src/memory.py:99-115 | with exact proportions the total is exceeded by at most one megabyte per entry raised to the minimum |
| MemoryScaling.ScaledTextsReadBack | oss_crs/src/memory.py:93-117 | the printed sizes, parsed again, are these whole sizes and add up to within a megabyte of the total |
| MemoryFairness.LittleIsLeft | oss_crs/src/memory.py:99-112 | with exact proportions fewer megabytes than entries are left after rounding down |
| MemoryFairness.FloorOrOneMore | oss_crs/src/memory.py:99-115 | with exact proportions every entry gets its size rounded down, at least one megabyte, or exactly one megabyte more, and infrastructure beside a CRS no more |
| MemoryFairness.LargestServedFirst | oss_crs/src/memory.py:105-115 | who gets a megabyte more precedes who does not: larger template size first, then the name whose character is smaller where they first differ |
| MemoryFairness.SizesFollowTemplate | oss_crs/src/memory.py:99-115 | a template size at least as large gets at least as much, up to one megabyte |
| DefaultMemory.DefaultMemoryAllocation | oss_crs/src/memory.py:120-157 | an error exactly for an unreadable total; else a text for each position that parses back to its default size, and each name has the text of its last position; names may repeat |
| DefaultMemory.InfraMeans | oss_crs/src/memory.py:140-141 | infrastructure gets the most whole megabytes within a quarter of the total and 16G, but at least one |
| DefaultMemory.SplitRest | oss_crs/src/memory.py:143-151 | the size of each CRS before the remainder, and how many get a megabyte more |
| DefaultMemory.SplitAmong | oss_crs/src/memory.py:145-155 | infrastructure and then each CRS in order has a text that parses back to its size |
| DefaultMemory.AddEntry | oss_crs/src/memory.py:155 | one more position has its text, stored under its name |
| DefaultMemory.DefaultMemoryIsEven | oss_crs/src/memory.py:140-155 | if an even split is at least a megabyte each, sizes do not increase, differ by at most a megabyte, and leave less than a megabyte of the total |
| DefaultMemory.DefaultMemoryOverruns | oss_crs/src/memory.py:149-155 | otherwise, with a CRS, every CRS gets exactly one megabyte and the total is exceeded |
| DefaultMemory.DefaultMemoryFits | oss_crs/src/memory.py:140-155 | with or without CRSs the split is within the total exactly when what infrastructure leaves is at least a megabyte per CRS |
| DefaultMemory.NestedFloor | oss_crs/src/memory.py:149-151 | after equal whole-megabyte shares, between nothing and less than a megabyte per CRS is left |
| TaskEnds.EndsAnywhere | oss_crs/src/ui.py:475-506 | how a task ends depends on its body only |
| TaskEnds.MainStopsAfter | oss_crs/src/ui.py:470-513 | every task started before the last returned a success without an early exit; if tasks are left pending, the last one started raised, returned no success, or exited early |
| TaskEnds.AllRunIfNoneStops | oss_crs/src/ui.py:470-513 | if no task raises, fails or exits early, none is left pending |
| TaskEnds.RunReturns | oss_crs/src/ui.py:467-580 | how far a call gets and what it returns, from the bodies alone: the failure of the last task started, or else, unless excused, the first complaint of a cleanup if one failed, or else a plain success |
| TaskEnds.BranchMeans | oss_crs/src/ui.py:455-528 | a task that calls `run_added_tasks` and looks at the success goes on as the bodies of its children tell; what was not started stays pending |
| TaskEnds.ReturnRunMeans | oss_crs/src/ui.py:455-528 | a task that returns the result of its call ends as the bodies of its children tell |
| TaskEnds.LeafMeans | oss_crs/src/ui.py:479-506 | a task that returns or raises at once ends just so |
| TaskTreeLaws.RunOrder | oss_crs/src/ui.py:467-580 | a call runs the pending tasks up to the first whose body raises, fails or exits early, each under its deadline, and then every pending cleanup, each exactly once and in order; nothing started during cleanups, at any depth, sees a deadline |
| TaskTreeLaws.RunOutcome | oss_crs/src/ui.py:467-528 | all tasks run and all cleanups are marked as their bodies ended, tasks not run keep their status, and what the call returns is told from the bodies |
| TaskTreeLaws.CleanupStatuses | oss_crs/src/ui.py:546-580 | all cleanups are marked as their bodies ended, whatever fails, and together return a plain success or the first complaint |
| TaskTreeLaws.SecondRun | oss_crs/src/ui.py:471-474 | calling again with nothing added runs something exactly when the first call left regular tasks pending |
| TaskTreeLaws.SecondRunContinues | oss_crs/src/ui.py:471-506 | an input on which the second call runs a task: the first of two tasks raises |
| TaskTreeLaws.SuccessIsPlain | oss_crs/src/ui.py:523-528 | a successful call never reports an early exit, an output or an error |
| TaskTreeLaws.BodyGrows | oss_crs/src/ui.py:384-446 | a task changes the status only of tasks strictly below it, and starts only such tasks |
| TaskTreeLaws.CleanupsGrow | oss_crs/src/ui.py:542-579 | whatever is started on behalf of cleanups starts without a deadline |
| TaskTreeLaws.MainRunsPrefix | oss_crs/src/ui.py:470-513 | the regular tasks run are the pending ones up to the first whose body does not end in a plain success, the rest stays pending |
| TaskTreeLaws.CleanupsAllRun | oss_crs/src/ui.py:549-577 | every pending cleanup starts exactly once, in order |
| TaskTreeLaws.MainStatuses | oss_crs/src/ui.py:470-513 | statuses after the regular tasks: those run are marked as their bodies ended, those not run are untouched |
| ProgressBoard.AddedReady | oss_crs/src/ui.py:397-409 | adding a task or a cleanup keeps the tables well formed, appends it to the pending ones of the current task, and touches no other task |
| ProgressBoard.SameTaskId | oss_crs/src/ui.py:397-402 | two tasks share an identifier exactly when their paths, without leading empty names, have the same pieces between slashes |
| ProgressBoard.SiblingIds | oss_crs/src/ui.py:397-402 | siblings share an identifier only if they share their name, whatever the names contain |
| ProgressBoard.TaskIdInjective | oss_crs/src/ui.py:397-402 | among tasks whose names are neither empty nor contain a slash, identifiers tell tasks apart |
| ProgressBoard.TaskIdClash | oss_crs/src/ui.py:397-402 | different tasks with one identifier: a slash in a name, or an empty name in front |
| ProgressOutcomes.ReadyDistinct | oss_crs/src/ui.py:404-406 | on the tables of the class the pending tasks and cleanups of a task have different names |
| ProgressOutcomes.RunDoneMeans | oss_crs/src/ui.py:455-580 | what refining the evaluator means on these tables: where the call stops, tasks started in order, statuses, and the result, as in the row of RunAddedTasks |
| ProgressOutcomes.NoneLeftBehind | oss_crs/src/ui.py:470-513 | no task is left pending exactly when every task before the last ends in a success without an early exit |
| MultiTaskProgressModel.MultiTaskProgress.constructor | oss_crs/src/ui.py:76-125 | the given tasks are pending at top level, nothing is in progress |
| MultiTaskProgressModel.MultiTaskProgress.AddTask | oss_crs/src/ui.py:384-411 | a new pending child of the current task |
| MultiTaskProgressModel.MultiTaskProgress.AddCleanupTask | oss_crs/src/ui.py:419-446 | a new pending cleanup of the current task |
| MultiTaskProgressModel.MultiTaskProgress.RunBody | oss_crs/src/ui.py:479 | a task function, which may add tasks and run them re-entrantly, starts with exactly the path to the current task in progress, does what the evaluator says, and leaves deadline and current task as they were |
| MultiTaskProgressModel.MultiTaskProgress.RunChildren | oss_crs/src/ui.py:455-479 | the same, from the point where a task function calls `run_added_tasks` |
| MultiTaskProgressModel.MultiTaskProgress.RunTask | oss_crs/src/ui.py:475-513 | one task runs as the evaluator says and is marked by how it ended; an exception is a failure; current task and deadline are restored |
| MultiTaskProgressModel.MultiTaskProgress.RunRegularTasks | oss_crs/src/ui.py:467-513 | the loop over regular tasks refines the evaluator's, leaves the pending cleanups for later and adds no sibling |
| MultiTaskProgressModel.MultiTaskProgress.RunRegularTask | oss_crs/src/ui.py:472-513 | one round of that loop: what is left for the evaluator to do is what it still has to do on the rest of the list |
| MultiTaskProgressModel.MultiTaskProgress.RunCleanupTasks | oss_crs/src/ui.py:530-580 | the loop over cleanups refines the evaluator's, whose tasks see no deadline, and restores the deadline |
| MultiTaskProgressModel.MultiTaskProgress.RunCleanupTask | oss_crs/src/ui.py:549-577 | one round of that loop, which goes on whatever happens and keeps the first error |
| MultiTaskProgressModel.MultiTaskProgress.RunAddedTasks | oss_crs/src/ui.py:455-528 | the call refines the evaluator; the pending tasks up to the first whose body raises, fails or exits early start, each under the deadline, and then every pending cleanup, each once and in order, without a deadline at any depth; all that start are marked as their bodies ended (an interruption without success as stopped), the others stay pending; the result is the failure of the last task started, or else, unless excused, the first complaint of a cleanup if one failed, or else a plain success; deadline and current task are as on entry |
| MultiTaskProgressModel.MultiTaskProgress.RunPending | oss_crs/src/ui.py:464-528 | the body of the call: regular tasks and then all cleanups run as the evaluator says |
| Exchange.ExchangeSidecar.SyncFiles | oss-crs-infra/exchange/main.py:69-108 | the inner loop publishes the safe regular files of a directory that are new and can be copied |
| Exchange.ExchangeSidecar.SyncCrs | oss-crs-infra/exchange/main.py:53-108 | the middle loop publishes those of all allowed types, remembers created directories and warns about other types, up to the first directory that cannot be created or listed |
| Exchange.ExchangeSidecar.SyncTree | oss-crs-infra/exchange/main.py:50-108 | the outer loop publishes the candidates of the tree in scan order, up to the first directory that cannot be created or listed |
| Exchange.ExchangeSidecar.SyncOnce | oss-crs-infra/exchange/main.py:45-108 | one pass publishes what it sees of the submit root and says whether an error ended it; without a submit root nothing happens |
| Exchange.WholeTreeSeen | oss-crs-infra/exchange/main.py:50-69 | without such an error a pass sees the whole tree |
| Exchange.PublishMeans | oss-crs-infra/exchange/main.py:77-100 | old names keep their content, new names are those of the candidates, and the first of several files of one name wins |
| Exchange.SyncNames | oss-crs-infra/exchange/main.py:50-108 | after a pass the names of a type are the old ones and all regular, safely named files of every CRS under an allowed type, except those whose copy failed |
| ExchangeContent.SyncContent | oss-crs-infra/exchange/main.py:50-100 | what is new after a pass has the content of the first file, in the order of the scan, that is offered under its name |
| ExchangeContent.BrokenPassNames | oss-crs-infra/exchange/main.py:50-108 | a pass that may break off publishes exactly the files offered up to the first directory that cannot be created or listed |
| ExchangeContent.SeenTreeMeans | oss-crs-infra/exchange/main.py:50-69 | what such a pass has seen, file by file |
| ExchangeContent.WholeTreeMeans | oss-crs-infra/exchange/main.py:50-69 | a pass ends without such an error exactly when no directory breaks it off |
| Exchange.SecondSyncIsNoOp | oss-crs-infra/exchange/main.py:77-79 | a second pass over the same tree changes nothing |
| Exchange.FailuresAreMadeUpFor | oss-crs-infra/exchange/main.py:102-133 | after a pass with failed copies, or one that broke off, the next pass without errors reaches the same names as if none had happened |
| Fetching.InfraClient.FetchNew | libCRS/libCRS/infra_client.py:24-40 | nothing without a fetch directory or type directory; else the missing data files that arrive are in place, and their names are reported in listing order if all arrive and no error is raised, and not at all otherwise |
| Fetching.InfraClient.CopyFiles | libCRS/libCRS/common.py:46-65 | the named files that arrive are in place; an error is raised unless all do |
| Fetching.NewNamesMean | libCRS/libCRS/infra_client.py:34-38 | the new names are, without repeats, exactly the visible regular files that were missing |
| Fetching.NewNamesInOrder | libCRS/libCRS/infra_client.py:34-38 | the new names are in the order of the listing |
| Fetching.FetchMeans | libCRS/libCRS/infra_client.py:34-40 | after a fetch the listed data files that arrived are there, old files are unchanged, and there is nothing else |
| Fetching.FetchedContent | libCRS/libCRS/infra_client.py:39 | each fetched file arrives with its listed content |
| Fetching.ReportedBy | libCRS/libCRS/infra_client.py:34-40 | over any series of fetches, failing ones included, a fetch reports a name exactly when it was not there from the start, this is the first fetch to carry it over, and this fetch completes |
| Fetching.ReportedOnce | libCRS/libCRS/fetch.py:36-44 | no name is reported twice, and it is reported at all exactly when it was not there from the start and the first fetch to carry it over completes |
| Fetching.WithoutFailures | libCRS/libCRS/infra_client.py:34-40 | if no fetch fails, a name is reported by the first fetch that lists it, unless it was there from the start |
| Fetching.LostReport | libCRS/libCRS/fetch.py:37-42 | a series in which a file arrives and is never reported: its fetch fails afterwards |
| ExchangeRuns.PublishedForGood | oss-crs-infra/exchange/main.py:77-99 | in every interleaving a visible exchange name of a data type, once there, never disappears or changes content, nor does any fetched file; other directories may be written to at any time |
| ExchangeRuns.OnlyWholeFiles | oss-crs-infra/exchange/main.py:84-99 | in every interleaving every visible exchange file of a data type, and every file of a consumer, is the whole content of a file submitted under that type and name, or was there before; consumers get no hidden or partial file |
| ExchangeRuns.StepKeeps | libCRS/libCRS/common.py:68-70 | each step of a submitter, the exchange process or a consumer keeps the invariant behind these results |
| ExchangeRuns.CopyIsPath | oss-crs-infra/exchange/main.py:81-99 | open, temporary file, copy and rename of one file are a path of the state machine |
| ExchangeRuns.PassIsPath | oss-crs-infra/exchange/main.py:50-108 | a whole undisturbed pass over the submit directories is a path of steps of the exchange process to the directory that the sequential pass computes |
| SubmitQueue.OnePlaceEach | libCRS/libCRS/submit.py:125-163 | in every interleaving an item ever enqueued is at exactly one position of the queue or of one thread's batch, or settled as copied, skipped or failed |
| SubmitQueue.NothingForgotten | libCRS/libCRS/submit.py:141-163 | destinations, items, outcomes and the log of writes are there for good |
| SubmitQueue.WrittenOnce | libCRS/libCRS/submit.py:152-161 | flushes write each destination at most once, even beside direct submissions; one thread at a time is between looking and writing |
| SubmitQueue.NamedAfterContent | libCRS/libCRS/submit.py:120-135 | a destination last written from a stable file is named after the hash of its own content and the suffix of that file |
| SubmitQueue.QuietMeansSettled | libCRS/libCRS/submit.py:141-163 | with queue and batches empty every item has an outcome, and unless its copy failed its destination exists |
| SubmitQueue.SettledMeansStored | libCRS/libCRS/submit.py:154-161 | with hashes of one length, the destination of a copied or skipped item, last written from a stable file, holds bytes with the hash taken at enqueueing |
| SubmitOutcomes.OutcomesAreTrue | libCRS/libCRS/submit.py:152-161 | in every interleaving the destinations written by flushes are just those of the items that count as copied, one item for each |
| SubmitHelperModel.SubmitHelper.EnqueueFile | libCRS/libCRS/submit.py:125-139 | a readable, non-empty file whose destination is not there is appended with its hash, any other is dropped; an error of looking for the destination reaches the caller |
| SubmitHelperModel.SubmitHelper.Flush | libCRS/libCRS/submit.py:141-163 | the queue is emptied into the destinations in order exactly when it is as long as the batch size, or not empty and not flushed for the batch time; else nothing changes |
| SubmitHelperModel.FlushedAtMeans | libCRS/libCRS/submit.py:144-150 | once the batch time has passed, or the batch size is reached, nothing stays queued; before that, and without files, nothing changes |
| SubmitHelperModel.TwoTicks | libCRS/libCRS/submit.py:201-204 | between one tick of the timer and the end of the next one, a batch time later, the queue is empty at some moment, whatever files are found meanwhile, so no file waits longer |
| SubmitHelperModel.SubmitHelper.SubmitFile | libCRS/libCRS/submit.py:165-171 | the file is at its hash name unless it was already; errors reach the caller |
| SubmitHelperModel.SubmitHelper.HandleNewFile | libCRS/libCRS/submit.py:185-188 | a data file is enqueued and the queue flushed if it is long or old enough; any other file is ignored; if looking for the destination fails, so does the call, and nothing changes |
| SubmitHelperModel.SubmitHelper.RegisterDir | libCRS/libCRS/submit.py:173-192 | a second registration changes nothing; else the files found are handled one after the other, up to the first whose destination cannot be looked for, which ends the call with an error |
| SubmitHelperModel.ScanCares | libCRS/libCRS/submit.py:190-192 | after the initial scan every data file before the first failing one, if it is not empty and can be copied, is stored under its hash name or queued to be; without a failing one that is every file found |
| SubmitHelperModel.ScanBounds | libCRS/libCRS/submit.py:190-192 | handling any files in order keeps the queue shorter than the batch size and every destination as it was, and queues nothing but data files that were found, with their hash |
| SubmitHelperModel.FlushMeans | libCRS/libCRS/submit.py:153-161 | after a flush old destinations are unchanged, a new one is there exactly when some item with that name can be copied, with the content of the first such item |
| SubmitHelperModel.SecondFlushIsNoOp | libCRS/libCRS/submit.py:156-157 | flushing the same batch again changes nothing |
| SubmitHelperModel.FlushIsPath | libCRS/libCRS/submit.py:152-161 | the flush loop is a path of the state machine to the same destinations |
| SubmitPaths.HandlingIsPath | libCRS/libCRS/submit.py:125-188 | handling a file, undisturbed by other threads, is a path of the state machine to the queue and the destinations that the methods compute |
| EndToEnd.FetchedIsAccountedFor | libCRS/libCRS/submit.py:152-171 | in every interleaving of all submitters, the exchange process and the consumers, a file fetched was put in place by a submitter under this name and with this content, or was there at the start; if it was copied from a stable file, its name is the hash of its content and the suffix of that file |
| EndToEnd.ExchangedIsAccountedFor | oss-crs-infra/exchange/main.py:77-99 | the same of every visible file of a data type in the exchange; and a submit directory holds what its submitter has stored |
| EndToEnd.StepKeeps | libCRS/libCRS/submit.py:152-171 | each step of the combined system keeps the invariants of all its parts, and their agreement |
| Delivery.Delivered | libCRS/libCRS/infra_client.py:24-40 | in every interleaving: once a submitter is quiet, one whole pass without errors and then one completed fetch leave each of its items whose copy did not fail with the consumer, for good |
| Delivery.DeliveredContent | libCRS/libCRS/submit.py:120-135 | if nothing was there before and files copied from are stable, the file under the name of an item has the hash taken when the item was enqueued |
| Delivery.CanDeliver | oss-crs-infra/exchange/main.py:45-133 | whenever the exchange process and a consumer are between two calls, a run can go on with such a pass and such a fetch |
| Delivery.EndedPassIsWhole | oss-crs-infra/exchange/main.py:45-108 | a call of `sync_once` that ends without an error and whose copies succeed is a whole pass |
| Delivery.FetchIsPath | libCRS/libCRS/infra_client.py:34-40 | a whole undisturbed fetch is a path of steps of the consumer to the directory that the sequential fetch computes |
| JobCache.SingleFlight | oss-crs-infra/builder-sidecar/server.py:238-265 | in every interleaving a job has at most one outstanding task, and one exactly when its status is queued or running, but for the moment between storing and submitting; its phase agrees with the status |
| JobCache.SuccessForGood | oss-crs-infra/builder-sidecar/server.py:174-198 | once a job is done with a result whose exit code is 0, its entry is never replaced, re-queued or altered, and neither is the result, also while a reply rewrites the slot in its own copy |
| JobCache.RepliesAreTruthful | oss-crs-infra/builder-sidecar/server.py:188-198 | a pending reply says queued or running; a cached reply repeats a result that some run of this job produced with exit code 0, and names the slot asked for if a slot was asked for and the result has one |
| JobCache.ReplyToTheRequest | oss-crs-infra/builder-sidecar/server.py:238-265 | a new reply is about the job of the last request, and a cached one is for its slot |
| JobCache.OnlyNeededWorkIsSubmitted | oss-crs-infra/builder-sidecar/server.py:252-264 | a task is submitted only for a job that has none outstanding |
| JobCache.RequestOutcome | oss-crs-infra/builder-sidecar/server.py:311-336 | from any reachable state, an undisturbed request that is over had this outcome: if the job was unknown or done without success (so failures can be retried), a new task, unless no slot was asked for and none can be found; otherwise the pending or cached reply, unless staging for another slot fails; in the two exceptions there is no reply; without a new task no dictionary is altered |
| JobCache.NeverStuck | oss-crs-infra/builder-sidecar/server.py:238-265 | in every reachable state a busy handler can take its next step without a failure |
| JobCache.StepKeeps | oss-crs-infra/builder-sidecar/server.py:435-464 | each step of the handler or a worker keeps the invariant and all cached successes |
| Lifecycle.WatchServices | oss-crs-infra/lifecycle/main.py:43-155 | no project, nothing to watch, ready with the recorded exits exactly when every watched service has one, or giving up with the others |
| Lifecycle.WatchSetMeans | oss-crs-infra/lifecycle/main.py:54 | the watched services are the pieces between commas, stripped, that are not empty |
| Lifecycle.CheckListing | oss-crs-infra/lifecycle/main.py:81-100 | remaining and recorded services partition the watched set; a failed listing records nothing |
| Lifecycle.FollowEvents | oss-crs-infra/lifecycle/main.py:113-146 | the event loop keeps that partition and records what the events up to a shutdown tell |
| Lifecycle.ListingRecord | oss-crs-infra/lifecycle/main.py:89-98 | a service is recorded exactly when it is watched and listed as exited or dead, with the exit code and status of its first such entry |
| Lifecycle.EventRecords | oss-crs-infra/lifecycle/main.py:123-144 | events only add records, and without a shutdown every watched service that has an event is recorded, as its first event says |
| Lifecycle.ShutdownEnds | oss-crs-infra/lifecycle/main.py:124-125 | the event at which a shutdown is seen, and all after it, count for nothing |
| Lifecycle.NoFinalExitMissed | oss-crs-infra/lifecycle/main.py:76-144 | a watched service with a container that is down in the end is recorded, however deaths and restarts fall between timestamp, listing and subscription |
| Lifecycle.RecordsAreReal | oss-crs-infra/lifecycle/main.py:91-135 | a recorded service did die, with the recorded exit code |
| Lifecycle.AllDownMeansReady | oss-crs-infra/lifecycle/main.py:102-149 | if every watched service has a container down in the end, ready is signalled |
| ChunkSearch.ContainsAny | oss_crs/src/cli/list_harnesses.py:167-179 | for every division into non-empty chunks, true exactly when something was read and some needle occurs in it |
| ChunkSearch.WindowSuffices | oss_crs/src/cli/list_harnesses.py:173-176 | the kept overlap loses no occurrence, across any number of short chunks |
| ChunkSearch.ContainsAll | oss_crs/src/cli/list_harnesses.py:182-183 | true exactly when every needle occurs |
| ChunkSearch.DiffersOnEmptyFile | oss_crs/src/cli/list_harnesses.py:167-179 | the search agrees with a whole-file test exactly when the file is not empty or no needle is |
| RunId.CleanIsClean | oss_crs/src/utils.py:108-110 | cleaning yields only lower-case letters, digits, single dashes and underscores, with neither at the ends, or nothing |
| RunId.CleanIsIdle | oss_crs/src/utils.py:108-110 | cleaning leaves a clean text alone |
| RunId.CleanMeans | oss_crs/src/utils.py:108-110 | cleaning any text: stripped and in lower case, every character but letters, digits, underscores and dashes becomes a dash, runs of dashes become one, and dashes and underscores at the ends go |
| RunId.HashedIsHashed | oss_crs/src/utils.py:114-124 | appending the hash keeps a clean text clean, and the result is recognised as already hashed |
| RunId.NormalFormMeans | oss_crs/src/utils.py:112-124 | the normal form is the cleaned text if that ends in the hash of what stands before it, and otherwise the cleaned text with its hash appended; an error exactly if nothing is left |
| RunId.Idempotent | oss_crs/src/utils.py:101-124 | normalising a normalised id changes nothing, for every accepted input and every hash of 6 hex digits |
| RunId.Collisions | oss_crs/src/utils.py:108-124 | two ids share a normal form exactly when they clean to the same text, or one text is the other with its hash appended where the other does not end in its own hash already |
| RunId.DifferentIdsCollide | oss_crs/src/utils.py:112-124 | whatever the hash, two different ids that collide |
| UniqueNames.FirstFree | libCRS/libCRS/submit.py:26-31 | the counting loop ends for every finite set of taken names, with the first free candidate |
| UniqueNames.TakenBound | oss_crs/src/cli/archive.py:121-124 | at most one more candidate than there are taken names is tried |
| UniqueNames.NumberedDistinct | libCRS/libCRS/submit.py:29 | numbered candidates are pairwise distinct |
| UniqueNames.NumberedMeans | oss_crs/src/cli/archive.py:120-124 | the names tried are the name asked for, and then, in its directory, its file name with numbers before the suffix |
| UniqueNames.UniqueTarballPath | libCRS/libCRS/submit.py:20-31 | the path returned does not exist; it is the plain one if free, else the first free numbered one |
| UniqueNames.ArchiveNames | oss_crs/src/cli/archive.py:115-126 | one name per collected file, pairwise distinct; an unused name is kept, else the first numbered name not used before is taken |
| UniqueNames.FirstFreeUnique | oss_crs/src/cli/archive.py:121-124 | only one name is the first free one |

## Left out

- Floating point: `base` stands for the truncated proportional estimates, and sizes such as "1.5G" are exact decimals.
- Digits are ASCII; the limit on the number of digits `int` converts is not modelled; nor are the texts of error messages.
- CpuScaling.ScaleCpusets: takes the estimates as given; a template that is empty or sums to zero is the division by zero of the code.
- CpuMapping.MapCpuset: reports an unmapped CPU without saying which, as the order of a Python set is not fixed.
- MultiTaskProgressModel.MultiTaskProgress.RunBody: task functions are scripts that add tasks, call `run_added_tasks`, branch on its success, return or raise; no task adds two children of one name. Tasks are identified by paths of names, which is what the code's textual identifiers amount to as long as no two tasks of a run share one; `ProgressBoard.SameTaskId` says exactly when they would.
- MultiTaskProgressModel.MultiTaskProgress.constructor: top-level tasks have different names.
- TaskTreeLaws.RunOutcome: requires different names, which `ProgressOutcomes.ReadyDistinct` shows to hold of the class's tables; the same goes for the laws it builds on.
- MultiTaskProgressModel.MultiTaskProgress.RunAddedTasks: error details, notes, display and `_cleanup_complete` are not modelled, nor is KeyboardInterrupt.
- Exchange.ExchangeSidecar.SyncOnce: an error in the middle of listing one directory is treated as one at its start; file modes and logging are not modelled.
- SubmitHelperModel.SubmitHelper.Flush: looking for the destination of a queued file is taken not to raise an error, as it raised none when the file was queued.
- Fetching.InfraClient.FetchNew: rsync puts whole files in place; that its partial files are hidden while it runs is part of `ExchangeRuns`.
- ExchangeRuns.OnlyWholeFiles: one exchange process; submitters place visible files by rename, and only hidden files may be seen while they change.
- SubmitQueue.NamedAfterContent: hashing and opening a file each see one content of it; for files that change in between nothing is claimed.
- SubmitQueue.QuietMeansSettled: that the queue becomes empty is claimed while the timer ticks (`SubmitHelperModel.TwoTicks`), not for the end of the program, as the last flush is still subject to the batch size and the batch time; files created between the initial scan and the start of the observer are not seen by the code.
- JobCache.SingleFlight: uploads, validation and the computation of job ids happen before the modelled steps; that different requests get different ids is not claimed, nor that automatically chosen rebuild ids differ; an executor that refuses a task is not modelled.
- Delivery.Delivered: hashes are taken to be hexadecimal and suffixes to have no slash; that passes and fetches happen at all is not claimed, only that they can (`Delivery.CanDeliver`). Submitted files are not withdrawn.
- EndToEnd.FetchedIsAccountedFor: files that submitters keep hidden are not followed; hashes are taken to be non-empty and not to start with a dot.
- JobCache.RepliesAreTruthful: staging a cached rebuild tree is a step that may fail; what it copies is not modelled.
- Lifecycle.NoFinalExitMissed: containers are taken not to be removed, and to be listed as running or exited and in no other state; the container clock and the recorded timestamp are assumed to agree, the listing and the stream not to fail, and no shutdown to arrive.
- RunId.Idempotent: `str.lower` and the hash are parameters: lower-casing leaves a clean text alone, the hash has 6 hex digits.
- ChunkSearch.ContainsAny: a file whose reading fails is represented by the chunks read before the error.
- UniqueNames.ArchiveNames: collecting the files and writing the archive.
- Docker, git, HTTP, the web interface, the LiteLLM proxy, configuration validation, templates, cgroups and the command line.
- Environment policy and LLM override rules, artifact mount tables and the like: their properties read off one branch each.

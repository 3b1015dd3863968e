# Verified models of the ns-3 tooling

A Dafny project about the self-contained algorithms of this ns-3 tree: the worker pool of `test.py`, the
load order of the Python bindings, the walk over the TypeId graph in the documentation generator, the
line rewriter of the style checker, the scheduler benchmark, the timeline viewer, and three example
programs with a protocol or an arithmetic law of their own. Each part is modelled as the code does it,
and what it is for is proved for all inputs, all schedules or all histories. Check everything with
`dafny verify dfyconfig.toml`.

- `WorkerPool`, `Verdict`: main thread, workers and queues of `test.py` as a step relation, with SIGINT
  at any point; then the collect loop that turns the reports into counters, `failed_jobs` and the exit
  code. Every interleaving conserves the jobs, ends, and reaches the same verdict.
- `DependencyOrder`: the layered topological sort in `bindings/python/ns__init__.py`. Step k holds the
  libraries of dependency depth k; the sort ends exactly for closed acyclic dependencies.
- `Walks`, `StaticInformation`, `Selections`, `RegistryEdges`, `Duplicates`, `TypeNames`: the backtracking `DoGather` lists every simple
  walk from the root once, in depth-first order, although it works on one shared path and one shared
  stack; and when two of these walks read the same.
- `PyText`, `StyleCheck`, `StyleChain`: the guard machine and the line checkers of the style checker. A
  second fixing pass changes nothing, although expanding a tab can create a new guard line and licence
  lines vanish; and no check undoes what an earlier one has fixed.
- `Bench`, `HeapScheduler`, `Welford`: the constant-population event loop, a scheduler that serves it the
  earliest event, and the one-pass mean and second moment.
- `StableSort`, `GridSeries`, `GridTimelines`, `Grid`, `GridPoints`: series, binary searches and window
  queries of the timeline viewer, grouping of the records, and the nested bounds. `GridTimelines` says what
  the lists hold; `Grid` has the objects that own each other; `GridPoints` goes from the records to the bounds.
- `LargeTransfer`: the sender that writes an endless pattern through partial and refused sends.
- `Counters`, `Fairness`, `Windows`: Jain's index in wrapping uint64 arithmetic, and the counters that
  are reported and cleared window by window.

Methods follow the loops and fields of the source and are proved against functions; lemmas say what those
functions mean.

Some results are about where the code stops short of what one may expect of it, with the exact condition
and an input that shows it:

- `dependency_order` does not stop on a missing or cyclic dependency (`DependencyOrder.MissingLibraryBlocks`,
  `CycleBlocks`). It goes on with the same lists until the interpreter's recursion limit. It ends within n
  calls exactly when every dependency is a key and no dependency chain has n links (`EmptiesWithin`).
- With jobs to run and no worker (a negative `--jobs` value), main waits for ever
  (`WorkerPool.NoWorkerDeadlocks`, `StopsComplete`).
- `Uniquefy` takes its container by value, so that `Gather` keeps every entry that the walk records twice.
  `GetTypicalAggregations` records the pair of `ns3::Node` and `ns3::Icmpv4L4Protocol` twice
  (`utils/print-introspected-doxygen.cc:555-557`), which doubles the path (`TypeNames.PathTwice`), as it does
  for any root and in any registry (`PairTwiceDoubles`). The entries are distinct exactly when no two simple walks have the same end and path string
  (`Duplicates.DistinctIffNoTwins`), and for well-formed names exactly when no simple walk can take one of two
  edges with the same label to the same type (`TypeNames.PathsOnceIff`).
- A window query for ranges is complete exactly when an end of the window lies in a range or no range meets
  the window (`GridSeries.WindowIsCovered`, `MiddleRangeGetsLost`), and free of other ranges exactly when an
  end that lies in a gap lies outside all ranges (`WindowIsExact`, `FirstRangeIsSuperfluous`).
- A window query for events loses simultaneous events at its ends (`GridSeries.SimultaneousEventsGetLost`). It is
  right exactly when the searches hit the first event at the start and the last at the end (`EventWindowIff`),
  as they do when there is at most one of each (`EventWindow`). For a window of one instant it is right exactly
  when there is at most one event at it (`PointWindowIff`).
- The bounds of a series of ranges are read off its first and last element. They cover the series exactly when
  no range ends after the last one (`GridSeries.RangesBoundsIff`, `ProperRangesBoundsIff`, `LongRangeGetsCut`).
- Sorting a series of ranges prepares it for the binary search exactly when no two of them overlap
  (`GridTimelines.SortedIsDisjoint`, `OverlapStays`). `list.sort` with a comparison as its argument, which is
  how the source sorts, is Python 2 style; it is taken to be the stable sort by that comparison.
- The fairness sums are exact exactly when n times the sum of squares is below 2^64
  (`Fairness.NothingWrapsIff`, `OneCounterCanWrap`).
- The windowed counters are reported as bits, a product that wraps: the reports and the live counter add up
  exactly when every reported window is below 2^61 bytes and the live one below 2^64
  (`Windows.WindowsAddUp`, `ReportCanVanish`).

- Collecting a suite that returned 0, 1 or 2 without writing its XML file ends main, since the file is opened
  outside the `try`, although the comment there names the case (`Verdict.CollectResults`, `CollectFinishes`).
- `HeapScheduler::Remove` repairs the heap downwards only. It keeps the heap order exactly when the last entry
  fits under the parent of the removed one (`HeapScheduler.RemoveKeepsOrderIff`); otherwise events can come out
  of order (`RemoveCanDisorder`).

## Model

| member | source | states |
|---|---|---|
| WorkerPool.RunInv | test.py:1079-1163 | every state of every interleaving keeps the protocol invariant: one place per dispatched job, break jobs accounted for, jobs ahead of break jobs in the queue |
| WorkerPool.JobsAreConserved | test.py:1637-1677 | in every reachable state a dispatched job is in exactly one of input queue, a worker, output queue, collected; an undispatched job is nowhere |
| WorkerPool.BreakComesLast | test.py:1929-1932 | once a worker has taken a break job, all jobs are dispatched and none is left in the input queue |
| WorkerPool.StopsComplete | test.py:1952-1953 | no deadlock: a run that cannot go on has main finished, all jobs collected and all workers joined, exactly when there is a worker or no job |
| WorkerPool.NoWorkerDeadlocks | test.py:1952-1953 | without a worker one job is enough for a reachable state in which main waits for ever |
| WorkerPool.DoneMeansComplete | test.py:2111-2112 | when main has joined the threads, queues are empty, workers gone, each job collected once, and nothing bounced without SIGINT |
| WorkerPool.ReportsTell | test.py:1101-1163 | a posted report that is not bounced means that the job was run before, exactly if it is not to be skipped; a bounced one that it is run at no time of the run |
| WorkerPool.SkippedNeverRuns | test.py:1110-1118 | no run of the pool runs a job that is to be skipped |
| WorkerPool.LookedAt | test.py:1101-1118 | a worker that looks at a job runs it exactly when no SIGINT has come and it is not to be skipped, bounces it exactly after a SIGINT, and otherwise passes it on as skipped |
| WorkerPool.ExitIffSigint | test.py:631-636 | `thread_exit` is set exactly after the first SIGINT |
| WorkerPool.QueuesAreFifo | test.py:1079-1163 | jobs and reports join their queue at the back and leave it at the front, and reports are collected in the order of posting |
| WorkerPool.SigintAtAnyTime | test.py:631-636 | SIGINT can come in every reachable state |
| WorkerPool.StepsPersist | test.py:1079-1163 | one thread cannot disable another, except by taking the last entry of the input queue |
| WorkerPool.RunsTerminate | test.py:1079-1163 | every run has at most 15 * workers + 10 * jobs + 26 steps, whatever the schedule |
| Verdict.CollectResults | test.py:1944-1988 | the loop finishes exactly when it meets no suite whose file is missing; then `passed`, `failed`, `valgrind` and `crashed` are the numbers of collected jobs that ran and returned 0, 1, 2 or anything else, `skipped` that of the skipped ones, a bounced report counts nowhere, and the exit code is 0 exactly when every report is of a skipped job or of one that ran and returned 0 |
| Verdict.Collect | test.py:1944-1988 | the loop by itself: when it finishes, the counters are the numbers of reports with each status and `failed_jobs` is the list that `FailedJobsOf`, `FailedJobsInOrder` and `FailedJobsMeaning` describe |
| Verdict.CountsByCode | test.py:1969-1988 | each counter is the size of the set of jobs with that return code that were run, or of the skipped ones |
| Verdict.CollectRun | test.py:1944-1988 | for a complete uninterrupted run, from the jobs alone: the loop finishes exactly when no job that ran loses its file, each counter is the number of jobs with that return code, and the exit code is 0 exactly when every job is skipped or returned 0; and no exit code 0 with a bounced job, SIGINT or not |
| Verdict.CountersByCode | test.py:1969-1988 | the counters of such a run are the sizes of the sets of jobs by return code and of the skipped jobs |
| Verdict.GoodReports | test.py:2221-2224 | in such a run all reports are good exactly when every job is skipped or returned 0 |
| Verdict.CountsAddUp | test.py:1969-1988 | the five counters and the interrupted jobs add up to the number of reports |
| Verdict.AllGood | test.py:2221-2224 | passed + skipped reaches the total exactly when every status is PASS or SKIP |
| Verdict.CountersIgnoreSchedule | test.py:1952-1988 | in a complete uninterrupted run, for any schedule and number of workers, each counter is the number of jobs that deserve the status |
| Verdict.CompleteRunVerdict | test.py:2221-2224 | in every complete run each job is reported once, the six statuses add up to the jobs, and success means that nothing failed, crashed, had a valgrind error or was interrupted |
| Verdict.FailedJobsOf | test.py:1968-1973 | each `pop` removes the entry just pushed: a job's number of entries depends on that job alone |
| Verdict.FailedJobsInOrder | test.py:1968-1973 | the list is in the order of collection |
| Verdict.FailedJobsMeaning | test.py:2079-2098 | a non-zero job is in `failed_jobs` once or twice, once exactly when it is no suite or an XML result PASS or SKIP takes it out again; a zero one once exactly when it is a suite without PASS or SKIP in its XML; a skipped or interrupted one never |
| Verdict.CollectFinishes | test.py:2080-2083 | in a complete uninterrupted run the loop finishes exactly when no suite that ran and returned 0, 1 or 2 has lost its file |
| DependencyOrder.RoundState | bindings/python/ns__init__.py:452-457 | at step k the pending libraries are exactly those blocked for k rounds, and both lists are free of duplicates |
| DependencyOrder.BlockedIsChain | bindings/python/ns__init__.py:436-439 | blocked for k rounds is the same as having a dependency chain of k links |
| DependencyOrder.LayerIsDepth | bindings/python/ns__init__.py:445-460 | step k holds exactly the libraries whose longest dependency chain has k links |
| DependencyOrder.LayerInKeyOrder | bindings/python/ns__init__.py:432-443 | within a step the libraries stand in the order of the keys |
| DependencyOrder.EmptiesIffLoadable | bindings/python/ns__init__.py:448-449 | the pending list empties, then within as many rounds as there are libraries, exactly for closed acyclic dependencies |
| DependencyOrder.EmptiesWithin | bindings/python/ns__init__.py:448-449 | n rounds are enough exactly when every dependency is a key and no dependency chain has n links |
| DependencyOrder.MissingLibraryBlocks | bindings/python/ns__init__.py:436-439 | one dependency that is no key keeps the list from ever emptying |
| DependencyOrder.CycleBlocks | bindings/python/ns__init__.py:436-439 | so do two libraries that need each other |
| DependencyOrder.StuckForever | bindings/python/ns__init__.py:458-460 | after a round that loads nothing the lists never change again |
| DependencyOrder.StableAtTheEnd | bindings/python/ns__init__.py:458-460 | after as many rounds as libraries the pending list is final |
| DependencyOrder.LoadedInOrder | bindings/python/ns__init__.py:452-457 | at every step the loaded libraries come after all their dependencies |
| DependencyOrder.LoadedIsLoadOrder | bindings/python/ns__init__.py:462-467 | when the list has emptied, the loaded libraries are a permutation of the keys with dependencies first |
| DependencyOrder.Loader.ModulesThatCanBeLoaded | bindings/python/ns__init__.py:432-443 | returns the ready libraries in the order of the pending list |
| DependencyOrder.Loader.RemovePending | bindings/python/ns__init__.py:456 | `list.remove`: takes out the first occurrence |
| DependencyOrder.Loader.Load | bindings/python/ns__init__.py:452-457 | moves the ready libraries from pending to loaded and records them as the step |
| DependencyOrder.Loader.Round | bindings/python/ns__init__.py:450-457 | one call takes the lists and the dict from the state of step k to that of step k + 1 |
| DependencyOrder.Loader.Order | bindings/python/ns__init__.py:445-460 | with a limited number of recursive calls it succeeds exactly when the list empties within them |
| DependencyOrder.Loader.Flatten | bindings/python/ns__init__.py:462-467 | the values of the dict in order are the loaded libraries |
| DependencyOrder.SortToDependencies | bindings/python/ns__init__.py:421-467 | gives a result exactly when every dependency is a key and no dependency chain is as long as the recursion limit; the result is then a load order, and dependencies are acyclic |
| Walks.WalksAreSimple | utils/print-introspected-doxygen.cc:437-521 | the enumeration lists exactly the walks from the root without a repeated type, each once, in depth-first order |
| Walks.GatheredWalks | utils/print-introspected-doxygen.cc:437-521 | the entries appended are, in order, end and path string of those walks |
| Walks.InOrderIsDistinct | utils/print-introspected-doxygen.cc:441-444 | no walk is listed twice |
| RegistryEdges.EdgesInOrder | utils/print-introspected-doxygen.cc:446-520 | the steps from a type are, in this order and each once: the attributes that point to a type other than Object or hold a container, in their order; the types whose parent it is, in the order of registration; the pairs that it belongs to, in their order |
| RegistryEdges.EdgesIff | utils/print-introspected-doxygen.cc:446-520 | a step from a type is exactly a followed attribute with its label, a registered child with its name after `$`, or the other type of a pair with its name after `$` |
| RegistryEdges.StepIsRecorded | utils/print-introspected-doxygen.cc:437-521 | every type one such step away from the root is recorded under the label of the step |
| RegistryEdges.RecordedBeginsWithStep | utils/print-introspected-doxygen.cc:437-521 | whatever is recorded under a path is reached by such a step and a walk from there |
| RegistryEdges.PathsSelected | utils/print-introspected-doxygen.cc:383-396 | the paths that `Get` returns are those of exactly the entries for the type, in the order of recording |
| Duplicates.DistinctIffNoTwins | utils/print-introspected-doxygen.cc:429-435 | the entries are pairwise distinct exactly when no two different simple walks have the same end and path string |
| Duplicates.SameString | utils/print-introspected-doxygen.cc:350-360 | when labels tell targets and do not continue each other after a slash, equal path strings mean equal labels and stops |
| Duplicates.DistinctIffNoParallel | utils/print-introspected-doxygen.cc:429-435 | with such labels the entries are distinct exactly when no simple walk can take one of two parallel edges |
| Duplicates.ParallelDoubles | utils/print-introspected-doxygen.cc:429-435 | whatever the labels, a choice between parallel edges on a simple walk doubles an entry |
| Duplicates.ParallelAtRootDoubles | utils/print-introspected-doxygen.cc:429-435 | so do two parallel edges from the root to another type |
| TypeNames.RegistryIsWellTagged | utils/print-introspected-doxygen.cc:446-520 | well-formed names of types and attributes give such labels |
| TypeNames.PathsOnceIff | utils/print-introspected-doxygen.cc:429-435 | so for well-formed names every path is recorded once exactly without parallel edges on a simple walk |
| TypeNames.PairTwiceDoubles | utils/print-introspected-doxygen.cc:500-520 | in every registry two aggregation pairs of the root with the same other type, in either order, make the walk record a path twice |
| TypeNames.PathTwice | utils/print-introspected-doxygen.cc:555-557 | the pair that `GetTypicalAggregations` records twice makes the walk record its path twice |
| StaticInformation.StaticInformation.GetCurrentPath | utils/print-introspected-doxygen.cc:350-360 | each label on the path after a slash |
| StaticInformation.StaticInformation.RecordOutput | utils/print-introspected-doxygen.cc:362-367 | appends the type with the current path |
| StaticInformation.StaticInformation.HasAlreadyBeenProcessed | utils/print-introspected-doxygen.cc:369-381 | true exactly for the types on the stack |
| StaticInformation.StaticInformation.Visit | utils/print-introspected-doxygen.cc:466-470 | push, recurse, pop: both stacks are as before, and the walks along this edge have been appended |
| StaticInformation.StaticInformation.GatherAttribute | utils/print-introspected-doxygen.cc:448-485 | follows pointers except to Object, and containers under `/[i]` |
| StaticInformation.StaticInformation.GatherAttributes | utils/print-introspected-doxygen.cc:446-486 | appends the walks through all attributes |
| StaticInformation.StaticInformation.GatherChild | utils/print-introspected-doxygen.cc:489-498 | follows the registered type if it is a child |
| StaticInformation.StaticInformation.GatherChildren | utils/print-introspected-doxygen.cc:487-499 | appends the walks through all children |
| StaticInformation.StaticInformation.GatherAggregate | utils/print-introspected-doxygen.cc:502-519 | follows the other type of an aggregation pair |
| StaticInformation.StaticInformation.GatherAggregates | utils/print-introspected-doxygen.cc:500-520 | appends the walks through all aggregation pairs |
| StaticInformation.StaticInformation.DoGather | utils/print-introspected-doxygen.cc:437-521 | terminates; at every call both stacks have equal length and label the same path; both are restored and the output grows by exactly the specified entries |
| StaticInformation.StaticInformation.Gather | utils/print-introspected-doxygen.cc:429-435 | from empty stacks the output grows by one entry per simple walk, in depth-first order, and nothing else; duplicates stay |
| StaticInformation.StaticInformation.Get | utils/print-introspected-doxygen.cc:383-396 | the paths recorded for one type, in order |
| PyText.ExpandRemovesTabs | utils/check-style-clang-format.py:684 | `expandtabs` leaves no tab, deletes no line and makes no new line end |
| PyText.ExpandedCharacter | utils/check-style-clang-format.py:684 | each character is expanded by itself: a tab to the blanks up to the next multiple of 4 columns, any other to itself |
| PyText.AsciiSpaces | utils/check-style-clang-format.py:643-657 | which ASCII characters are whitespace |
| PyText.StripAround | utils/check-style-clang-format.py:733-734 | stripping around a solid text strips the two sides separately |
| PyText.LinesOfConcat | utils/check-style-clang-format.py:536-537 | reading back what was written gives the same lines |
| PyText.ReplaceOne | utils/check-style-clang-format.py:744 | `replace` of a text that starts with a character found nowhere else on the line replaces just that text |
| StyleCheck.FixedWhitespace | utils/check-style-clang-format.py:643-657 | a fixed line is a line, is compliant, changes exactly when it was not compliant, and a guard stays the same guard |
| StyleCheck.FixedTabs | utils/check-style-clang-format.py:676-692 | the same for tabs |
| StyleCheck.FixedLicenses | utils/check-style-clang-format.py:728-746 | the same for licence lines, which may vanish; the SPDX line is no licence text |
| StyleCheck.ExpansionCanMakeGuard | utils/check-style-clang-format.py:684 | a line that is no guard whose fixed form is one |
| StyleCheck.BadIff | utils/check-style-clang-format.py:643-746 | a line is not compliant exactly when it does not end with one newline after a character that is no whitespace or after nothing, has a tab, or without its comment markers is a line of the licence text |
| StyleCheck.OnlyTrailingGoes | utils/check-style-clang-format.py:643-657 | the whitespace fix takes off all trailing whitespace and nothing else, and puts one newline in its place |
| StyleCheck.MarkersGo | utils/check-style-clang-format.py:733-734 | blanks, comment markers and blanks around a text are taken off for the comparison |
| StyleCheck.LicenseGoes | utils/check-style-clang-format.py:728-746 | a licence line keeps what stood around the text if that is the first line of the licence, with the SPDX text in its place, and vanishes otherwise |
| StyleCheck.CheckedIff | utils/check-style-clang-format.py:539-557 | a line is looked at exactly when guards are not respected, or it is a guard itself, or the last guard before it is an "on", or there is none |
| StyleCheck.ReportedIff | utils/check-style-clang-format.py:559-562 | a line is reported exactly when it is looked at and bad |
| StyleCheck.ViolationsInOrder | utils/check-style-clang-format.py:559-562 | the reported lines are in order, each once |
| StyleCheck.RewrittenLine | utils/check-style-clang-format.py:559-562 | exactly those lines are replaced, by their fixed form, and the others stay |
| StyleCheck.FixedMeans | utils/check-style-clang-format.py:568-573 | a file is compliant exactly when no line that is looked at is bad, and the fixed file consists of the lines of the old with exactly those replaced |
| StyleCheck.TurnIsWell | utils/check-style-clang-format.py:540-562 | the step of the guard machine on a line and on its fixed form: the second finds nothing and enables at most what the first enabled |
| StyleCheck.SecondPassIsClean | utils/check-style-clang-format.py:539-566 | for every file and guard layout a pass over the rewritten lines reports nothing |
| StyleCheck.CleanIsUnchanged | utils/check-style-clang-format.py:559-562 | a pass reports nothing exactly when it rewrites nothing |
| StyleCheck.FixIsIdempotent | utils/check-style-clang-format.py:568-573 | fixing the fixed file reports compliance and changes nothing, for the three checks, with and without guards |
| StyleCheck.CompliantIffFixed | utils/check-style-clang-format.py:568-573 | a file is compliant exactly when fixing would not change it |
| StyleChain.TabsKeepEnds | utils/check-style-clang-format.py:684 | expanding tabs brings back no trailing whitespace |
| StyleChain.LicenseKeepsEnds | utils/check-style-clang-format.py:743-746 | neither does replacing the licence text, which brings in no tab either |
| StyleChain.LicenseKeepsGuard | utils/check-style-clang-format.py:743-746 | licence fixes leave the guards as they are |
| StyleChain.CleanKeptByPass | utils/check-style-clang-format.py:539-566 | a pass that keeps regions and single lines clean for another check keeps the whole file clean for it |
| StyleChain.ChainIsClean | utils/check-style-clang-format.py:366-378 | after whitespace, tabs and licence fixes, in the order of the script, all three checks find the file compliant and leave it as it is |
| StyleChain.ChainIsIdempotent | utils/check-style-clang-format.py:366-378 | a second run of the three changes nothing |
| StyleCheck.CheckGuards | utils/check-style-clang-format.py:540-552 | the guard part of the loop body: new flag and whether the line is skipped |
| StyleCheck.CheckOne | utils/check-style-clang-format.py:540-559 | one turn of the loop up to the verdict on the line |
| StyleCheck.Pass | utils/check-style-clang-format.py:539-566 | rewritten lines, verdict and reported lines; without fix and verbose it stops at the first violation |
| StyleCheck.CheckManuallyFile | utils/check-style-clang-format.py:512-573 | compliant exactly when no line that is looked at is bad, new content with exactly the fixed forms of those lines, and the reported line numbers, for every combination of fix and verbose |
| Bench.FiresBetween | utils/bench-scheduler.cc:152-165 | one event keeps population and count in step and does not go back in time |
| Bench.RunShape | utils/bench-scheduler.cc:122-150 | a run has exactly total + 1 callbacks; between them the population is constant and time never decreases |
| Bench.NextIsEarliest | src/core/model/default-simulator-impl.cc:119-137 | every callback of a run fires at an earliest pending time |
| Bench.EventsAreConserved | utils/bench-scheduler.cc:122-165 | at every moment of a run the pending events and those that have fired are the first ones at their random delays and one for each callback at its time plus its own random delay |
| Bench.EmptyRunShape | utils/bench-scheduler.cc:133-143 | without a population the simulator returns at once |
| Bench.HasEarliest | src/core/model/default-simulator-impl.cc:119-137 | there is always an earliest event to take |
| HeapScheduler.RootIsLeast | src/core/model/heap-scheduler.cc:198-203 | in heap order no entry is less than the root |
| HeapScheduler.LeastEntry | src/core/model/heap-scheduler.cc:198-203 | the next event is not after any other: its time is less, or the same with a uid that is not greater |
| HeapScheduler.ServedInOrder | src/core/model/heap-scheduler.cc:205-214 | taking the next event again and again serves every event once, by time and, at one time, by uid |
| HeapScheduler.UpRepairs | src/core/model/heap-scheduler.cc:143-153 | `BottomUp` restores the order when only its entry is out of place, and keeps the entries |
| HeapScheduler.DownRepairs | src/core/model/heap-scheduler.cc:155-188 | `TopDown` restores the order when only its entry is out of place |
| HeapScheduler.InsertKeepsOrder | src/core/model/heap-scheduler.cc:190-196 | an insertion keeps the order and adds one entry |
| HeapScheduler.RemoveKeepsOrderIff | src/core/model/heap-scheduler.cc:216-233 | removing an entry takes out just that one, and keeps the order exactly when it is the last or the root or the last entry is not less than its parent |
| HeapScheduler.RemoveCanDisorder | src/core/model/heap-scheduler.cc:216-233 | seven events of which one is removed and a later one is then served before an earlier one |
| HeapScheduler.HeapScheduler.IsEmpty | src/core/model/heap-scheduler.cc:136-141 | true exactly without entries |
| HeapScheduler.HeapScheduler.Exch | src/core/model/heap-scheduler.cc:111-120 | swaps two entries |
| HeapScheduler.HeapScheduler.BottomUp | src/core/model/heap-scheduler.cc:143-153 | the loop does what the recursive repair does |
| HeapScheduler.HeapScheduler.TopDown | src/core/model/heap-scheduler.cc:155-188 | so does this one, with its last half step after the loop |
| HeapScheduler.HeapScheduler.Insert | src/core/model/heap-scheduler.cc:190-196 | keeps the order and adds the event |
| HeapScheduler.HeapScheduler.PeekNext | src/core/model/heap-scheduler.cc:198-203 | returns an entry that is not after any other, by time and then uid |
| HeapScheduler.HeapScheduler.RemoveNext | src/core/model/heap-scheduler.cc:205-214 | returns and removes such an entry and keeps the order |
| HeapScheduler.HeapScheduler.Remove | src/core/model/heap-scheduler.cc:216-233 | removes the first entry with the uid, and keeps the order exactly under that condition |
| Bench.Bench.Cb | utils/bench-scheduler.cc:152-165 | stops at the total, otherwise schedules one successor and counts |
| Bench.Bench.ProcessOneEvent | src/core/model/default-simulator-impl.cc:119-137 | removes an earliest event, sets the clock and calls the callback |
| Bench.Bench.Schedule | src/core/model/default-simulator-impl.cc:212-230 | adds one event at the current time plus the delay |
| Bench.Bench.RunSimulator | src/core/model/default-simulator-impl.cc:176-192 | terminates with an empty scheduler or after a stop, each step firing one earliest event |
| Bench.Bench.Fill | utils/bench-scheduler.cc:133-137 | schedules one event per member of the population |
| Bench.Bench.Run | utils/bench-scheduler.cc:122-150 | the execution is a run, and the returned number of events is the total |
| Welford.DeviationsExpanded | utils/bench-scheduler.cc:331-333 | squared deviations from any centre in terms of sum and sum of squares |
| Welford.DeviationsNotNegative | utils/bench-scheduler.cc:351 | the second moment is never negative |
| Welford.AccumulateRight | utils/bench-scheduler.cc:347-351 | one accumulation carries mean and second moment from n to n + 1 samples, whatever the seed of the mean |
| Welford.Accumulate | utils/bench-scheduler.cc:347-351 | the macro does that for one field |
| Welford.AccumulateAll | utils/bench-scheduler.cc:353-358 | and its six uses for all fields |
| Welford.Log | utils/bench-scheduler.cc:320-361 | with two results or more the loop ends with the arithmetic mean and the sum of squared deviations from it, for each field |
| StableSort.SortSorts | utils/grid.py:183-188 | sorted, a permutation, and equal keys in their old order |
| GridSeries.FindRangeIsExact | utils/grid.py:113-130 | in disjoint ranges the search finds the one containing range, or -1 exactly when there is none |
| GridSeries.WindowIsCovered | utils/grid.py:147-163 | the result has every range that meets the window exactly when an end lies in a range or no range meets it |
| GridSeries.WindowIsExact | utils/grid.py:147-163 | the result has no other range exactly when an end in a gap lies outside all ranges |
| GridSeries.SliceIsBlock | utils/grid.py:156-163 | a slice is the block of exactly the positions between its bounds that the list has |
| GridSeries.ReturnedIff | utils/grid.py:147-163 | in disjoint ranges the returned ones are exactly those from the range around the start, or the first of all, to the range around the end, or the last of all; none when both ends lie in gaps |
| GridSeries.RangesAnswer | utils/grid.py:147-163 | the list that is returned is the block of exactly those ranges, in order |
| GridSeries.MiddleRangeGetsLost | utils/grid.py:156-157 | a range inside a window whose ends lie in gaps is not returned |
| GridSeries.FirstRangeIsSuperfluous | utils/grid.py:158-159 | with the start in a gap the answer begins with the first range of all |
| GridSeries.EventSearchFinds | utils/grid.py:217-234 | in sorted events, simultaneous ones included, the search ends at an event at the key or where the earlier events end and the later ones begin |
| GridSeries.EventWindowIff | utils/grid.py:244-264 | for sorted events the query returns the events of the window, and one more, the first after it, exactly when there is one and no event sits at the end: if and only if the searches hit the outermost of simultaneous events |
| GridSeries.EventWindow | utils/grid.py:244-264 | in particular when at most one event sits at either end of the window |
| GridSeries.EventsAnswer | utils/grid.py:244-253 | the list that is returned is the block of exactly the events at the returned positions, and under the condition of `EventWindowIff` of the events of the window and the one after it |
| GridSeries.EventSlice | utils/grid.py:251-253 | the slice that `get_events` takes, with what `EventsAnswer` says of it |
| GridSeries.PointWindowIff | utils/grid.py:244-264 | for a window of one instant the query is right exactly when there is at most one event at it |
| GridSeries.SimultaneousEventsGetLost | utils/grid.py:244-253 | of three events at one time only the middle one is returned |
| GridSeries.SecondEventGetsLost | utils/grid.py:217-234 | of two events at one time the search finds the first, and the second is not returned |
| GridSeries.RangesBoundsIff | utils/grid.py:190-200 | for ranges sorted by start the two ends of the list bound every range exactly when the last range is proper and none ends after it or before the first starts |
| GridSeries.ProperRangesBoundsIff | utils/grid.py:190-200 | for proper ranges: exactly when none ends after the last |
| GridSeries.DisjointEndsLast | utils/grid.py:190-200 | as is the case for disjoint ranges |
| GridSeries.LongRangeGetsCut | utils/grid.py:190-200 | a range that contains the last one ends outside the bounds |
| GridSeries.RangesBoundsCover | utils/grid.py:190-200 | under that condition the two ends of the list bound every range |
| GridSeries.EventsBoundsCover | utils/grid.py:273-283 | the two ends of the list bound every event |
| GridSeries.TimelineDataRange.Search | utils/grid.py:113-130 | the loop finds what the recursive search finds |
| GridSeries.TimelineDataRange.GetRanges | utils/grid.py:147-163 | the block of exactly the ranges that the searches bound, in order; in disjoint ranges those that `ReturnedIff` names |
| GridSeries.TimelineDataRange.GetRangesBounds | utils/grid.py:165-181 | those bounds |
| GridSeries.TimelineDataRange.SortRanges | utils/grid.py:183-188 | sorts stably by start |
| GridSeries.TimelineDataRange.AddRange | utils/grid.py:132-138 | appends |
| GridSeries.TimelineDataRange.GetBounds | utils/grid.py:190-200 | start of the first and end of the last range, (0, 0) for none; `RangesBoundsCover` says when that bounds all |
| GridSeries.TimelineEvent.Search | utils/grid.py:217-234 | the loop finds what the recursive search finds |
| GridSeries.TimelineEvent.GetEvents | utils/grid.py:244-253 | the block of exactly the events from the position of the start to that of the end, in order; under the condition of `EventWindowIff` those of the window and the one after it |
| GridSeries.TimelineEvent.SortEvents | utils/grid.py:266-271 | sorts stably by time, into the order that `EventWindowIff` asks for |
| GridSeries.TimelineEvent.AddEvent | utils/grid.py:236-242 | appends |
| GridSeries.TimelineEvent.GetEventsBounds | utils/grid.py:255-264 | the ends of the slice that `get_events` returns |
| GridSeries.TimelineEvent.GetBounds | utils/grid.py:273-283 | times of the first and the last event, (0, 0) for none; `EventsBoundsCover` says when that bounds all |
| GridTimelines.AddedDistinct | utils/grid.py:306-317 | get-or-create keeps the names of the series distinct |
| GridTimelines.AddedLookup | utils/grid.py:306-343 | it adds to the series of that name and leaves the others alone |
| GridTimelines.AddLineFind | utils/grid.py:416-427 | the same one level up, for timelines |
| GridTimelines.GroupedWellNamed | utils/grid.py:1747-1779 | for every record sequence all names stay pairwise distinct |
| GridTimelines.GroupedLookup | utils/grid.py:1747-1779 | looking up a timeline and a series gives exactly the records with that key, in input order |
| GridTimelines.TimelinesInOrder | utils/grid.py:416-427 | timelines are listed in the order in which their names first appear |
| GridTimelines.SeriesInOrder | utils/grid.py:306-343 | so are the series of each kind within a timeline |
| GridTimelines.RecordsInOrder | utils/grid.py:1747-1779 | the records of a key are those of its lines, line after line |
| GridTimelines.SortedIsDisjoint | utils/grid.py:183-188 | after sorting, ranges lie one behind the other exactly when no two overlapped |
| GridTimelines.OverlapStays | utils/grid.py:183-188 | two overlapping ranges are in each other's way after sorting |
| GridTimelines.SortedIsInOrder | utils/grid.py:366-376 | the same for a whole timeline |
| GridTimelines.InOrderIsBoundsReady | utils/grid.py:378-403 | a timeline ready for the searches is ready for the bounds |
| GridTimelines.SortedGroupsHold | utils/grid.py:1789 | after the final sort each series holds its records, stably sorted |
| GridTimelines.WidenAllIsHull | utils/grid.py:378-403 | the widening loop ends with the smallest interval around 0 and all given intervals |
| GridTimelines.TimelineHull | utils/grid.py:378-403 | `Timeline.get_bounds` is the smallest interval with 0, every event and every range end, when the last range of each series ends last |
| GridTimelines.BoundsAreHull | utils/grid.py:444-457 | the same for `Timelines.get_bounds`, across all nested loops and empty lists |
| Grid.Timeline.GetRange | utils/grid.py:306-317 | returns the first series object of the name, or appends a new empty one |
| Grid.Timeline.GetEventStr | utils/grid.py:319-330 | the same for text events |
| Grid.Timeline.GetEventInt | utils/grid.py:332-343 | the same for number events |
| Grid.Timeline.AddRange | utils/grid.py:1753-1758 | the range goes into the object that get-or-create returned, behind what that held |
| Grid.Timeline.AddEventStr | utils/grid.py:1764-1768 | the same for text events |
| Grid.Timeline.AddEventInt | utils/grid.py:1774-1778 | the same for number events |
| Grid.Timeline.AddItem | utils/grid.py:1751-1779 | what is added through the returned object shows in the timeline, and nowhere else |
| Grid.Timeline.SortRangeSeries | utils/grid.py:371-372 | the first loop of `sort`: every series of ranges is sorted in place, the others stay |
| Grid.Timeline.SortEventIntSeries | utils/grid.py:373-374 | the second loop |
| Grid.Timeline.SortEventStrSeries | utils/grid.py:375-376 | the third loop |
| Grid.Timeline.SortSeries | utils/grid.py:366-376 | sorts every series of the timeline in place |
| Grid.Timeline.GetBounds | utils/grid.py:378-403 | the three loops compute the widened interval |
| Grid.Timelines.Get | utils/grid.py:416-427 | returns the first timeline of the name, or appends a new empty one |
| Grid.Timelines.AddRecordLine | utils/grid.py:1747-1779 | one record changes one series of one timeline |
| Grid.Timelines.SortTimelines | utils/grid.py:436-442 | sorts every timeline in place |
| Grid.Timelines.GetBounds | utils/grid.py:444-457 | the loops compute the smallest interval with 0 and all points when the last range of each series ends last |
| Grid.ReadData | utils/grid.py:1747-1790 | every series holds exactly the records with its key, stably sorted, and no object is shared |
| GridPoints.PointsAreRecordPoints | utils/grid.py:1747-1790 | the points of all timelines after `read_data` are those of the records |
| GridPoints.InOrderIffApart | utils/grid.py:1789 | after `read_data` every series is ready for the searches exactly when no two ranges with one key overlap |
| GridPoints.ReadyIffEndsLast | utils/grid.py:1789 | after `read_data` every series is bounded by its ends exactly when, sorted, no range of one key ends after the last |
| GridPoints.ReadBounds | utils/grid.py:1794-1795 | for such records, and so for those without overlaps, the bounds are the smallest interval that contains 0 and every point of every record |
| LargeTransfer.UnsplicedIff | examples/tcp/tcp-large-transfer.cc:94-99 | a buffer repeats the alphabet without a splice exactly when 26 divides its size |
| LargeTransfer.Alphabet | examples/tcp/tcp-large-transfer.cc:94-99 | the stream is a to z, again and again |
| LargeTransfer.StreamContinues | examples/tcp/tcp-large-transfer.cc:216-220 | what is sent from the buffer at offset c mod writeSize continues the stream at c |
| LargeTransfer.Socket.Send | examples/tcp/tcp-large-transfer.cc:220 | what is assumed of the network: a refusal, or a positive part of what was offered, as any table of networks says |
| LargeTransfer.Sender.NextChunk | examples/tcp/tcp-large-transfer.cc:215-219 | offers a positive number of bytes that stays inside buffer and transfer |
| LargeTransfer.Sender.constructor | examples/tcp/tcp-large-transfer.cc:94-99 | fills the buffer with the first writeSize bytes of the stream |
| LargeTransfer.Sender.WriteUntilBufferFull | examples/tcp/tcp-large-transfer.cc:210-232 | whatever is accepted or refused, the socket has exactly the first currentTxBytes bytes, no read leaves the buffer, it gives up only when done, out of space or refused, it gets on when it finds space and is not refused at once, and the socket is closed exactly when all is accepted |
| LargeTransfer.Sender.StartFlow | examples/tcp/tcp-large-transfer.cc:198-208 | keeps the same invariant |
| LargeTransfer.Flow | examples/tcp/tcp-large-transfer.cc:198-232 | over any network a prefix of the stream arrives, with a byte at least for each callback that finds space and is not refused at once; close means all of it, and comes after as many such callbacks as there are bytes |
| Fairness.DistancesExpanded | examples/tcp/dctcp-example.cc:180-186 | squared distances from any value in terms of the sums, zero exactly when all counters have that value |
| Fairness.CauchySchwarz | examples/tcp/dctcp-example.cc:186 | the squared sum is at most n times the sum of squares, with equality exactly for equal counters |
| Fairness.JainBounds | examples/tcp/dctcp-example.cc:186 | for counters not all zero the index lies in [1/n, 1] and is 1 exactly for equal counters |
| Fairness.NothingWrapsIff | examples/tcp/dctcp-example.cc:180-186 | no uint64 operation on the group, the average included, wraps exactly when n * sumSquares is below 2^64 |
| Fairness.SmallCountersAreSafe | examples/tcp/dctcp-example.cc:180-186 | counters up to B are safe when (n * B)^2 is below 2^64 |
| Fairness.OneCounterCanWrap | examples/tcp/dctcp-example.cc:183-186 | a single counter of 2^32 makes the denominator wrap to zero |
| Fairness.GroupSums | examples/tcp/dctcp-example.cc:180-184 | the two sums modulo 2^64 |
| Fairness.GroupFairness | examples/tcp/dctcp-example.cc:180-186 | the denominator is exact if and only if n * sumSquares is below 2^64, and then so are numerator, average and quotient |
| Windows.ClosedAddUp | scratch/swiftSim.cc:270-284 | every byte since the start of the measurement is in exactly one window |
| Windows.ReceivedIsSum | scratch/swiftSim.cc:150-166 | the bytes received are the sum of the packet sizes of the flow since the start |
| Windows.BitsLoss | scratch/swiftSim.cc:190 | the bits written for a window are exact exactly below 2^61 bytes |
| Windows.ReportedLoss | scratch/swiftSim.cc:185-200 | the reported bits fall short of the windows exactly when those of one window did not fit |
| Windows.WindowsAddUp | scratch/swiftSim.cc:270-284 | over any history the reported bits and those of the live counter add up to the bytes received, exactly when every closed window is below 2^61 bytes and the live one below 2^64 |
| Windows.ReportCanVanish | scratch/swiftSim.cc:190 | a window of 2^61 bytes does not overflow its counter and is reported as nothing |
| Windows.FlowCounters.TraceSink | scratch/swiftSim.cc:150-166 | the counter of the flow becomes its old value plus the size, modulo 2^64, and the others stay |
| Windows.FlowCounters.Start | scratch/swiftSim.cc:662 | the scheduled reset begins the measurement |
| Windows.FlowCounters.InitializeCounters | scratch/swiftSim.cc:168-183 | all counters are zero |
| Windows.FlowCounters.PrintThroughput | scratch/swiftSim.cc:185-200 | the bits of each counter, a product modulo 2^64 |
| Windows.FlowCounters.PrintPeriodic | scratch/swiftSim.cc:270-284 | appends eight times each counter, modulo 2^64, to the reports, and clears the counters |
| Windows.FlowCounters.Conserved | scratch/swiftSim.cc:270-284 | the same law on the counters and the reports themselves |

## Left out

- `test.py`: running commands, files, XML, HTML and text reports, argument parsing, names and colours. A job's return code and the result in its XML file are inputs.
- `test.py`: the threads are a step relation over whole statements; the loops of `worker_thread.run` and of main are its transitions and not Dafny loops, since Dafny has no threads. A negative number of processors is the same as none.
- Verdict.CollectResults: does not contain the waiting in `output_queue.get`, because `WorkerPool` has it; it takes the delivered reports as a sequence.
- `bindings/python/ns__init__.py`: finding libraries and their links, loading them, and the dict that is the default of `steps`, which is created once and used by one call. A dependency map is an input.
- `utils/print-introspected-doxygen.cc`: the TypeId queries are an abstract registry; the look-up of the names of aggregation pairs, the lists of types without a TypeId, and all printing.
- `utils/check-style-clang-format.py`: include prefixes, clang-format, the choice of files and the process pool. Messages are reduced to line numbers. Text reading is taken to have turned carriage returns into line feeds.
- `utils/bench-scheduler.cc`: wall-clock times, rates, standard deviation and output. The scheduler is a multiset of times from which any earliest event may be taken, so that the order of simultaneous events is open; `HeapScheduler` is one such queue, by itself. The other schedulers of the tree.
- HeapScheduler.HeapScheduler.Remove: does not say what happens to an event that is not in the heap, because the source asserts that it is.
- Welford.Log: does not model rounding, because it is over the reals.
- `utils/grid.py`: the regular expressions of `read_data` (a record is an input, and the value of a number event stays text), colours, drawing and mouse handling.
- `examples/tcp/tcp-large-transfer.cc`: the network, which is any table of replies. A socket accepts any positive part of a send or refuses it; a send that accepted nothing without refusing would make the source loop. Its numbers stay far below 2^32 and are not wrapped.
- `examples/tcp/dctcp-example.cc`, `scratch/swiftSim.cc`: the aggregate throughput, the division of bits by seconds, files and floating point. One group of flows stands for the three of each program, with any number of counters.
- All other programs of the tree are topologies and library calls.

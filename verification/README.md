# Build tools: sharding, parallel test runs and coverage merging

This project models the three build tools under `tools/` that together run a test suite in CI, and
proves what they guarantee.

* **The scheduler** (`tools/scheduler/main.py`) splits a suite over CI shards. It places the costliest
  test first, always on the least loaded shard, and stores the result under an id so that all shards
  see the same split. Costs are moving averages of recorded run times. A cron job stops virtual
  machines of builds that are over.
* **The runner** (`tools/runner/runner.go`) runs a shard's tests on a pool of hosts. Each test takes as
  many hosts as its file name asks for; hosts come back when a test finishes, in any order.
* **The coverage merger** (`tools/cover/cover.go`) adds up coverage profiles of the same source files
  and prints the sum.

## Modules

| module | content |
|---|---|
| `Sums`, `Strings`, `Sorting`, `Wrappers` | sums, bags, lexicographic order, decimal numerals, splitting, one stable sort |
| `Greedy`, `GreedyTight` | the greedy placement, Graham's bounds, and that they cannot be lowered |
| `Ewma` | the moving average |
| `TestNames` | host counts read off test names by the runner and by the scheduler |
| `Scheduler` | the datastore and its handlers, one request at a time |
| `Protocol`, `Progress` | any interleaving of requests and recorded run times; that every request gets answered |
| `VmCollector` | which virtual machines are stopped |
| `Runner` | the parallel runner as a transition system, and the sequential runner |
| `GoSlices`, `RunnerHeap` | Go slices with shared arrays, and the parallel runner on them |
| `Suite` | scheduler and runners together |
| `Cover`, `CoverMain` | merging two profiles, and the whole tool |

## How to read the main results

**The split is good.** `Greedy.ScheduleWithinFourThirds` compares the schedule with every other
distribution of the same tests. The proof needs no exchange argument. Let p be the cost of the test
about to be placed and B the largest load of the other distribution. If 3p <= B, averaging suffices.
Otherwise give a test weight 0 if it is cheaper than p, 2 if it cannot share a shard of the other
distribution with a test of cost p, and 1 if it can. No shard of the other distribution weighs more
than 2, so it holds at most 2m in all. If the least loaded shard had no room below B, each of the m
greedy shards would already weigh 2, and with the new test the total would exceed 2m.
`GreedyTight` shows that the factor is attained for every m.

**Everybody is told the same split.** A run of `Protocol` is an arbitrary sequence of steps of
arbitrarily many requests, and a step that is not possible changes nothing, so the theorems hold for
every interleaving. Costs are read one test at a time and may change in between. Racing requests may
compute different schedules; the one inserted first is served to all, forever. No request can be held
up: `Progress.AnsweredInTime` bounds its own steps in every interleaving.

**The runner ends, and how.** `Runner.EndOfRun` says how every run of the parallel loop ends, for
every order of completions and every outcome of the tests. `RunnerHeap.Parallel` is the loop on Go's
slices; it is proved to step through a run of the transition system. The reason that `append` never
overwrites the hosts of a running test is the predicate `RunnerHeap.Behind`.

**Coverage is order-free.** `CoverMain.Fold` gives the fold a meaning as maps; it is shown not to
depend on the order of the profiles, and the printed rows are determined by it.

## Where code and documentation differ

* `tools/README.md` says that a test's suffix is the number of hosts it needs. The runner wants the
  numeral to be a whole `_`-separated part; the scheduler takes any digits in front of `_test.sh`. The
  two can differ: `a1x2_test.sh` is one host for the runner and two for the scheduler.
  `TestNames.CountsAgree` says exactly when they agree on names that end in `_test.sh`, and
  `TestNames.CountsAgreeOnEveryName` on names of any form: `a_5` is five hosts for the runner and one for
  the scheduler. The runner also reads a sign, so that `a_-2_test.sh` asks for -2 hosts and makes the
  parallel runner panic (`Suite.SignedCountPanics`).
* A test that needs more hosts than there are keeps the parallel runner from ever returning, as does any
  test when the pool is empty: it receives where nobody sends (`tools/runner/runner.go:231`), and Go's
  runtime may abort it with a deadlock error.
* Run times are recorded for failed tests only (`tools/runner/runner.go:124`), so an average is an
  average of failing runs. Nothing here claims more.
* A request for a shard outside its own shard count still computes and stores the schedule before it
  fails.

## Model

| member | source | states |
|---|---|---|
| Greedy.SortByCostSpec | tools/scheduler/main.py:72 | the sort is ascending, a permutation, and keeps the order of equal costs |
| Greedy.Lightest | tools/scheduler/main.py:79-80 | the chosen shard has the smallest load, and every earlier shard has a larger one |
| Greedy.ShortestShard | tools/scheduler/main.py:79-80 | the loop over the loads finds that shard |
| Greedy.BuildShards | tools/scheduler/main.py:72-82 | the sort-and-pop loop computes the schedule that the theorems are about, or fails when there are tests and no shard |
| Greedy.SchedulePartitions | tools/scheduler/main.py:74-82 | every submitted test is on exactly one of the m shards as often as it was submitted; there is no schedule exactly for tests without shards |
| Greedy.SchedulesAgree | tools/scheduler/main.py:70-82 | only the costs of the submitted tests influence the schedule |
| Greedy.ScheduleDescends | tools/scheduler/main.py:76-82 | every shard lists its costliest test first |
| Greedy.ScheduleIsGreedy | tools/scheduler/main.py:74-82 | which shard each test is on: taken from the sorted list's end, each test goes to the first of the shards with the least cost so far, and each shard lists its tests in that order |
| Greedy.LightestIsBelowAverage | tools/scheduler/main.py:79-80 | a test of cost p lands on a shard whose load is at most B - p/m, for the largest load B of any other distribution |
| Greedy.LightestHasRoom | tools/scheduler/main.py:79-80 | when 3p > B and all placed tests cost at least p, the new load is at most B |
| Greedy.ScheduleWithinFourThirds | tools/scheduler/main.py:64-82 | no shard's load exceeds 4/3 - 1/(3m) times the largest load of any distribution of the same non-negative costs |
| Greedy.ScheduleIsOptimalForBigTests | tools/scheduler/main.py:64-82 | when every test costs more than a third of what some distribution needs, the schedule needs no more than that distribution |
| Greedy.AnyOrderWithinTwo | tools/scheduler/main.py:75-82 | in whatever order tests are placed, loads stay within 2 - 1/m of any distribution |
| Greedy.ScheduleSpread | tools/scheduler/main.py:75-82 | the heaviest and the lightest shard differ by at most the largest cost |
| GreedyTight.FourThirdsIsTight | tools/scheduler/main.py:64-82 | for every m there are distinct tests that some distribution fits into 3m per shard, and on which the schedule has a shard of load exactly 4/3 - 1/(3m) times 3m |
| GreedyTight.AddReplacesLeast | tools/scheduler/main.py:78-82 | placing a test replaces the least load, up to the order of the shards |
| Ewma.AverageIsWeighted | tools/scheduler/main.py:20-49 | after n records the average is the decayed start plus the sum of alpha(1-alpha)^(n-1-k) r_k, and the run count grew by n |
| Ewma.ObserveInNumbers | tools/scheduler/main.py:20-49 | the new average is 0.7 of the old and 0.3 of the observation, and a fresh entity starts at 0 with no runs |
| Ewma.AverageIsBetween | tools/scheduler/main.py:48 | from 0, the average lies between the observations' bounds, each times 1-(1-alpha)^n |
| Ewma.ConstantError | tools/scheduler/main.py:48 | a constant run time c is underestimated by exactly (1-alpha)^n c |
| Ewma.HistoryFades | tools/scheduler/main.py:17-20 | two histories followed by the same n observations differ by (1-alpha)^n of their difference |
| TestNames.SearchSpec | tools/scheduler/main.py:28 | the search succeeds exactly on names that end with a numeral, `_test`, any character but a newline, `sh` and perhaps a newline, and returns the whole numeral |
| TestNames.ParallelismSpec | tools/scheduler/main.py:26-32 | the scheduler's count is the number in front of such an ending, and 1 without one |
| TestNames.AtoiSpec | tools/runner/runner.go:184 | `Atoi` reads exactly the optionally signed numerals within 64 bits, and reads what they denote |
| Strings.FirstDigitCountsMost | tools/scheduler/main.py:32 | numerals are decimal: the first digit counts its power of ten |
| TestNames.HostCountSpec | tools/runner/runner.go:183-187 | the runner's count is the integer that the last part of the name denotes, and 1 if it denotes none |
| TestNames.CountsAgree | tools/runner/runner.go:183-187 | runner and scheduler read the same count off a suffixed name if and only if the stated condition on its last part holds |
| TestNames.EveryStemSplits | tools/runner/runner.go:183 | every suffixed name is covered by that condition |
| TestNames.CountsAgreeOnEveryName | tools/runner/runner.go:183-187 | the two tools read the same count off a name of any form if and only if the stated condition holds |
| TestNames.DifferOnPartialNumeral | tools/runner/runner.go:183-187 | `a1x2_test.sh` is one host for the runner and two for the scheduler |
| TestNames.DifferWithoutSuffix | tools/scheduler/main.py:28-32 | `a_5` is five hosts for the runner and one for the scheduler |
| TestNames.DifferOnSign | tools/runner/runner.go:184 | `a_-2_test.sh` is -2 hosts for the runner and two for the scheduler |
| TestNames.CountRoundTrip | tools/scheduler/main.py:26-32 | a count written as `base_n_test.sh` is read back by the scheduler, and by the runner up to 2^63-1, beyond which it says 1 |
| Scheduler.ScheduleIdIsInjective | tools/scheduler/main.py:59 | two requests share a schedule id only when run and shard count are equal |
| Scheduler.ScheduleIdReadsBack | tools/scheduler/main.py:59 | an id is the run name, a dash and the shard count without leading zeros |
| Scheduler.Datastore.RecordRun | tools/scheduler/main.py:20-51 | one record makes the average 0.7 of the old plus 0.3 of the run time and counts one more run; a new entity gets 0.3 of the run time and one run; no other entity changes |
| Scheduler.Datastore.GetOrInsert | tools/scheduler/main.py:85 | an existing schedule is kept and returned; otherwise the given one is stored |
| Scheduler.Datastore.ScheduleRequest | tools/scheduler/main.py:53-86 | a request alone ends as specified: fast path, computed slice, or one of the two failures |
| Protocol.NextKeepsInv | tools/scheduler/main.py:53-86 | every step keeps every reply a slice of the stored schedule and every stored schedule a greedy one of some request |
| Protocol.SchedulesAreStable | tools/scheduler/main.py:84-85 | a stored schedule never changes and never disappears in any continuation of any run |
| Protocol.RepliesAreSlices | tools/scheduler/main.py:58-86 | an answered request keeps its slice of the stored schedule forever; it fails exactly when its shard is out of range, with a key error only if a schedule is stored |
| Protocol.SameQuestionSameAnswer | tools/scheduler/main.py:58-62 | two answered requests for one shard of one run got the same tests |
| Protocol.RepliesPartition | tools/scheduler/main.py:53-86 | the replies for all shards of a run together are exactly the tests of one request of that run |
| Protocol.EntityIsReplay | tools/scheduler/main.py:42-51 | in every interleaving an entity is the moving average of exactly the run times posted under its name, and counts exactly them |
| Protocol.CostOfHistory | tools/scheduler/main.py:34-37 | a cost at any moment is 1 for an unrecorded test, and otherwise host count times the weighted sum of its posted run times |
| Protocol.CostsAreObserved | tools/scheduler/main.py:65-70 | every cost a request has collected, and every cost a stored schedule was computed from, was the test's cost at a moment of the run when that request was reading |
| Protocol.AgreedScheduleIsGood | tools/scheduler/main.py:64-86 | the schedule that all are served is computed from exactly the costs that its request read between its lookup and its insert; with non-negative run times it is within 4/3 - 1/(3m) of every distribution in those costs |
| Progress.AnsweredInTime | tools/scheduler/main.py:53-86 | in every interleaving a request is answered after at most its number of tests plus two effective steps of its own |
| Progress.FinishesAlone | tools/scheduler/main.py:53-86 | from any state, however far a request has come, its own remaining steps suffice to answer it |
| Progress.SoloIsServe | tools/scheduler/main.py:53-86 | an unanswered request, begun or not, whose costs are still current and whose schedule nobody stored is answered by its own steps as the sequential handler answers it |
| VmCollector.BuildRoundTrip | tools/integration/gce.sh:23-38 | every VM name of a CI build is read back to its host index, build and shard |
| VmCollector.LocalNameHasNoBuild | tools/integration/gce.sh:23-36 | a VM name made outside CI belongs to no build |
| VmCollector.BuildOfSpec | tools/scheduler/main.py:88 | a name belongs to a build exactly when it is `host`, three numerals with dashes, and perhaps a newline, with that build in the middle |
| VmCollector.GroupByBuild | tools/scheduler/main.py:112-117 | the grouping holds, per build, its instances in listing order, and no others |
| VmCollector.OfBuildInOrder | tools/scheduler/main.py:112-117 | a build's instances are the listing's entries of that build, in listing order |
| VmCollector.GcProject | tools/scheduler/main.py:106-138 | in whatever order builds are visited, exactly the stale instances are stopped, build after build and in listing order within each |
| VmCollector.StaleExactly | tools/scheduler/main.py:128-136 | an instance is stopped as often as it is listed if its build is not running, and never otherwise |
| Runner.DescendingIsUnique | tools/runner/runner.go:207 | the reverse-sorted queue is unique, so the unstable sort does not matter |
| Runner.SortDescendingSpec | tools/runner/runner.go:60-65 | the queue is a rearrangement with tests that need more hosts first, and greater names first among equals |
| Runner.FirstFitIsGreatest | tools/runner/runner.go:67-77 | pick takes the fitting test that needs the most hosts, with the greatest name among those, and the rest stays sorted without it |
| Runner.StartSpec | tools/runner/runner.go:214-227 | a start takes the first fitting test and exactly its hosts off the front of the free hosts, and panics on a negative count |
| Runner.FinishSpec | tools/runner/runner.go:231-236 | a receive appends the run's hosts to the free ones and its test to the failed ones if it failed |
| Runner.RunKeepsInv | tools/runner/runner.go:205-237 | in every reachable state hosts and tests are conserved, every run holds as many hosts as it asked for, and failures match the received results |
| Runner.HostsAreExclusive | tools/runner/runner.go:214-232 | a host listed once is never in two outstanding runs, twice in one, or free while used |
| Runner.FailuresInOrder | tools/runner/runner.go:231-236 | at every moment the failed tests are those of the failing results received so far, in order of receipt |
| Runner.RunsEnd | tools/runner/runner.go:211-237 | every run has at most 2n+1 steps, and stops only in a terminal state |
| Runner.EndOfRun | tools/runner/runner.go:205-239 | a run panics exactly for hosts and a negative count; otherwise all hosts are free, exactly the unservable tests are queued, all others were received once; the loop is left exactly when every test fits |
| Runner.Sequential | tools/runner/runner.go:242-251 | the sequential runner reports the number of tests and exactly the failing ones, in the order in which they were given, and errs exactly when one fails |
| Runner.ParallelAgreesWithSequential | tools/runner/runner.go:205-251 | when outcomes depend on the test only, a complete parallel run reports the sequential runner's failures, each as often, and the same verdict |
| GoSlices.Append | tools/runner/runner.go:232 | append gives the concatenation and changes only the cells behind the slice, or none when it reallocates |
| GoSlices.RemoveAt | tools/runner/runner.go:71 | the in-place removal keeps array and offset and drops exactly one element |
| RunnerHeap.GetTests | tools/runner/runner.go:181-191 | every name becomes one test, in order, with that name and the host count read off it |
| RunnerHeap.NamedCountIsUsed | tools/runner/runner.go:181-191 | a count written into a test's file name is the number of hosts of that test, up to 2^63-1 |
| RunnerHeap.SortReverse | tools/runner/runner.go:207 | the queue's window is rearranged in place to the descending queue |
| RunnerHeap.Pick | tools/runner/runner.go:67-77 | pick on the heap removes the first fitting test in place, or changes nothing |
| RunnerHeap.StartTests | tools/runner/runner.go:214-227 | the inner loop on slices performs start steps until a slice bound is negative, or no host is free or no queued test fits |
| RunnerHeap.TakeBack | tools/runner/runner.go:231-233 | appending returned hosts is one finish step and changes no other outstanding run's hosts |
| RunnerHeap.Receive | tools/runner/runner.go:231-236 | receiving any goroutine's result, with any outcome, extends the run by its finish step |
| RunnerHeap.MainLoop | tools/runner/runner.go:211-239 | the loop on slices steps through a run of the transition system and ends in a terminal state |
| RunnerHeap.Parallel | tools/runner/runner.go:205-240 | sorts the queue and runs that loop; it reports what that state says, and returns, never returns or panics exactly under the stated conditions |
| Suite.SuiteRunsExactlyOnce | tools/runner/runner.go:175-191 | if every shard's runner leaves its loop, all shards together ran every test of the winning request as often as it was submitted |
| Suite.SignedCountPanics | tools/runner/runner.go:205-220 | every run over a list with `a_-2_test.sh` in it ends in a panic when there are hosts |
| Cover.ViewDetermines | tools/cover/cover.go:11-56 | a sorted block list is determined by its map from start positions |
| Cover.MergedIsAdd | tools/cover/cover.go:11-56 | merging sorted lists is pointwise addition, and panics exactly when a common start has differing extents |
| Cover.Merge | tools/cover/cover.go:11-56 | the three loops give the sorted list of the summed map under the first profile's name and mode, or the panic, exactly when two blocks with a common start differ in end position or statement count |
| CoverMain.AbsorbCommutes | tools/cover/cover.go:82-89 | two profiles can be folded in either order, panics included |
| CoverMain.FoldPanicsOnClash | tools/cover/cover.go:22-26 | folding any number of profiles panics exactly when two of one file disagree about a common block |
| CoverMain.PanicsExactly | tools/cover/cover.go:20-26 | the tool panics exactly when blocks of two profiles of one file start together and differ in end line, end column or statement count |
| CoverMain.FoldAddsCounts | tools/cover/cover.go:76-90 | the merged coverage has a block exactly where one of its profiles has one, with the total count |
| CoverMain.FoldKeepsExtents | tools/cover/cover.go:22-35 | every merged block has the end position and statement count of each block it comes from |
| CoverMain.SortByNameSpec | tools/cover/cover.go:69-73 | profiles with distinct names are sorted by file name |
| Strings.LessSpec | tools/cover/cover.go:72 | file names compare by the first character in which they differ, a proper prefix being less |
| CoverMain.CollectProfiles | tools/cover/cover.go:91-94 | walking the map in any order collects every profile once |
| CoverMain.SortProfiles | tools/cover/cover.go:95 | the array is sorted in place |
| CoverMain.Print | tools/cover/cover.go:58-66 | one row per block, profile by profile |
| CoverMain.MergeFiles | tools/cover/cover.go:75-97 | the program's outcome is the one its profiles demand |
| CoverMain.OrderDoesNotMatter | tools/cover/cover.go:75-97 | any order of the same profiles ends in the same panic or prints the same rows |
| CoverMain.FileOrderDoesNotMatter | tools/cover/cover.go:77-90 | so does any order of the input files |
| CoverMain.PrintedRows | tools/cover/cover.go:58-66 | printed rows ascend by file and position, start exactly where the input's blocks start, and carry their end positions, statement counts and total counts |
| CoverMain.PrintedFields | tools/cover/cover.go:58-66 | field by field: rows ascend by name, line and column; there is a row for exactly the blocks of the input; end positions, statement counts and summed executions are those of the input |

## Left out

- Cost arithmetic is over reals: IEEE rounding, infinities and NaN in run times are not modelled.
- Run times below zero: the bounds against other distributions assume non-negative costs; the partition and agreement results do not.
- Block counts and positions are mathematical integers; Go's overflow is modelled only where host counts are parsed.
- RunnerHeap.SortReverse: the library sort's own swaps are not modelled, because the result is unique.
- RunnerHeap.GetTests: the call to the scheduler over HTTP is not modelled; `Suite` passes the reply on directly.
- `test.run`: processes, timers, output and the HOSTS variable are reduced to an arbitrary or given failure bit; a timed-out process that keeps running on its hosts is not modelled.
- `failed`, the runner's slice of failed tests, and `output.Blocks` are sequences: they are private to one loop, so sharing cannot be observed.
- `shards` is a sequence indexed by shard number instead of a dictionary with JSON string keys.
- App Engine's datastore: `get_by_id`, `get_or_insert` and one `record` are atomic steps by assumption; each read of `get_multi` is its own step.
- The cover profile parser is not part of this model; its blocks are assumed strictly ascending, and its errors and the text format of a row are not modelled.
- The web handlers' JSON, the list of running builds fetched over HTTP, and deletion calls that fail.
- The Docker plugin at the repository's root: plumbing around HTTP, netlink and InfluxDB.
- `tools/cmd/wcloud` and the shell scripts, apart from the VM name format.

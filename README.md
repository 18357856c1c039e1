# CPU scheduler simulator: the scheduling core

The Go program `Project1/main.go` reads a list of processes and prints a Gantt chart and a
timing table for several CPU-scheduling disciplines. Each process has an id, an arrival time,
a burst and a priority. This project models the scheduling core of that program in Dafny and
proves what it actually computes:

- **FCFS** (`FCFSSchedule`). The accumulation loop walks the processes in input order. It keeps a
  running service time and a waiting time that carries over from one process to the next, and
  emits one row and one Gantt entry per process, plus the totals the averages are computed from.
- **SJF** (`SJFSchedule`) and **Priority** (`SJFPrioritySchedule`). Both run one admission
  round per process over three working arrays:
  - `notArrived`, which is bubble-sorted by arrival;
  - `waiting`, which receives processes that have arrived by the current time; its ready prefix
    is then put through a selection loop, and its head is dispatched to `alreadyRun`;
  - `alreadyRun`, which collects the dispatched processes.

  Priority also ages the ready processes after each dispatch. SJF then accumulates over
  `alreadyRun`, and Priority over the input order.
- **Round Robin** (`RRSchedule`). It sorts once. Then, until every process has finished, it
  runs the head of `waiting` for one time unit and rotates it to the back, together with a
  remaining-burst counter, and then receives new arrivals.
- The helpers `swap` and `swapInt` exchange two values.

Module layout:

| module | file | models |
|---|---|---|
| `Processes` | `processes.dfy` | the `Process` and `TimeSlice` records, rows and reports, and panics as `Result` |
| `Accumulation` | `accumulation.dfy` | the accumulation loop shared by all four schedulers |
| `ArrivalSort` | `arrival_sort.dfy` | the nested loop that sorts by arrival |
| `Admission` | `admission.dfy` | the receive, select, run-next and aging steps |
| `Schedulers` | `schedulers.dfy` | FCFS, SJF and Priority |
| `RoundRobin` | `round_robin.dfy` | Round Robin |
| `Examples` | `examples.dfy` | concrete inputs with their exact outcomes |

**How the code is modelled.**
- Each step that works in place is a method on arrays. Its `ensures` equates the new array
  contents with a pure function that follows the loop.
- The properties are lemmas about those functions.
- The top-level scheduler methods have no `modifies` clause, so the caller's input provably is
  not written.
- An index out of range, which would make the Go program panic, becomes
  `Err(IndexOutOfRange(i))`.

**Where the code departs from textbook scheduling.** The model follows the code as written;
the lemmas named below prove each departure:

- **Waiting time is never clamped at 0.** The code recomputes the wait only when the arrival is
  positive, as service so far minus arrival, so a lone process arriving at 5 reports wait −5
  (`Examples.LateProcessWaitsNegative`). Otherwise the previous process's wait carries over
  (`Accumulation.WaitCarriedOver`). On the textbook input with bursts 24, 3, 3, all arriving at
  0, every wait is reported as 0 where a textbook scheduler reports 0, 24 and 27
  (`Examples.FCFSTextbook`).
- **Receiving copies instead of moving.** The receive loop copies `notArrived[i]` into
  `waiting`. It re-examines the same index and never removes the entry. So the first arrived
  entry f is admitted once for every index from f to `incoming` (`Admission.ReceiveCounts`),
  and every entry it brings into `waiting` is a copy of `notArrived[f]`
  (`Admission.ReceiveAdmitsFirst`).
- **Selection takes a running maximum instead of sorting.** The selection loop's only effective
  pass copies each larger key over its right neighbour (`Admission.SelectIsRunningMax`), so the
  head of `waiting` never changes (`Admission.SelectKeepsHead`). Because of this, SJF on the
  textbook input dispatches the first process three times (`Examples.SJFRepeatsFirst`). With
  bursts 5 and 3 it dispatches a zero-valued phantom process (`Examples.SJFRunsPhantom`).
- **Late processes make SJF and Priority panic.** When nothing is ready and nothing has arrived,
  the run-next step indexes `waiting[-1]` (`Schedulers.RoundFailsIffIdle`). If every process
  arrives after time 0, this happens in the first round (`Schedulers.LateStartFails`,
  `Examples.LateProcessPanics`).
- **Round Robin never finishes.** The remaining-burst counters start at 0 and are never set from
  the bursts, so no counter is ever 0 right after a decrement. With unbounded counters the loop
  therefore never ends for any non-empty input (`RoundRobin.RRNeverReports`); with Go's int64
  counters it would end only after a wrap-around, which the model does not capture (see
  "Left out"). That is consistent with its call being commented out in `main`.
- **Reporting order.** Priority and Round Robin report the input order, not the dispatch order
  (`Schedulers.PriorityReport`, `RoundRobin.RRReport`).

## Model

| member | source | states |
|---|---|---|
| `Processes.SwapPermutes` | Project1/main.go:578-584 | exchanging two entries of a sequence, as `swap` and `swapInt` do, leaves its multiset unchanged |
| `Accumulation.Timeline` | Project1/main.go:88-118 | the report has one row and one Gantt entry per process, its count is the number of processes, and total turnaround equals total wait plus total burst |
| `Accumulation.Accumulate` | Project1/main.go:88-118 | the accumulation loop returns exactly `Timeline` of its input order: rows, Gantt entries, both totals and the last completion |
| `Accumulation.TotalsAdd` | Project1/main.go:92-97 | over rows whose turnaround is burst plus wait, total turnaround is total wait plus total burst |
| `Accumulation.WaitCarried` | Project1/main.go:89-91 | after a process with positive arrival, every later process with arrival ≤ 0 reports that process's wait |
| `Accumulation.WaitStaysZero` | Project1/main.go:84-91 | while no process so far has a positive arrival, the reported wait is 0 |
| `Accumulation.RowIdentities` | Project1/main.go:94-117 | each row echoes id, priority, burst and arrival; turnaround = burst + wait; completion = arrival + wait + burst; the slice starts at wait + arrival and runs for burst |
| `Accumulation.StopsArePrefixSums` | Project1/main.go:111-117 | each Gantt stop is the previous stop (0 at first) plus the burst |
| `Accumulation.ArrivedStartsAtPreviousStop` | Project1/main.go:89-94 | a process with positive arrival starts at the previous stop, which is the total burst before it, and its slice is exactly its burst long |
| `Accumulation.WaitCarriedOver` | Project1/main.go:89-92 | a process with arrival ≤ 0 reports the previous process's wait (0 for the first) |
| `Accumulation.TotalsAreSums` | Project1/main.go:92-100 | the totals are the sums over the rows, total turnaround is total wait plus total burst, and the last completion is the last row's (0 for no rows) |
| `Accumulation.BurstTotalIsBurstBefore` | Project1/main.go:111 | the bursts summed over the first n rows equal the service time after n processes |
| `ArrivalSort.ExchangePermutes` | Project1/main.go:168-170 | one compare-and-swap step only permutes and leaves everything from n on in place |
| `ArrivalSort.PassPermutes` | Project1/main.go:167-171 | one sweep only permutes and leaves everything from n on in place |
| `ArrivalSort.PassesPermute` | Project1/main.go:166-172 | the remaining sweeps only permute and leave everything from n on in place |
| `ArrivalSort.PassSorts` | Project1/main.go:167-171 | a sweep carries the latest element rightwards and puts one more element of the sorted tail in place |
| `ArrivalSort.RoundsSort` | Project1/main.go:166-172 | sweeps j..n−1 complete the sort when the last j elements are already in place |
| `ArrivalSort.BubbleSortSorts` | Project1/main.go:166-172 | the nested loop sorts `notArrived[0..n)` by arrival, is a permutation of it, and leaves `notArrived[n..]` alone |
| `ArrivalSort.ExchangeStable` | Project1/main.go:168-170 | a step never reorders two processes with the same arrival |
| `ArrivalSort.PassStable` | Project1/main.go:167-171 | a sweep keeps the relative order of processes with equal arrival |
| `ArrivalSort.PassesStable` | Project1/main.go:166-172 | the sweeps keep the relative order of processes with equal arrival |
| `ArrivalSort.BubbleSortStable` | Project1/main.go:166-172 | the sort is stable: within the first n, processes of equal arrival keep their input order |
| `ArrivalSort.SortByArrival` | Project1/main.go:166-172 | the in-place nested loop leaves the array equal to the sorted function of its old contents |
| `Admission.ShiftIsRotation` | Project1/main.go:179-181 | the adjacent-swap loop from lo to hi rotates `s[lo..hi]` left by one place and changes nothing else |
| `Admission.FirstArrived` | Project1/main.go:175-176 | the first index in the scanned range whose process has arrived by the time, or its end if none has |
| `Admission.ReceiveCounts` | Project1/main.go:175-186 | after receiving, `incoming` is the first arrived index and `arrived` grows by `incoming` minus that index |
| `Admission.ReceiveConserves` | Project1/main.go:175-186 | receiving never increases `incoming` and conserves `incoming + arrived` |
| `Admission.ReceiveLeavesNoArrival` | Project1/main.go:175-186 | after receiving, no process in the remaining `notArrived[0..incoming)` has arrived by the time, and the entry just past it had arrived |
| `Admission.ReceiveAdmitsFirst` | Project1/main.go:175-186 | with f the first arrived index, every entry of `waiting` after receiving was already in `waiting` or is `notArrived[f]`; when nothing has arrived, `waiting` is unchanged |
| `Admission.ReceiveDrawsFrom` | Project1/main.go:175-186 | up to priority, every entry of `waiting` after receiving belongs to any set that holds all of `notArrived` and the old `waiting` |
| `Admission.Receive` | Project1/main.go:175-186 | the in-place receive loop, index decrement included, yields the new `waiting` and counters of `Received` |
| `Admission.ChampionIsMaximum` | Project1/main.go:189-195 | the entry the first pass leaves at k has the largest key of `w[0..k]` and is one of them |
| `Admission.PassZero` | Project1/main.go:190-194 | the first selection pass leaves the running maximum of the keys |
| `Admission.NoSwapInner` | Project1/main.go:190-194 | a pass over keys already non-decreasing swaps nothing |
| `Admission.NoSwapOuter` | Project1/main.go:189-195 | later passes over non-decreasing keys swap nothing, so `waiting[i+j]` is never read out of range |
| `Admission.SelectIsRunningMax` | Project1/main.go:189-195 | the selection loop never fails and yields the running maximum, not a sorted order |
| `Admission.SelectKeepsHead` | Project1/main.go:189-195 | selection never fails, keeps the length, and leaves the head of `waiting` where it was |
| `Admission.SelectDrawsFrom` | Project1/main.go:189-195 | selection leaves entries from `arrived` on untouched, makes each ready entry one of those at or before its index, and leaves the ready keys non-decreasing |
| `Admission.Select` | Project1/main.go:189-195 | the in-place selection loop yields the selected sequence and never indexes out of range |
| `Admission.RunNext` | Project1/main.go:198-202 | run-next fails with index −1 exactly when nothing is ready; otherwise it records the head at `finished`, adds its burst to the time, moves the counters, and only permutes `waiting` |
| `Admission.RunNextStep` | Project1/main.go:198-202 | the in-place step reports failure exactly when nothing is ready, and otherwise leaves the arrays and counters of `RunNext` |
| `Admission.AgingEffect` | Project1/main.go:205-209 | aging lowers each ready priority above 1 by exactly one and changes nothing else |
| `Admission.AgingFloor` | Project1/main.go:205-209 | aging never raises a priority, lowers it by at most one, and never takes a priority of at least 1 below 1 |
| `Admission.AgeReady` | Project1/main.go:205-209 | the in-place aging loop leaves `waiting` equal to `AgeFrom` of its old contents |
| `Schedulers.Round` | Project1/main.go:164-210 | one outer iteration either panics at index −1 or dispatches exactly one more process, keeping the state well formed |
| `Schedulers.Simulate` | Project1/main.go:164-210 | the outer loop either panics at index −1 or ends with all n dispatched and none incoming or ready |
| `Schedulers.RoundFailsIffIdle` | Project1/main.go:175-202 | a round panics if and only if nothing is ready and no process in `notArrived[0..incoming)` has arrived by the current time |
| `Schedulers.RoundDispatchesHead` | Project1/main.go:198-199 | a round dispatches the head of `waiting` as left by receiving, and adds its burst to the time |
| `Schedulers.LateStartFails` | Project1/main.go:164-202 | with at least one process and every arrival after 0, SJF and Priority panic at index −1 |
| `Schedulers.RoundAccounts` | Project1/main.go:198-199 | a round keeps the time spent equal to the total burst of the processes dispatched so far |
| `Schedulers.SelectKeepsOrigins` | Project1/main.go:189-195 | selection never brings in an entry from outside the set `waiting` was drawn from |
| `Schedulers.RoundDraws` | Project1/main.go:166-209 | a round keeps every array drawn from the input processes and the zero value, up to aged priority |
| `Schedulers.SimulateKeeps` | Project1/main.go:164-210 | both invariants hold at the end of the outer loop |
| `Schedulers.RunOrderFacts` | Project1/main.go:164-210 | on success, n entries are dispatched, the time spent is their total burst, and each is an input process or the zero value, up to aged priority |
| `Schedulers.FCFSSchedule` | Project1/main.go:78-118 | FCFS reports `Timeline` of the input order and does not write its input |
| `Schedulers.AdmissionRound` | Project1/main.go:164-210 | one in-place outer iteration yields the state of `Round`, or reports the panic when `Round` fails |
| `Schedulers.Admit` | Project1/main.go:150-210 | the in-place simulation returns the dispatch order of `RunOrder`, or its panic, without writing its input |
| `Schedulers.SJFSchedule` | Project1/main.go:260-360 | SJF reports `Timeline` of the dispatch order, or the panic |
| `Schedulers.PrioritySchedule` | Project1/main.go:136-242 | Priority reports `Timeline` of the input order, or the panic from the simulation |
| `RoundRobin.RRRun` | Project1/main.go:416-454 | when the main loop ends within the fuel, every process has finished |
| `RoundRobin.SliceRotates` | Project1/main.go:420-427 | a slice decrements the head's counter, advances time by one, rotates `waiting` and the counters in lockstep over the ready prefix, and leaves the rest alone |
| `RoundRobin.SliceFinishesIff` | Project1/main.go:432-436 | a slice finishes a process if and only if something is ready and the head's counter is 1; the finished one is the old head, and otherwise `alreadyRun` is unchanged |
| `RoundRobin.TurnStaysStuck` | Project1/main.go:416-454 | with every counter ≤ 0 and nothing finished, an iteration keeps every counter ≤ 0 and finishes nothing |
| `RoundRobin.StuckRunsForever` | Project1/main.go:416-454 | from such a state, the loop does not end within any fuel |
| `RoundRobin.RRNeverReports` | Project1/main.go:378-496 | Round Robin never reports for a non-empty input, and reports the empty timeline for an empty one |
| `RoundRobin.TakeTurn` | Project1/main.go:416-454 | one in-place iteration of the main loop yields the state of `Turn` |
| `RoundRobin.RRSetup` | Project1/main.go:392-414 | the fresh arrays hold the sorted copy of the input, zero processes and zero counters |
| `RoundRobin.RRSchedule` | Project1/main.go:378-496 | Round Robin in place returns `RRReport` of its input for the given fuel |
| `Examples.SortKeepsSorted` | Project1/main.go:166-172 | a prefix already in arrival order comes out of the sort unchanged |
| `Examples.FCFSTextbook` | Project1/main.go:88-118 | for bursts 24, 3, 3 at time 0, every wait and the total wait are 0, all three starts are 0, and the stops are 24, 27, 30 |
| `Examples.LateProcessWaitsNegative` | Project1/main.go:89-117 | a lone process arriving at 5 with burst 10 reports wait −5, turnaround 5, completion 10 and slice 0..10 |
| `Examples.LateProcessPanics` | Project1/main.go:198-202 | that input makes SJF and Priority panic at index −1 |
| `Examples.TextbookReceive` | Project1/main.go:300-311 | receiving the textbook input at time 0 fills `waiting` with the first process, a zero entry and the first process again |
| `Examples.TextbookSelect` | Project1/main.go:314-320 | selection then leaves three copies of the first process |
| `Examples.SJFRepeatsFirst` | Project1/main.go:289-328 | SJF dispatches the first textbook process three times |
| `Examples.SJFRunsPhantom` | Project1/main.go:289-328 | with bursts 5 and 3 at time 0, SJF dispatches the zero value and then the first process, and never the second |

## Reference definitions

The pure functions below define what each loop computes; the in-place methods are proved equal
to them and the lemmas above are about them. Each follows the cited lines step by step.

- `Accumulation.WaitAt`, `Accumulation.RowAt`, `Accumulation.SliceAt`: Project1/main.go:89-117 (the wait, the row and the Gantt entry of process i)
- `Accumulation.WaitTotal`, `Accumulation.TurnaroundTotal`, `Accumulation.LastCompletion`: Project1/main.go:92-100 (the running totals)
- `Accumulation.Rows`, `Accumulation.Gantt`: Project1/main.go:88-118 (one row and one entry per process, in iteration order)
- `ArrivalSort.Exchange`: Project1/main.go:168-170 (one compare-and-swap on strictly later arrival)
- `ArrivalSort.PassFrom`: Project1/main.go:167-171 (one sweep over neighbours 0..n−2)
- `ArrivalSort.PassesFrom`, `ArrivalSort.BubbleSorted`: Project1/main.go:166-172 (n sweeps)
- `Admission.ShiftToEnd`: Project1/main.go:179-181 (the adjacent-swap loop)
- `Admission.ReceiveFrom`, `Admission.Received`: Project1/main.go:175-186 (the receive loop, with `incoming--`, the rotation and `i--`)
- `Admission.SelectInner`: Project1/main.go:190-194 (one inner pass, reading `waiting[i+j]`, failing when that index is out of range)
- `Admission.SelectFrom`, `Admission.ThenSelect`, `Admission.Selected`: Project1/main.go:189-195 (all passes)
- `Admission.Champion`, `Admission.RunningMax`: Project1/main.go:189-195 (independent description of the result: the running maximum of the keys)
- `Admission.RunNext`: Project1/main.go:198-202 (dispatch of the head and the final swap)
- `Admission.Aged`, `Admission.AgeFrom`: Project1/main.go:205-209 (the aging loop)
- `Schedulers.Init`: Project1/main.go:150-162 (the copy into `notArrived`, zero-valued `waiting` and `alreadyRun`, the counters)
- `Schedulers.Round`, `Schedulers.Simulate`: Project1/main.go:164-210 (one outer iteration; the outer loop)
- `Schedulers.RunOrder`: Project1/main.go:150-210 (the final `alreadyRun`, or the panic)
- `Schedulers.SJFReport`: Project1/main.go:260-360 (the timeline of `alreadyRun`)
- `Schedulers.PriorityReport`: Project1/main.go:136-242 (the timeline of the input order, once the simulation has not panicked)
- `RoundRobin.RRInit`: Project1/main.go:392-414 (the sorted copy, zero-valued `waiting` and `alreadyRun`, zero `burstLeft`)
- `RoundRobin.Slice`: Project1/main.go:418-437 (one time unit for the head)
- `RoundRobin.Turn`, `RoundRobin.RRRun`: Project1/main.go:416-454 (one iteration, with receiving; the main loop under a fuel bound)
- `RoundRobin.RRReport`: Project1/main.go:456-486 (the timeline of the input order once the loop ends)

## Left out

- `main`, `openProcessingFile`, `loadProcesses` and `mustStrToInt`: command-line handling, file I/O and CSV parsing, outside the scheduling core.
- `outputTitle`, `outputGantt`, `outputSchedule` and the `io.Writer`: display code; the model returns a `Report` instead.
- The textual rows built with `fmt.Sprint`: each is modelled as a `Row` of integers.
- The floating-point averages (`aveWait`, `aveTurnaround`, `aveThroughput`), and the division by zero for an empty input: the model returns the integer totals and the count they are divided from.
- The 64-bit width of the fields: the model uses unbounded integers, so int64 overflow is not modelled. In particular the Round Robin counters never wrap around, which is why `RoundRobin.RRNeverReports` holds for every non-empty input.
- The `title` parameter of every scheduler (Project1/main.go:78, 136, 260, 378): it is only passed to `outputTitle`.
- `swap` and `swapInt`: modelled as Dafny's simultaneous assignment, with `Processes.SwapPermutes` stating what they do.
- RoundRobin.RRSchedule: the main loop never ends for a non-empty input, so the method carries a fuel bound and returns `None` when it runs out; behaviour beyond any finite number of iterations is not modelled.
- Schedulers.Admit: a Go panic unwinds the whole program; the model returns `Err(IndexOutOfRange(-1))` at that point instead, and does not model what happens after it.

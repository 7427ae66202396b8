# Scaphandre: CPU-time accounting and power attribution

Scaphandre tells how much power each process of a host consumes. It does so in
two halves, and this project models both and the place where they meet.

* **In the kernel**, four eBPF handlers (context switch, sample tick, process
  exit and state tick) share a few maps. They charge CPU time to processes and
  to CPUs, and report sockets that are idle or have just one active CPU.
* **In user space**, each refresh reads energy counters and those maps, estimates
  the power a socket draws in the background, splits what is left over cores by
  their performance counters, and over processes by their share of each core.

The handlers are modelled as atomic steps, in any order and on any number of
CPUs, and the main results hold for every run of them; what else each assumes is in
its row. The classes update the
maps, buffers and vectors in place, as the sources do, and each method is proved
against a function of the old state; the laws are proved about that function.
Counters are 64-bit and wrap as they do in the sources; powers and shares are
real numbers.

| module | models |
|---|---|
| `Kernel` | maps, handlers (`Tracker`), one step and whole runs |
| `Accounting` | conservation of charged time over every run |
| `Timekeeping` | charged time against the clock and the real schedule |
| `SampleTicks` | tick independence, and tasks on several CPUs at once |
| `Capacity` | when the maps have room |
| `PidReuse` | what a new process with an old number inherits |
| `IdleDetection` | what idle and activation events mean |
| `EventRouting` | from the ring buffer to the sockets |
| `Estimator` | the background estimator, against its documentation |
| `Distribution` | background power over domains and over cycles |
| `SocketPower` | power of a socket and its domains, the socket in place |
| `RaplCounter` | energy from a wrapping counter |
| `RecordBuffer` | record buffers as sliding windows |
| `CorePower` | from socket power to core power |
| `ProcessHistory` | `ProcessTracker` as a map of sliding windows |
| `Attribution` | from core power to process power, and the power bound |
| `EndToEnd` | the bound from energy counters and tracked records to process energy |
| `Machine`, `Sorting` | machine integers, sums, the stable sort |

## Assumptions

The kernel provides the semantics of per-CPU hash maps, which `Kernel` states in
one place: a key owns a slot per CPU, a lookup sees the slot of the calling CPU,
inserting a new key zeroes the others and fails exactly when the map is full,
and removing a key removes all its slots. An array map lookup succeeds exactly
below its size.

Statements about the clock (`Timekeeping`) assume that the clock does not go
back, that handlers run on the CPU of the task they are about and that no kernel
read fails; a switch whose reads fail would leave the schedule unknown. They do
not assume that the maps have room or that a task is on one CPU only: what goes
wrong otherwise is counted in four kinds of slips, and `SampleTicks`, `Timekeeping.NothingShared` and
`Capacity` say when there are none. Conservation needs no assumption at all.

## Where the code departs from its documentation

The model follows the code.

* `docs/overview.md:231-240` says that the background estimator keeps the lowest
  power seen. It does not: it compares powers that are already net of its own
  estimate. `Estimator.AsDocumentedExactly` says on which runs it does, in
  terms of the measurements alone, and `Estimator.KeepsLowestOfOneKind` for
  positive powers and one kind of events: every later power must be at least twice
  the first. `Estimator.IdleOscillates` follows a machine at constant power.
* Background power is split over domains in proportion to the socket's net
  power, not to the sum of the domains' powers as in `docs/json.md:88-94`.
  `Distribution.SharesAsDocumented` says exactly when all shares are the documented
  ones, `ShareAsDocumented` when that of one domain is, `SharesNotAsDocumented` has
  two failing inputs, and `SharesSum` says when the shares still add up.
* Without background power the shares of an earlier cycle stay in place.
  `Distribution.StoredMeetsBackground` says when the stored shares sum to the
  present background, and `Distribution.SharesOutlive` follows a machine at
  constant power, whose domains have its whole power taken off in every cycle
  although every second one has no background.
* The time between a thread's exit and the next event on its CPU is charged to
  nobody
  (`Timekeeping.ExitTailUncharged`); `Timekeeping.CpuTimeIsBusyTime` says when
  CPU_TIME is the real busy time nevertheless.
* A process with threads on several CPUs is charged wrongly when one of them
  leaves its CPU: `SampleTicks.NextCharge` says how much, and exactly when.
* The cleanup loop of most buffers removes one record less than it counted
  (`scaphandre/src/sensors/mod.rs:1494`), so buffers settle above
  `buffer_max_kbytes`: `RecordBuffer.BufferWithinLimit` says that the limit is kept
  only as long as nothing had to be removed, and `RecordBuffer.BufferIsWindow` gives
  the size at which buffers settle. For these buffers, a limit of 0 is the only one
  that costs a power difference (`RecordBuffer.KeepsLastTwo`); the buffer of
  CPU_TIME records needs a limit above one record (`RecordBuffer.CpuTimesKeepTwo`).
  The topology compares only the low 16 bits of the size;
  `RecordBuffer.TopologyWindowExactly` says when that matters.
* `drop_empty_process_records_vectors` leaves some empty vectors;
  `ProcessHistory.DropsAll` says when it leaves none.
* A process limit of 0 records keeps one; a limit of at least 1 is always kept
  (`ProcessHistory.HistoryWindowExactly`).
* A wrap of a CPU_TIME counter between two samples loses one nanosecond
  (`Attribution.CounterDeltaIsGain`), and then processes can get more than a whole
  core: `Attribution.CoreSharesExactly` says exactly when, and
  `Attribution.WrapOvershoots` is an instance. Wraps before the samples do no harm.
* Where no maximum of an energy counter can be read, the largest u64 stands in for
  it, and every wrap overstates the energy (`RaplCounter.MissingMaximum`).
* A state tick stops at the first CPU that has no socket, so CPUs numbered above
  an offline one are not looked at (`IdleDetection.ReportedOnHost`).
* `TID_TO_TGID` and the interval of 2 ms appear in the documentation only.

## Model

| member | source | states |
|---|---|---|
| Kernel.Tracker.constructor | scaphandre-ebpf/src/main.rs:31-48 | all maps start empty or zero, and the CPU table as user space filled it |
| Kernel.Tracker.Charge | scaphandre-ebpf/src/main.rs:73-82 | the calling CPU's slot of the task and the CPU's counter advance by the interval, and no other slot or counter changes; a full map refuses a new task, which leaves PID_TIMES as it is |
| Kernel.CreditedSlot | scaphandre-ebpf/src/main.rs:74-78 | a charge advances one slot, leaves all others alone, and gives a new task zero on all other CPUs; a refused one changes nothing |
| Kernel.Tracker.TrySchedSwitch | scaphandre-ebpf/src/main.rs:58-90 | the task that leaves is charged once and its start time dropped, the task that arrives gets one; a failed kernel read changes nothing |
| Kernel.Tracker.SampleTick | scaphandre-ebpf/src/main.rs:93-119 | a running task is charged and its start time moved, or recorded if there was none; the idle task is left alone |
| Kernel.Tracker.TryProcessExit | scaphandre-ebpf/src/main.rs:194-225 | the dying thread is charged, and the task leaves both maps with its last thread; unreadable arguments change nothing |
| Kernel.Tracker.CpuStateTick | scaphandre-ebpf/src/main.rs:123-184 | exactly the specified reports are added to the ring and the snapshot becomes CPU_TIME on every CPU |
| Kernel.Tracker.CountActivePerSocket | scaphandre-ebpf/src/main.rs:124-145 | the array ends up with each socket's number of active CPUs, and u32::MAX for sockets without CPUs, despite the early break |
| Kernel.Tracker.EmitReports | scaphandre-ebpf/src/main.rs:147-175 | reports go out socket by socket up to the first without CPUs, as far as the ring has room |
| Kernel.FirstUnmapped | scaphandre-ebpf/src/main.rs:125-133 | the loop ends at the first CPU that is mapped to no socket |
| Accounting.Conservation | scaphandre-ebpf/src/main.rs:58-225 | after any run since boot CPU_TIME of a CPU is the sum of its PID_TIMES slots plus what left with dead processes plus what a full map refused: modulo 2^64 always, exactly while the total fits 64 bits |
| Accounting.BooksBalance | scaphandre-ebpf/src/main.rs:58-225 | along any run from any state the ledger of a CPU grows by the time charged to it and the slots mirror it modulo 2^64 |
| Accounting.BookedConserves | scaphandre-ebpf/src/main.rs:71-84 | one event books each nanosecond it charges exactly once, and an exit only moves what is booked |
| Accounting.CpuTimeIsGain | scaphandre-ebpf/src/main.rs:80-82 | CPU_TIME is the time charged over the run, modulo 2^64 |
| Accounting.WrappedTotal | scaphandre-ebpf/src/main.rs:74-78 | slots that wrap one by one still add up modulo 2^64 |
| Accounting.NothingLost | scaphandre-ebpf/src/main.rs:74-78 | on any run, what is lost of a CPU's time is what PID_TIMES refused: nothing if and only if no charge of the CPU is refused |
| Accounting.IdleNeverCharged | scaphandre-ebpf/src/main.rs:69-71 | PID_TIMES never holds key 0 |
| Timekeeping.CpuTimeBalance | scaphandre-ebpf/src/main.rs:58-225 | on any run since boot, with tasks on any number of CPUs and full maps, CPU_TIME, what is pending, what was not seen and what lost its start make the real busy time and start times put back as 0: modulo 2^64 always, exactly while the time charged fits |
| Timekeeping.WallClock | scaphandre-ebpf/src/main.rs:58-225 | on a CPU whose tasks no other CPU disturbs, CPU_TIME never exceeds the real busy time, nor the time elapsed since tracing began, and falls short of it by exactly what is pending or was not seen |
| Timekeeping.CpuTimeIsBusyTime | scaphandre-ebpf/src/main.rs:58-225 | when moreover no start time of the CPU is refused, CPU_TIME, what is pending and what ran before the CPU's first event or between an exit and the next event there are the real busy time; without the latter it is so if and only if no time passes there |
| Timekeeping.UnseenIsDark | scaphandre-ebpf/src/main.rs:194-217 | time that is not seen passes before the CPU's first event, or between an exit and the next event there, or after a refused start |
| Timekeeping.ExitTailUncharged | scaphandre-ebpf/src/main.rs:204-217 | a task switched on, exiting and switched off is charged up to its exit only, at any times |
| Timekeeping.BookedIsRunTime | scaphandre-ebpf/src/main.rs:58-225 | on any run since boot, what a process is given on a CPU, what is pending and its slips add up to the time it has really run there since its number was last given up |
| Timekeeping.PidTimesAreRunTimes | scaphandre-ebpf/src/main.rs:58-225 | on such a CPU a process's slot and what is pending are the time it has really run there since its number was last given up, but for what was not seen or was refused; with its start times kept exactly that time if and only if it never ran in the dark and every charge was taken |
| SampleTicks.TickIndependence | scaphandre-ebpf/src/main.rs:69-119 | from switch-on to switch-off CPU_TIME advances by the difference of the two times, modulo 2^64, and the task's slot by that less what PID_TIMES refused, whatever sample ticks fall between and whatever happens on other CPUs short of taking the task's start time away |
| SampleTicks.NextCharge | scaphandre-ebpf/src/main.rs:71-87 | for all times and CPUs: the next charge of a task is the time since its last event on the CPU if other CPUs have left its start time alone, and otherwise nothing, or the whole clock if one has put it back; it is right if and only if they have, or the instants coincide |
| SampleTicks.TwoCpusOvercharge | scaphandre-ebpf/src/main.rs:86-116 | a task put on a second CPU without a start time is charged the whole clock on the first, whatever it shows |
| SampleTicks.StartsOnceMore | scaphandre-ebpf/src/main.rs:71-115 | which events leave a task with a start time |
| Capacity.FullMapRefuses | scaphandre-ebpf/src/main.rs:14-35 | a map refuses a new task if and only if it has 32768 already, and is then left as it is |
| Capacity.RoomKeepsAll | scaphandre-ebpf/src/main.rs:14-35 | with fewer than 32768 tasks in each map at every instant no start time and no charge is refused |
| Capacity.FewTasksKeepAll | scaphandre-ebpf/src/main.rs:14-35 | nor on any run with at most 32768 different tasks |
| Timekeeping.PendingStep | scaphandre-ebpf/src/main.rs:99-116 | one event turns busy time into charged or pending time, up to the slips it makes |
| Timekeeping.UndisturbedSlips | scaphandre-ebpf/src/main.rs:71-87 | when no other CPU takes away or puts back a start time of a CPU's task, none slips |
| Timekeeping.NothingShared | scaphandre-ebpf/src/main.rs:71-87 | and no other CPU does while no task is on two CPUs at once |
| Timekeeping.ChargedIsBusy | scaphandre-ebpf/src/main.rs:58-225 | over any run from any state, the time charged to a CPU and what is pending are its real busy time, up to the slips |
| Timekeeping.BusyWithinElapsed | scaphandre-ebpf/src/main.rs:59-60 | busy intervals of a CPU are disjoint: they fit into the time elapsed, and a process's into the CPU's |
| PidReuse.ReuseStartsFromZero | scaphandre-ebpf/src/main.rs:194-225 | after the last thread of a process exited, whatever its threads and all others do: a later switch-off of it charges nothing if and only if no tick or switch-on left it a start time since that was last taken away; its number is then absent from PID_TIMES, and zero on all CPUs, if and only if no late charge was taken since its last burial; and without any new start time nothing is charged to it at all |
| PidReuse.QuietNeverStarts | scaphandre-ebpf/src/main.rs:86-116 | no start time is left when the process is neither sampled nor switched on after its exit, as when its threads only exit and leave their CPUs |
| PidReuse.AfterBurial | scaphandre-ebpf/src/main.rs:71-116 | where a number erased from both maps is in them again, after any run |
| PidReuse.FirstChargeIsFresh | scaphandre-ebpf/src/main.rs:74-78 | the first charge of an absent number leaves zero on every other CPU |
| IdleDetection.TickMeaning | scaphandre-ebpf/src/main.rs:123-175 | a tick reports each socket at most once and in order: idle iff the tick reaches it and no CPU of it is active, activated iff exactly one is |
| IdleDetection.EventMeaning | scaphandre-ebpf/src/main.rs:123-184 | between any two consecutive ticks of any run: an idle event iff no CPU of the socket gained time since the former, an activation event iff exactly one did, nothing otherwise |
| IdleDetection.CountsSockets | scaphandre-ebpf/src/main.rs:134-141 | the counting loop computes the sizes of the sets of the socket's CPUs and of its active CPUs |
| IdleDetection.PopulateCpuToSocketMap | scaphandre/src/sensors/mod.rs:432-455 | every online CPU below 256 gets its package plus one, all others 0; fails iff a package cannot be read |
| IdleDetection.ReportedOnHost | scaphandre/src/sensors/mod.rs:447-451 | the +1 of user space and the -1 of the handler cancel; a package is reached iff it and all numbered below it have a CPU before the first offline one |
| EventRouting.Topology.RefreshActivationIdleRecords | scaphandre/src/sensors/mod.rs:416-422 | behind what waited under an id comes every drained event of that id, as often as it was drained and in order, and no other |
| EventRouting.Topology.GetActivationIdleRecords | scaphandre/src/sensors/mod.rs:425-427 | returns all that waits for a socket, clears it, and leaves other sockets alone |
| EventRouting.Topology.RouteEvents | scaphandre/src/sensors/mod.rs:557-566 | one refresh hands the socket of an id every event that waited or was drained for it, as often as it occurs and in order, and nothing else; all events of ids without a socket stay, and nothing else does |
| EventRouting.ExactlyOnce | scaphandre/src/sensors/mod.rs:557-568 | over any number of refreshes every socket is handed exactly the drained events of its id, in order, and none stays behind |
| EventRouting.UnknownIdsWait | scaphandre/src/sensors/mod.rs:416-427 | events of ids no socket has are all kept, in order |
| EventRouting.EveryEventOnce | scaphandre/src/sensors/mod.rs:557-568 | over any number of refreshes, each event is handed to the socket of its id as often as it was drained, at increasing positions of what was drained, and to no other; of an id without a socket it waits as often |
| EventRouting.ForCounts | scaphandre/src/sensors/mod.rs:418-420 | the events of an id are all those that carry it, whatever their type |
| EventRouting.RingConserves | scaphandre-ebpf/src/main.rs:152-173 | over any run, what was read and what is still in the ring is what the ticks emitted, in order |
| EventRouting.TickToSocket | scaphandre/src/bpf.rs:99-111 | from the handlers to a socket: handed events and those still in the ring are all events the ticks emitted for it, in order and event by event as often |
| CorePower.ProportionsSumToOne | scaphandre/src/sensors/mod.rs:483-490 | each core's proportion times the sum of the coefficients is its own coefficient, so that proportions sum to 1, or all are 0, whatever the coefficients; of non-negative coefficients they lie in [0,1] |
| CorePower.CoefIs | scaphandre/src/sensors/mod.rs:466-481 | a coefficient is the square of APERF by MPERF times one plus the instructions per cycle, and 0 without metrics or for a core that did not run |
| CorePower.CoefAtOnePoint | scaphandre/src/sensors/mod.rs:473-473 | its value at one point |
| CorePower.CoefNonNegative | scaphandre/src/sensors/mod.rs:466-481 | a coefficient is non-negative if and only if the core has no metrics, did not work, or its instructions per cycle are at least -1 |
| CorePower.CoefsNonNegative | scaphandre/src/sensors/mod.rs:466-481 | all coefficients of a socket with such metrics are non-negative, sorted as they are |
| CorePower.CorePowersConserve | scaphandre/src/sensors/mod.rs:494-507 | core powers sum to the power of the CPU domain, or to 0 if the coefficients do; on a sane socket none is negative |
| CorePower.GetProportionalCoreDiffPower | scaphandre/src/sensors/mod.rs:1086-1100 | the merged list is all cores' powers in the order of their ids, and missing iff a socket has no power |
| CorePower.HostListsAlign | scaphandre/src/sensors/mod.rs:1078-1100 | the core list and the power list, sorted independently, are two projections of one list; with unique ids position i is the i-th smallest id in both |
| CorePower.HostPowersProportional | scaphandre/src/sensors/mod.rs:1086-1100 | at every position of the host's lists, the power times the coefficient sum of the core's socket is that very core's coefficient times the socket's power |
| CorePower.HostCoresAll | scaphandre/src/sensors/mod.rs:1078-1082 | the host's list has every core of every socket, as often as it is there |
| CorePower.SortProjects | scaphandre/src/sensors/mod.rs:1094-1094 | sorting by id commutes with dropping part of the payload |
| CorePower.SortRanks | scaphandre/src/sensors/mod.rs:1080-1080 | items of distinct ids end up in strictly increasing order |
| CorePower.HostPowersConserve | scaphandre/src/sensors/mod.rs:1086-1100 | the host's core powers sum to the power of the sockets whose coefficients do not sum to 0; on sane sockets none is negative |
| EndToEnd.SeriesEnergyBound | scaphandre/src/sensors/mod.rs:1239-1249 | over any series of refreshes of any run since boot, as long as no CPU_TIME counter wraps between two refreshes and energy counters announce at most their width, all energy attributed to processes is at most what the sockets really consumed from the first refresh to the last |
| EndToEnd.ProcessEnergyBound | scaphandre/src/sensors/mod.rs:1239-1249 | between two refreshes of any run since boot between which no CPU_TIME counter wraps, however often they did before: the power attributed to all processes tracked over both and not retired in between, taken from the tracker's records, the CPU_TIME buffer and the energy counters, over the time between the counter readings, is at most the energy those counters measured |
| EndToEnd.BufferedDiffIsLast | scaphandre/src/sensors/mod.rs:649-671 | the CPU_TIME difference taken from the cleaned buffer is that of the last two records read |
| EndToEnd.AttributedPowerExactly | scaphandre/src/sensors/mod.rs:1239-1249 | from one refresh to the next, through tracker, buffer and counters, the power attributed is each core's power times the part of its charged time that the processes gained |
| EndToEnd.ChargedFrom | scaphandre/src/sensors/mod.rs:1946-1959 | a socket with a CPU domain takes the power of that domain, even when it has none yet, and one without that of the package |
| EndToEnd.NetAlmostEnergy | scaphandre/src/sensors/mod.rs:1924-1938 | net power, background and one microwatt more make more than the energy of the interval |
| EndToEnd.MeasuredWithinConsumed | scaphandre/src/sensors/mod.rs:1918-1922 | and that is at most the energy really consumed, if the counters announce at most their width |
| EndToEnd.TrackedIsAttributed | scaphandre/src/sensors/utils.rs:404-428 | what the tracker's two latest records of each process say is what the two samples of the maps say |
| EndToEnd.ActivePowerWithinEnergy | scaphandre/src/sensors/mod.rs:1946-1959 | the net power of CPU domains, or packages without one, makes at most the measured energy of any time within the interval |
| EndToEnd.NetWithinEnergy | scaphandre/src/sensors/mod.rs:1924-1938 | cut to microwatts and with any background taken off, power times interval is at most the energy of the interval |
| Attribution.EndToEndPowerBound | scaphandre/src/sensors/mod.rs:1239-1249 | for any run since boot sampled at two instants between which no CPU_TIME counter wraps, the powers attributed to all processes that are in both samples and were not retired in between sum to at most the core powers, which sum to what the sockets consumed |
| Attribution.AttributedExactly | scaphandre/src/sensors/mod.rs:1239-1249 | between two samples without a wrap, what is attributed to a list of processes is the sum over the cores of the core's power times the part of its charged time that they gained: neither more nor less |
| Attribution.AllAttributed | scaphandre/src/sensors/mod.rs:1239-1249 | processes that gained all that the cores were charged get all the power of the cores with time |
| Attribution.CpuTimeDiffExactly | scaphandre/src/sensors/mod.rs:649-671 | the CPU_TIME difference is there if and only if some CPU that is read gained time, and has for each CPU exactly what it gained |
| Attribution.AdvancesFit | scaphandre/src/sensors/utils.rs:404-428 | from any state, if less than 2^64 ns are charged to a core between two samples, the processes' advances on it sum to at most that, and the difference of its CPU_TIME readings is that, or one less if the counter wrapped in between |
| Attribution.AdvancesAreGrowth | scaphandre/src/sensors/utils.rs:404-428 | the wrapping differences of the processes' slots are what they gained between the samples, however often the slots wrapped before |
| Attribution.CoreSharesExactly | scaphandre/src/sensors/mod.rs:649-671 | then the shares of the core stay within 1 if and only if the counter did not wrap in between, or the processes together gained less than the core was charged, or fewer than two of them gained anything |
| Attribution.WrapOvershoots | scaphandre/src/sensors/mod.rs:649-671 | a counter that wraps and two processes that get one and a half cores |
| Attribution.AmountsOverRun | scaphandre-ebpf/src/main.rs:58-225 | over any run distinct processes together gain at most what the CPU was charged |
| Attribution.SharesWithinOne | scaphandre/src/sensors/mod.rs:1123-1137 | for any deltas, the clamped shares of one core sum to at most 1 if and only if the core has no time, the deltas fit into it, or at most one process used it |
| Attribution.RowsBounded | scaphandre/src/sensors/mod.rs:1240-1249 | summed process by process or core by core, shares that leave no core overbooked give out at most the cores' power |
| Attribution.CounterDeltaIsGain | scaphandre/src/sensors/mod.rs:649-671 | the difference of two readings is the time gained, one less when the counter wrapped |
| ProcessHistory.ProcessTracker.CleanOldProcessRecords | scaphandre/src/sensors/utils.rs:441-454 | sorting and popping in turn is the same as sorting once and keeping the most recent |
| ProcessHistory.ProcessTracker.AddProcessRecord | scaphandre/src/sensors/utils.rs:366-392 | keeps the index, extends the history of that process (or starts it anew when the executable changed), and changes no other history |
| ProcessHistory.ProcessTracker.RefreshProcs | scaphandre/src/sensors/mod.rs:591-610 | every history is what the records of the refresh, one after another, make of it |
| ProcessHistory.ProcessTracker.FindRecords | scaphandre/src/sensors/utils.rs:458-469 | returns the one vector of the process, nothing iff there is none |
| ProcessHistory.ProcessTracker.GetProcessName | scaphandre/src/sensors/utils.rs:714-726 | never finds two vectors; the name is that of the most recent record |
| ProcessHistory.ProcessTracker.CleanTerminatedProcessRecordsVectors | scaphandre/src/sensors/utils.rs:835-869 | a process that is not known or has status Stop has no history afterwards, every other has the one it had, and the index holds |
| ProcessHistory.ProcessTracker.DropEmptyProcessRecordsVectors | scaphandre/src/sensors/utils.rs:872-883 | removing while counting is one pass that skips the successor of each vector it removes |
| ProcessHistory.HistoryIsWindow | scaphandre/src/sensors/utils.rs:366-392 | over any series of additions and cleanings in time order, a history is exactly the last max records of the process, newest first, since it was last cleared or changed its executable |
| ProcessHistory.ClearedAtCleanup | scaphandre/src/sensors/utils.rs:841-864 | a process stopped or unknown at a cleanup has exactly the window of the records added since, whatever there was before |
| ProcessHistory.LogOfAdds | scaphandre/src/sensors/utils.rs:377-384 | records of one process under one executable make up its log, latest first |
| ProcessHistory.LogRestarts | scaphandre/src/sensors/utils.rs:377-381 | a record under another executable starts it anew |
| ProcessHistory.HistoryWindowExactly | scaphandre/src/sensors/utils.rs:366-392 | histories are those windows on every run if and only if the limit is at least 1 |
| ProcessHistory.LatestTwo | scaphandre/src/sensors/utils.rs:404-428 | when two records of a process under one executable are the latest added for it, they are the ones its delta is taken from, whatever else happened to the tracker |
| ProcessHistory.ProcessTracker.GetPerCoreCpuTimeDelta | scaphandre/src/sensors/utils.rs:404-428 | a difference is there if and only if the two latest records both have times, of equally many CPUs, and is then last less previous for each CPU, modulo 2^64 |
| ProcessHistory.DropsAll | scaphandre/src/sensors/utils.rs:872-883 | the pass leaves no empty vector if and only if no two are adjacent and the last is not the only empty one |
| ProcessHistory.DroppedKeeps | scaphandre/src/sensors/utils.rs:875-880 | the pass loses and reorders no vector that is not empty |
| ProcessHistory.DroppedIndexed | scaphandre/src/sensors/utils.rs:875-880 | the pass keeps the index and invents no vector |
| RecordBuffer.Buffer.RefreshRecord | scaphandre/src/sensors/mod.rs:1453-1473 | a record is appended if one could be read, and a buffer that is not empty is cleaned |
| RecordBuffer.Buffer.CleanOldRecords | scaphandre/src/sensors/mod.rs:1477-1502 | removes the oldest records, one less than exceed the limit, and nothing else |
| RecordBuffer.Buffer.TopologyRefreshRecord | scaphandre/src/sensors/mod.rs:117-136 | the same for the topology's own records |
| RecordBuffer.Buffer.TopologyCleanOldRecords | scaphandre/src/sensors/mod.rs:140-166 | compares the low 16 bits of the size, but removes by the whole size |
| RecordBuffer.Buffer.RefreshCpuTimeRecord | scaphandre/src/sensors/mod.rs:613-644 | appends a record and removes the oldest that exceed the limit, counting from 0 |
| RecordBuffer.SurplusLeaves | scaphandre/src/sensors/mod.rs:2032-2049 | a cleanup leaves less than the limit and two records, and if it removes any at least the limit and one |
| RecordBuffer.KeepsLastTwo | scaphandre/src/sensors/mod.rs:2329-2344 | a cleanup leaves the last two records, and so every power difference, alone if and only if the limit is not 0 |
| RecordBuffer.BufferIsWindow | scaphandre/src/sensors/mod.rs:1453-1502 | after any series of refreshes the buffer is exactly the last records read, as many as the window holds |
| RecordBuffer.ReadingsAre | scaphandre/src/sensors/mod.rs:1454-1457 | what counts as read is exactly what could be read, in order |
| RecordBuffer.LimitInBytes | scaphandre/src/sensors/mod.rs:1485-1485 | the limit is 1000 bytes for each kilobyte if and only if those are at most 65 |
| RecordBuffer.BufferWithinLimit | scaphandre/src/sensors/mod.rs:1475-1502 | after any series of refreshes the buffer is within its limit if and only if all records ever read would be |
| RecordBuffer.TopologyIsWindow | scaphandre/src/sensors/mod.rs:117-166 | if the low 16 bits of the size of one record more than the window exceed the limit, the truncation changes nothing on any run |
| RecordBuffer.TopologyWindowExactly | scaphandre/src/sensors/mod.rs:149-150 | the topology's buffer is that window on every run if and only if they do, for any record size and limit |
| RecordBuffer.TopologyLossless | scaphandre/src/sensors/mod.rs:228-228 | with the limit a topology is created with, it is the window and the size is never cut, for every record size up to 21 KiB |
| RecordBuffer.CpuTimesAreWindow | scaphandre/src/sensors/mod.rs:629-644 | the CPU_TIME buffer is a sliding window on any run, unless its limit is a whole number of records |
| RecordBuffer.CpuTimeWindowExactly | scaphandre/src/sensors/mod.rs:635-641 | and it is one on every run only then |
| RecordBuffer.CpuTimesKeepTwo | scaphandre/src/sensors/mod.rs:629-653 | it keeps its last two records, and so every difference, on every run if and only if its limit is above one record |
| RaplCounter.MeasuredEnergy | scaphandre/src/sensors/mod.rs:1918-1922 | over any series of readings within the announced maximum, the measured energy is the true energy short of the counter's width minus that maximum for each wrap, which overstates it if the maximum is the larger |
| RaplCounter.MissingMaximum | scaphandre/src/sensors/mod.rs:1573-1576 | with u64::MAX in place of a missing maximum every wrap overstates the energy by what the counter's width lacks of it |
| RaplCounter.ExactEnergy | scaphandre/src/sensors/mod.rs:2396-2400 | it is exact if and only if the counter did not wrap or announces its width |
| RaplCounter.OneWrap | scaphandre/src/sensors/mod.rs:1918-1922 | an interval of less than one width wraps the counter at most once, exactly when the reading goes down |
| RaplCounter.DifferenceIs | scaphandre/src/sensors/mod.rs:1918-1922 | the difference for every three values, a reading beyond the announced maximum included |
| SocketPower.CpuSocket.constructor | scaphandre/src/sensors/mod.rs:1563-1580 | buffers start empty and the domains as given |
| SocketPower.CpuSocket.ReadActivationIdleRecord | scaphandre/src/sensors/mod.rs:1652-1705 | a new estimate only when there are events and a power; otherwise none |
| SocketPower.CpuSocket.RefreshActivationIdleRecords | scaphandre/src/sensors/mod.rs:1645-1649 | the estimate becomes that after one more cycle, and old estimates stay in the buffer |
| SocketPower.CpuSocket.DistributeBackgroundToDomains | scaphandre/src/sensors/mod.rs:1620-1642 | each domain gets its share of the background by the powers before any was changed; with no background nothing changes |
| SocketPower.CpuSocket.RefreshRecord | scaphandre/src/sensors/mod.rs:1453-1536 | records slide and the estimate survives the cleaning of its buffer |
| SocketPower.CpuSocket.RefreshDomains | scaphandre/src/sensors/mod.rs:572-575 | each domain gets its own reading into its own buffer, and keeps its share |
| SocketPower.DomainsHoldTheirReadings | scaphandre/src/sensors/mod.rs:566-575 | over any number of refreshes each domain holds the window of its own readings, and the share last stored for it |
| SocketPower.PowersAre | scaphandre/src/sensors/mod.rs:1628-1632 | each domain counts with its own net power, and with 0 for want of two records |
| SocketPower.CpuSocket.Refresh | scaphandre/src/sensors/mod.rs:566-575 | a refresh is one cycle of the estimator, judged by the records before it and by whether an event of either type is among those handed over; estimate and stored shares are always those of the history of cycles, and socket and domains get their readings |
| SocketPower.MicrowattsAre | scaphandre/src/sensors/mod.rs:1924-1926 | power over the interval makes at most its energy, and one microwatt more would make more, unless the cast saturates |
| SocketPower.NoMicrowatts | scaphandre/src/sensors/mod.rs:1924-1926 | power over an interval of no length or less |
| SocketPower.NetPowerIs | scaphandre/src/sensors/mod.rs:1900-1942 | net power is that of the last two records less the background, down to 0, and there is none before the second record |
| Estimator.EstimateStep | scaphandre/src/sensors/mod.rs:1669-1690 | a value rises only from 0 and only up to the measured power |
| Estimator.EstimateIsLowestNet | scaphandre/src/sensors/mod.rs:1652-1705 | after any run, an estimate other than 0 is the lowest power net of the background before each cycle, over the cycles with such events since it was last 0, and attained at one of them; it is 0 if and only if there was no such cycle or the last one left nothing |
| Estimator.FallsUntilZero | scaphandre/src/sensors/mod.rs:1669-1690 | over any run a value does not rise as long as it has not been 0 |
| Estimator.BackgroundIsObserved | scaphandre/src/sensors/mod.rs:1882-1897 | over any run the background is within a power that was measured |
| Estimator.NetPlusBackground | scaphandre/src/sensors/mod.rs:1930-1938 | net power and background add up to the measured power unless the background exceeds it |
| Estimator.AsDocumentedExactly | scaphandre/src/sensors/mod.rs:1652-1705 | on any run with idle and activation events, both estimates are the lowest powers measured after every cycle if and only if every measurement is at least its kind's lowest above the larger of both lowest, or falls under the rules for 0; then the background is as documented too |
| Estimator.KeepsLowestExactly | scaphandre/src/sensors/mod.rs:1661-1690 | idle or activation estimate alone: the lowest measured power after every cycle if and only if every cycle spares it, given what is subtracted |
| Estimator.KeepsLowestOfOneKind | scaphandre/src/sensors/mod.rs:1661-1690 | for positive powers and one kind of events, if and only if every later power is at least twice the first |
| Estimator.LowestIsMinimum | scaphandre/src/sensors/mod.rs:1669-1690 | the reference is the real minimum of the measured powers, none iff nothing was measured |
| Estimator.IdleOscillates | scaphandre/src/sensors/mod.rs:1652-1705 | at constant power with an idle event every cycle the estimate is that power and 0 by turns, for any number of cycles |
| Distribution.SharesAsDocumented | scaphandre/src/sensors/mod.rs:1631-1641 | all shares of a cycle are the documented ones if and only if the domains' powers add up to the socket's power left, or it has none left and they are all equal |
| Distribution.ShareAsDocumented | scaphandre/src/sensors/mod.rs:1633-1640 | one domain's share is the documented one if and only if, while the socket has power left, the domains have some and this one has none or all of them the socket's; otherwise, the domains have none or this one has their average |
| Distribution.SharesNotAsDocumented | scaphandre/src/sensors/mod.rs:1633-1640 | an idle socket with unequal domains and a busy one with idle domains get other shares than documented |
| Distribution.SharesSum | scaphandre/src/sensors/mod.rs:1631-1641 | the shares sum to background times domain powers over socket power: at most the background iff the domains' powers are at most the socket's, exactly it iff they are equal |
| Distribution.SharesInProportion | scaphandre/src/sensors/mod.rs:1635-1640 | each domain's share is in proportion to its own power while the socket has power left, and even otherwise |
| Distribution.EvenSplit | scaphandre/src/sensors/mod.rs:1638-1640 | split evenly the shares sum to the background, and what domains subtract falls short of it by less than one microwatt each |
| Distribution.TruncationLoss | scaphandre/src/sensors/mod.rs:2406-2406 | what domains subtract, cut to whole microwatts, falls short of their shares of any kind by less than one each |
| Distribution.TruncateFalls | scaphandre/src/sensors/mod.rs:2406-2406 | the cast cuts off less than one, is 0 below 0 and saturates at 2^64 |
| Distribution.SharesFit | scaphandre/src/sensors/mod.rs:1635-1640 | shares lie between 0 and the background while no domain has more power than its socket, so that the cast does not saturate |
| Distribution.StoredSum | scaphandre/src/sensors/mod.rs:1620-1642 | over any cycles the stored shares are those of the last cycle with background power, and sum to what that gave |
| Distribution.StoredMeetsBackground | scaphandre/src/sensors/mod.rs:1625-1642 | they sum to the present background if and only if, with background power, the domains' powers add up to the socket's or it has none left, and, without, there never was any or no domain had power when there last was |
| Distribution.SharesOutlive | scaphandre/src/sensors/mod.rs:1625-1627 | a machine at constant power with an idle event every cycle has that power taken off its domains in every cycle, although the background is 0 in every second one |

## Left out

- Loading and attaching the eBPF programs, ring buffer bytes, performance counters, MSR, sysfs, `/proc` and sysinfo: what they deliver are inputs.
- Preemption inside a handler, and the time between reading PID_TIMES and CPU_TIME in one refresh: handlers and samples are atomic.
- Exporters, containers and Kubernetes, the command line, the Windows service and driver, unit conversion.
- `powercap_rapl.rs` and `msr_rapl.rs`: I/O around short sums.
- Decimal strings inside records, and values that do not parse: records hold numbers.
- Rounding of floating point: powers and shares are reals, and the f32 quotient of a cleanup is an integer division, which agrees with it for buffers below 2^24 bytes.
- Kernel.Tracker.Charge: the three handlers spell out these lines, in two orders; here they are one method, called where they stand.
- Kernel.Tracker.TrySchedSwitch: kernel reads that fail are inputs, and the error code is not kept.
- CorePower.CoefNonNegative: only for metrics whose MPERF ran (`Defined`), because otherwise the source computes with infinite or undefined values.
- CorePower.GetProportionalCoreDiffPower: the power of a socket is a parameter; `EndToEnd.MeteredSocket` says which counter it comes from. Which domain is the CPU domain is an input.
- Distribution.TruncationLoss: not for shares of 2^64 microwatts and more, where the cast saturates and the loss has no bound.
- Attribution.EndToEndPowerBound: about the powers attributed from eBPF times; the fallback to the operating system's shares (`scaphandre/src/sensors/mod.rs:1145-1153`) is not part of the model.
- Timekeeping.ChargedIsBusy: kernel reads that fail are excluded, because the schedule would not be known after them.
- IdleDetection.EventMeaning: a CPU whose charges sum to a multiple of 2^64 nanoseconds between two ticks counts as idle, as in the source.
- ProcessHistory.ProcessTracker.GetProcessName: the two panics of the source are results of the method.
- RecordBuffer.Buffer.CleanOldRecords: a size is a parameter, as `size_of_val` of a record depends on the platform; the debug output of the topology is left out.
- SocketPower.CpuSocket.RefreshRecord: uses the function that `RecordBuffer.Buffer.CleanOldRecords` is proved against instead of a second copy of its loop, and the time stamps of estimates are left out.
- Host totals of idle and activation power, statistics buffers, `get_core_metrics_delta`.
- `get_top_consumers`, filtering by regular expression and `get_cpu_usage_percentage`: heuristics without a specification.

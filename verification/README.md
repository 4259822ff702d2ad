# Executors of the ados runtime: a verified model

This project models the executors of the ados runtime and proves what they do, for all inputs, all
configurations and all interleavings. `dafny verify dfyconfig.toml` checks everything.

- **The hierarchical timing wheel** (`TimeWheelExecutor`). `WheelArithmetic` and `TimingWheel` hold the
  mixed-radix arithmetic and the data; `TimeWheelSpec` gives every step of the code *as it is written*
  as a function on values, and `TimeWheelClock` adds the timer loop's sleeps; `TimeWheelExecutor` holds
  the classes whose methods do these steps in place. `TimeWheelSchedule` proves, for any sizes and any
  run, at which tick each accepted entry comes out, and when that is the tick it was meant for;
  `TimeWheelDeadlines` turns ticks into deadlines; `TimeWheelRange` says exactly which insertions make
  a run index outside a wheel, `TimeWheelLosses` which entries are destroyed, and at which tick, and
  `TimeWheelOrder` in which order the entries of a tick come out. `TimeWheelHistory` reads the state off
  the past: what a call records, which lists have been counted, when the timer loop ends.
  `TimeWheelFindings` gives runs that fail.
  `RepairedTimeWheel` is a separate, *intended* form with four named repairs; there the wheel
  refines a plain map from ticks to multisets of entries. Nothing in it is claimed of the shipped code.
- **The guard thread** (`GuardThreadExecutor`). `GuardThread` is a system of interleaved steps: one
  consumer, the thread that shuts down, any number of producers. `GuardThreadHistory` says what became of
  every call. `GuardThreadExecutor` does the same steps in place.
- **`BlockQueue`**, a stoppable monitor queue with any number of threads (`BlockQueues`).
- **`ExecutorManager`**: accepted configurations, registration and reverse-order shutdown
  (`ExecutorManagers`).

## What the timing wheel does as it is written

Write `s` for the wheel sizes, `c` for the tick counter at insertion, `T` for the tick an entry is meant
for and `d = T - c`. The comments and the structure of the source show what is intended: an entry comes
out at tick `T`. The code does something else, and the model follows the code. Each point names the
lemma that gives a run and, where there is one, the repair of `RepairedTimeWheel` that removes it.

- An entry with `d < s[0]` comes out at `T`; but if it is inserted while tick `T` itself is being
  delivered (the lock is free between the tick and the increment of the counter) it comes out at
  `T + s[0]` (R4, `OneTurnLate`).
- With one wheel and `d >= s[0]` it comes out at `T` if `c % s[0] + d % s[0] < s[0]`, and one turn
  early, at `T - s[0]`, otherwise (R3, `OneTurnEarly`). Inserted during the delivery of the last tick of
  a turn, with `s[0] <= d < 2 * s[0]`, it never comes out: its key has been passed (R4,
  `NeverWithOneWheel`).
- With two or more wheels (the default is `{1000, 600}`) an entry with `d >= s[0]` never comes out: the
  lists an upper wheel hands back are discarded, because the loop that redistributes them is in the
  `else` branch (R1, `LostOnSecondWheel`); `LostTick` is the tick that does it. Entries from the map are spliced in at `tick_count % scale`,
  which can lie outside the last wheel (R2, `OutsideTheWheel`); `RunLeavesExactly` says which
  insertions do this, and when.
- A time before the start of the executor is not rejected: the unsigned difference wraps round, and the
  entry waits for a tick near `2^64 / dt` (no repair here; `BeforeStartIsAccepted`, `BeforeTheStart`).

`RunOnTimeExactly` turns this into one statement: a run hands out at every tick exactly what was meant
for it if and only if every insertion that has come due met the guard `OnTime` when it was made.
`HandedOutInTime` says what that is worth to a caller: an entry for time `tp` that met `OnTime` is handed
out after a deadline in `(tp, tp + dt]`.

## Assumptions

- Sizes: at least one wheel, the first not empty, the others of at least two slots (upper wheels start
  at position 1); `StartsInRangeExactly` shows that this is exactly when the initial hands are in
  range. `dt` is positive. The code checks none of these.
- Times are exact integers of nanoseconds; `tick * dt`, the tick counter and `scale`, the product of the
  wheel sizes, do not overflow.
- Every atomic operation, every evaluation under a lock and every access to the queue in the drain
  after shutdown is one indivisible step; the memory model of C++ is not modelled.
- The 32-bit counter of the guard thread wraps round. Wake-ups, order, completion and shutdown do not
  depend on it; the threshold is kept in every run exactly if threshold plus number of producer threads
  is below 2^32 (`ThresholdKeptExactly`).
- `Start` sets the flag in whatever state it is called. Called after `Shutdown`, while the consumer has yet
  to leave its main loop, it takes the flag back, and `Shutdown` never returns; no other call does harm
  (`ShutdownReturnsExactly`, with a run in `LateStartLosesWakeUp`).
- Logging does nothing, except for the checks that throw.

## Model

| member | source | states |
|---|---|---|
| TimeWheelSpec.StartsInRangeExactly | src/runtime/core/executor/time_wheel_executor.cc:53-59 | The hands `Initialize` sets are inside their wheels if and only if the first wheel is not empty and every upper wheel has two slots or more. |
| TimeWheelExecutor.TimingWheelTool.SwapOut | src/runtime/core/executor/time_wheel_executor.h:77-85 | The current slot is swapped out and left empty, the hand moves on by one and wraps, and the borrow is asked for exactly on a wrap. |
| TimeWheelExecutor.TimeWheelExecutor.constructor | src/runtime/core/executor/time_wheel_executor.cc:53-82 | Building the wheels in a loop gives empty wheels with the product of the sizes as scale, hand 0 on the first and 1 on the others, map position 1. |
| TimeWheelExecutor.TimeWheelExecutor.Tick | src/runtime/core/executor/time_wheel_executor.h:77-88 | A tick in place, through the recursive carry, is the specified cascade; it reports exactly the ticks that index outside a wheel. |
| TimeWheelExecutor.TimeWheelExecutor.BorrowFunc | src/runtime/core/executor/time_wheel_executor.cc:60-79 | The carry in place: below the last level what the next level hands back is destroyed, behind it the map's list is spliced in. |
| TimeWheelExecutor.TimeWheelExecutor.BorrowFromMap | src/runtime/core/executor/time_wheel_executor.cc:64-78 | Looking up, erasing and redistributing the list of the map position is the last-level case of the specified carry, in range exactly when the specification is. |
| TimeWheelExecutor.TimeWheelExecutor.Splice | src/runtime/core/executor/time_wheel_executor.cc:72-77 | The redistribution loop equals the recursive distribution of the whole list, and stops exactly if some entry has no slot. |
| TimeWheelExecutor.TimeWheelExecutor.ExecuteAt | src/runtime/core/executor/time_wheel_executor.cc:124-156 | In place, an insertion is the specified one: rejected iff its 64-bit virtual time is before the current tick, else stored and logged with the time asked for. |
| TimeWheelExecutor.TimeWheelExecutor.Store | src/runtime/core/executor/time_wheel_executor.cc:136-152 | In place, the entry is appended to the slot or map key the specified placement names, and nothing else changes. |
| TimeWheelExecutor.Locate | src/runtime/core/executor/time_wheel_executor.cc:139-150 | The placement loop ends at the first level whose size the divided distance does not reach, or behind the last; placing from there is placing from the start. |
| TimeWheelExecutor.TimeWheelExecutor.Now | src/runtime/core/executor/time_wheel_executor.cc:117-122 | The time reported separates what `ExecuteAt` rejects from what it accepts: of the times from the start on, exactly those before it are rejected. |
| TimeWheelExecutor.TimeWheelExecutor.TimerTick | src/runtime/core/executor/time_wheel_executor.cc:195-210 | The locked part of a turn is the specified tick, taken after the deadline of the sleep before it; the schedule is kept. |
| TimeWheelExecutor.TimeWheelExecutor.TasksFinished | src/runtime/core/executor/time_wheel_executor.cc:206-210 | After the tasks have run the tick is counted, and the schedule is kept however long they took. |
| TimeWheelExecutor.TimeWheelExecutor.SleepOneTick | src/runtime/core/executor/time_wheel_executor.cc:177-193 | One sleep in place is the specified one: it moves the deadline by exactly `dt`, or less only if the shutdown flag was seen. |
| TimeWheelExecutor.Sleep | src/runtime/core/executor/time_wheel_executor.cc:177-193 | The slicing loop terminates; its deadlines are those of whole seconds up to `dt`, it stops at the first slice after which shutdown is seen, and the extra-slice branch never changes anything. |
| TimeWheelClock.SlicesUpToASecond | src/runtime/core/executor/time_wheel_executor.cc:177-193 | No slice of a sleep is longer than one second, all but the last are exactly that long, and without a shutdown they come to `dt`. |
| TimeWheelClock.SlicesEndWithLast | src/runtime/core/executor/time_wheel_executor.cc:177-193 | What a sleep reads of the state flag fixes the slice it ends with. |
| TimeWheelClock.StepKeepsSchedule | src/runtime/core/executor/time_wheel_executor.cc:169-210 | Every event keeps the loop on schedule: its deadline is where the next tick begins, or earlier only after a shutdown was seen. |
| TimeWheelDeadlines.TimedRunIsRun | src/runtime/core/executor/time_wheel_executor.cc:175-215 | Every run of the timer loop with its sleeps is a run of the executor, so that all results on runs hold of it. |
| TimeWheelDeadlines.RunCanBeTimed | src/runtime/core/executor/time_wheel_executor.cc:175-215 | Every run of the executor is that of a timer loop that is not shut down. |
| TimeWheelDeadlines.DeadlinesDoNotDrift | src/runtime/core/executor/time_wheel_executor.cc:169-210 | In every run one deadline belongs to each list handed out; the one before tick `k` is `start + (k + 1) * dt`, and only the last, after a shutdown, can be earlier, by less than `dt`. |
| TimeWheelDeadlines.HandedOutInTimeExactly | src/runtime/core/executor/time_wheel_executor.cc:124-210 | In every run an entry for time `tp` that is due at tick `k` is in the list of tick `k`, and its deadline lies in `(tp, tp + dt]` if and only if its insertion met `OnTime`. |
| TimeWheelDeadlines.HandedOutInTime | src/runtime/core/executor/time_wheel_executor.cc:124-210 | In every run an accepted entry that met `OnTime` is handed out at its own tick, after a deadline in `(tp, tp + dt]`; a shutdown can bring it forward by less than `dt`. |
| TimeWheelHistory.CallRecorded | src/runtime/core/executor/time_wheel_executor.cc:124-156 | In every run a call of `ExecuteAt` changes nothing iff its time, wrapped round if before the start, lies before the current tick; else it records the task it was given, for the tick that contains that time. |
| TimeWheelHistory.CallTimed | src/runtime/core/executor/time_wheel_executor.cc:124-156 | The same with the clock: an accepted call also records the time it was given, a rejected one nothing. |
| TimeWheelHistory.TickTakesOne | src/runtime/core/executor/time_wheel_executor.cc:195-210 | A tick takes exactly one list unless one is being delivered; no other event takes any. |
| TimeWheelHistory.CountedExactlyWhenDelivered | src/runtime/core/executor/time_wheel_executor.cc:195-210 | In every run the counter counts exactly the lists that were empty or whose tasks have finished, and the timer thread is delivering exactly while the last list is neither. |
| TimeWheelHistory.StopsExactlyWhenSeen | src/runtime/core/executor/time_wheel_executor.cc:175-193 | In every run the loop is at its end iff some sleep read the flag as set after its last slice. |
| TimeWheelHistory.ShutdownEndsLoop | src/runtime/core/executor/time_wheel_executor.cc:175-210 | After a sleep that read the flag as set there is no further sleep, and at most one more list and one more deadline, whatever follows. |
| TimeWheelHistory.LoopGoesOn | src/runtime/core/executor/time_wheel_executor.cc:175-210 | A loop no sleep of which saw the shutdown takes one more list after its tasks have finished and it has slept, or leaves its wheels. |
| TimeWheelExecutor.BeforeStartIsAccepted | src/runtime/core/executor/time_wheel_executor.cc:126-134 | A time before the start is accepted, for a tick near 2^64 / dt, iff the wrapped difference is not before the current tick. |
| TimingWheel.DistributeCounts | src/runtime/core/executor/time_wheel_executor.cc:72-77 | Splicing a list puts every copy of every entry in the slot of its index, and changes no other slot. |
| TimingWheel.DistributeTotal | src/runtime/core/executor/time_wheel_executor.cc:72-77 | Splicing a list loses and duplicates nothing. |
| WheelArithmetic.HandClosedForm | src/runtime/core/executor/time_wheel_executor.h:81-85 | The recurrence of the hands has the closed form `1 + (h + S_1 + ... + S_{i-1}) / S_i` above the first level. |
| TimeWheelSchedule.TickMovesHands | src/runtime/core/executor/time_wheel_executor.h:77-88 | One tick of a level moves its hand and every hand above it as the recurrence says, through any number of carries. |
| TimeWheelSchedule.HandsInClosedForm | src/runtime/core/executor/time_wheel_executor.h:77-88 | As written, any sizes, any run: after `h` ticks the first hand is at `h % s_0`, that of level `i` at `(1 + (h + S_1 + ... + S_{i-1}) / S_i) % s_i`, and the map at the same number for `i = n`. |
| TimeWheelSchedule.HandedOutExactlyWhenDue | src/runtime/core/executor/time_wheel_executor.cc:124-210 | As written, any sizes, any run that stays in its wheels: tick `k` hands out exactly the accepted entries whose due tick is `k`, each as often as it was accepted. |
| TimeWheelOrder.HandedOutInOrder | src/runtime/core/executor/time_wheel_executor.cc:72-77 | As written, any sizes, any run: the list of tick `k` is, in order, what was put into its slot before its turn began, what the carry then spliced in from the map, and what was put there later, each in the order of acceptance. |
| TimeWheelOrder.FirstAcceptedFirstOut | src/runtime/core/executor/time_wheel_executor.cc:140-146 | With several wheels, the default, a tick hands out what is due in the order in which it was accepted. |
| TimeWheelOrder.DistributeInOrder | src/runtime/core/executor/time_wheel_executor.cc:72-77 | Splicing appends to every slot the entries of the list that belong there, in their order. |
| TimeWheelSchedule.OnTimeExactly | src/runtime/core/executor/time_wheel_executor.cc:136-152 | The due tick is the intended one if and only if the guard `OnTime`, on counter, distance and lock window, holds at insertion. |
| TimeWheelSchedule.OneLevelDue | src/runtime/core/executor/time_wheel_executor.cc:148-152 | With one wheel, an entry sent through the map comes out at `T`, or at `T - s0` exactly if the digits of counter and distance carry; its key is stale in the window exactly at the end of a turn. |
| TimeWheelSchedule.DueNotBefore | src/runtime/core/executor/time_wheel_executor.cc:136-152 | Nothing is due at a tick that was already taken when it was inserted. |
| TimeWheelSchedule.PlaceAddsPending | src/runtime/core/executor/time_wheel_executor.cc:136-152 | Placing an entry adds one copy to what will come out at its due tick and changes nothing for any other tick or entry. |
| TimeWheelSchedule.PlacedExactly | src/runtime/core/executor/time_wheel_executor.cc:139-152 | The placement loop in closed form, for every level: first level whose size the distance in blocks does not reach, at block of distance plus block of counter; else the map under that sum. |
| TimeWheelSchedule.TickKeepsPending | src/runtime/core/executor/time_wheel_executor.cc:195-196 | A tick, carries included, leaves unchanged what will come out at every later tick. |
| TimeWheelSchedule.RunOnTimeExactly | src/runtime/core/executor/time_wheel_executor.cc:124-210 | A run agrees with the plain map from ticks to entries, at every tick taken, if and only if every settled insertion met `OnTime`. |
| TimeWheelSchedule.EveryTaskAccountedFor | src/runtime/core/executor/time_wheel_executor.cc:60-79 | In every state of every run, accepted = handed out + stored + destroyed, for every entry. |
| TimeWheelLosses.DestroyedExactlyWhenPassed | src/runtime/core/executor/time_wheel_executor.cc:60-79 | As written, any sizes, any run: what `h` ticks have destroyed are exactly the accepted entries whose `LostTick`, a closed form in sizes, counter and distance, is below `h`, each as often as it was accepted. |
| TimeWheelLosses.PlaceAddsHeld | src/runtime/core/executor/time_wheel_executor.cc:136-152 | Placing an entry adds one copy to what will be taken from its block of its level, on any level above the first and through the map, and changes nothing else. |
| TimeWheelLosses.TickLoses | src/runtime/core/executor/time_wheel_executor.cc:60-64 | A tick with its carries destroys exactly what is due from the slots the carries take. |
| TimeWheelLosses.FateExactly | src/runtime/core/executor/time_wheel_executor.cc:60-79 | No entry is both handed out and destroyed; neither happens to it iff it went to the map under a key passed before, or, behind several wheels, without a slot to be spliced into. |
| TimeWheelSchedule.OutOfRangeExactly | src/runtime/core/executor/time_wheel_executor.cc:72-77 | A tick indexes outside a wheel iff it carries through every level and the map yields an entry with `tick_count % scale` not below the size of the last wheel. |
| TimeWheelRange.PlacedInMap | src/runtime/core/executor/time_wheel_executor.cc:139-152 | An insertion changes the map iff its distance in blocks reaches past every level, and then only by itself under its key. |
| TimeWheelRange.CarryMovesMap | src/runtime/core/executor/time_wheel_executor.cc:60-66 | A tick carries through every level exactly if the closed form of the map position moves on with it. |
| TimeWheelRange.StepLeavesExactly | src/runtime/core/executor/time_wheel_executor.cc:60-79 | As written, any sizes, any run still in its wheels: the next event leaves them iff it is a tick by which the map position passes the key of some accepted entry put under a key still to come, with `tick_count % scale` outside the last wheel. |
| TimeWheelRange.RunLeavesExactly | src/runtime/core/executor/time_wheel_executor.cc:60-79 | A run leaves its wheels if and only if one of its ticks makes such an insertion overdue. |
| TimeWheelSchedule.OneWheelStaysInRange | src/runtime/core/executor/time_wheel_executor.cc:64-78 | With one wheel no run indexes outside it, and no entry is ever destroyed. |
| TimeWheelFindings.HandedOutWasInserted | src/runtime/core/executor/time_wheel_executor.cc:124-210 | Nothing comes out that was not put in, or before the tick it was put in; with several wheels only what lay within the first wheel ever comes out. |
| TimeWheelFindings.OneTurnEarly | src/runtime/core/executor/time_wheel_executor.cc:148-152 | A run of one wheel of two slots in which an entry meant for tick 4 comes out at tick 2. |
| TimeWheelFindings.OneTurnLate | src/runtime/core/executor/time_wheel_executor.cc:195-209 | A run in which an entry inserted during the delivery of its own tick comes out a turn later. |
| TimeWheelFindings.NeverWithOneWheel | src/runtime/core/executor/time_wheel_executor.cc:151-209 | A run of one wheel in which an entry inserted during the delivery of the last tick of a turn goes under a key just passed; it does not come out at its tick, and is due at none. |
| TimeWheelFindings.BeforeTheStart | src/runtime/core/executor/time_wheel_executor.cc:126-134 | A run in which a task for a time two ticks before the start is accepted, and due at tick `2^64 - 2`. |
| TimeWheelFindings.LostOnSecondWheel | src/runtime/core/executor/time_wheel_executor.cc:62-64 | A run of two wheels in which an accepted entry does not come out at its tick: it is due at none, and destroyed by the tick before. |
| TimeWheelFindings.OutsideTheWheel | src/runtime/core/executor/time_wheel_executor.cc:74-75 | A run of two wheels of two slots that indexes position 2. |
| RepairedTimeWheel.SlotIndexIsBlock | src/runtime/core/executor/time_wheel_executor.cc:74-75 | Intended (R2): `(tick_count % scale) / (scale / size)` is always in range and is the block of the tick on that wheel. |
| RepairedTimeWheel.TickLive | src/runtime/core/executor/time_wheel_executor.cc:60-79 | Intended (R1, R2): a carry through any number of levels hands back exactly the block under the hand, changes no due tick, loses and duplicates nothing, and keeps every entry in the live window of its level. |
| RepairedTimeWheel.RedistributeLive | src/runtime/core/executor/time_wheel_executor.cc:72-77 | Intended: the list a level hands back lands exactly in the window the lower level is about to enter. |
| RepairedTimeWheel.PlaceLive | src/runtime/core/executor/time_wheel_executor.cc:139-152 | Intended (R3): placement never lands behind a hand; it ends in a live slot or at a key still to come and adds one copy. |
| RepairedTimeWheel.RepairedRefinesPlan | src/runtime/core/executor/time_wheel_executor.cc:124-210 | Intended (R1-R4): for any sizes and any run, every tick hands out exactly what a plain map from ticks to multisets would. |
| RepairedTimeWheel.HandsOutWhatWasAsked | src/runtime/core/executor/time_wheel_executor.cc:124-210 | Intended (R1-R4): tick `k` hands out exactly the tasks asked for, in calls made no later than that tick, for a time within it, defined from the events alone. |
| GuardThread.NoLostWakeUp | src/runtime/core/executor/guard_thread_executor.cc:69-71 | In every interleaving, for every threshold, a sleeping, un-notified consumer has an empty queue, or the producer that filled it is about to notify; unless a `Start` has taken the flag back, shutdown has not notified either, and the join never waits for a sleeper. |
| GuardThread.LateStartLosesWakeUp | src/runtime/core/executor/guard_thread_executor.cc:103-121 | A run in which a call of `Start` takes the flag back: the consumer goes to sleep, the join waits for it, and no thread can move. |
| GuardThread.LeavingExactly | src/runtime/core/executor/guard_thread_executor.cc:66-121 | In every run in which `Shutdown` has been called, the consumer has left its main loop or reads the flag set, if and only if no `Start` was called after `Shutdown` while the consumer was in that loop. |
| GuardThread.ShutdownReturnsExactly | src/runtime/core/executor/guard_thread_executor.cc:66-126 | In every run in which `Shutdown` has been called: it can return, and returns under every scheduler within a bound known beforehand, if and only if no call of `Start` has taken the flag back; otherwise no continuation, new calls included, lets it return. |
| GuardThread.CounterConserved | src/runtime/core/executor/guard_thread_executor.cc:74-97 | In every interleaving the counter is, modulo 2^32, the accepted unfinished tasks plus calls being rejected plus tasks that threw; with fewer than `2^32 - threshold` producers it does not wrap, and accepted plus thrown never exceed the threshold. |
| GuardThread.AdmittedExactly | src/runtime/core/executor/guard_thread_executor.cc:133-141 | In every interleaving a call is admitted iff the counted load with it is at most the threshold modulo 2^32; with few enough producers, iff the load is below the threshold. |
| GuardThread.ThresholdKeptExactly | src/runtime/core/executor/guard_thread_executor.cc:133-141 | Accepted and thrown tasks stay within the threshold in every interleaving if and only if threshold plus number of producers is below 2^32. |
| GuardThread.FirstInFirstOut | src/runtime/core/executor/guard_thread_executor.cc:66-97 | In every interleaving, for every threshold: finished, then batch, then queue is the push order; at the consumer's exit all pushed so far has run; afterwards nothing runs. |
| GuardThreadHistory.EveryCallSettled | src/runtime/core/executor/guard_thread_executor.cc:128-152 | In every interleaving the tasks of each producer's calls are, in order, those pushed or rejected and then the one it carries; the push order is that of the settled calls that were not rejected. |
| GuardThreadHistory.EveryCallAccountedFor | src/runtime/core/executor/guard_thread_executor.cc:128-152 | In every interleaving every task was given in a call exactly as often as it was pushed, was rejected and is on its way. |
| GuardThreadHistory.BatchTakesAll | src/runtime/core/executor/guard_thread_executor.cc:67-72 | A batch is the whole queue: until the consumer leaves its loop the queue holds exactly what was pushed since the last swap. |
| GuardThreadHistory.ThrownExactly | src/runtime/core/executor/guard_thread_executor.cc:74-97 | What the counter keeps counting are exactly the tasks that threw, in a batch or in the drain. |
| GuardThreadHistory.SpuriousWakeUpIsHarmless | src/runtime/core/executor/guard_thread_executor.cc:69-71 | A consumer with nothing to do that wakes for no reason goes back to sleep, and nothing has changed. |
| GuardThread.EverythingAcceptedRuns | src/runtime/core/executor/guard_thread_executor.cc:66-85 | For every threshold, without new calls, under any scheduler and without spurious wake-ups, the threads come to rest after a bounded number of steps, and then everything pushed has run. |
| GuardThread.ShutdownUsesUpSteps | src/runtime/core/executor/guard_thread_executor.cc:109-121 | Once the consumer is leaving, and unless `Start` or `Execute` is called anew, every step of every thread decreases one measure. |
| GuardThread.ShutdownNeverStuck | src/runtime/core/executor/guard_thread_executor.cc:109-121 | Once the consumer is leaving, some thread can move until it has exited, the join has returned and every call has returned. |
| GuardThread.ShutdownTerminates | src/runtime/core/executor/guard_thread_executor.cc:87-121 | For every threshold, from every reachable state in which the consumer is leaving, runs without new calls are bounded, and end exactly in the state of rest. |
| GuardThreadExecutor.GuardThreadExecutor.ConsumerMoves | src/runtime/core/executor/guard_thread_executor.cc:66-97 | The consumer's steps in place are those of the step system. |
| GuardThreadExecutor.GuardThreadExecutor.ExecuteMoves | src/runtime/core/executor/guard_thread_executor.cc:128-152 | The steps of a call of `Execute` in place, with the 32-bit counter, are those of the step system. |
| GuardThreadExecutor.GuardThreadExecutor.ShutdownMoves | src/runtime/core/executor/guard_thread_executor.cc:109-121 | The steps of the first `Shutdown` in place are those of the step system. |
| GuardThreadExecutor.GuardThreadExecutor.Start | src/runtime/core/executor/guard_thread_executor.cc:103-107 | `Start` sets the flag to `kStart` in every state and changes nothing else; it throws unless the flag was `kInit`. |
| GuardThreadExecutor.GuardThreadExecutor.RunTmpQueue | src/runtime/core/executor/guard_thread_executor.cc:74-84 | The batch loop runs every task in order; the 32-bit counter falls by the tasks that return, a task that throws keeps its place. |
| GuardThreadExecutor.GuardThreadExecutor.RunLeftTasks | src/runtime/core/executor/guard_thread_executor.cc:87-97 | The drain loop, undisturbed, empties the queue in order and exits; the counter and the thrown tasks are accounted for as in a batch. |
| BlockQueues.NoConsumerStranded | src/utils/common/block_queue.h:27-48 | While some thread sleeps un-notified, for every queued item a notified thread is on its way and the next one to run takes an item; nobody sleeps once stopped. |
| BlockQueues.FirstInFirstOut | src/utils/common/block_queue.h:27-58 | In every interleaving taken items followed by queued ones are the enqueued ones, in order. |
| BlockQueues.TakenFromOffered | src/utils/common/block_queue.h:27-58 | In every interleaving the items put in are those of the calls of `Enqueue` before the first `Stop`; those taken are the first of them, and the queue holds the others. |
| BlockQueues.TryDequeueTakesNext | src/utils/common/block_queue.h:50-58 | `TryDequeue` takes and returns the next of these items if there is one and the queue runs, and nothing otherwise. |
| BlockQueues.DequeueTakesNext | src/utils/common/block_queue.h:41-48 | A thread entering or re-entering `Dequeue` takes and returns the next item, sleeps iff there is none and the queue runs, and leaves with the exception iff it is stopped; no other thread moves. |
| BlockQueues.NoThreadLost | src/utils/common/block_queue.h:41-64 | In every interleaving a thread is waiting, asleep or woken, exactly while it is in a `Dequeue` that has not returned. |
| BlockQueues.StopReleasesAll | src/utils/common/block_queue.h:60-64 | After a `Stop` every thread still in `Dequeue` is awake, and leaves with the exception when it runs on. |
| BlockQueues.StopNotifies | src/utils/common/block_queue.h:60-64 | `Stop` notifies every sleeper and touches no other thread. |
| BlockQueues.SpuriousWakeUpIsHarmless | src/utils/common/block_queue.h:43 | A sleeper that wakes for no reason and finds nothing goes back to sleep, and nothing has changed. |
| BlockQueues.FrozenAfterStop | src/utils/common/block_queue.h:60-64 | After `Stop`, whatever follows, nothing is put in or taken out and no thread sleeps. |
| BlockQueues.NotifyOneCounts | src/utils/common/block_queue.h:31 | A notification turns exactly one sleeper into a notified waiter if there is any. |
| BlockQueues.BlockQueue.Enqueue | src/utils/common/block_queue.h:27-39 | In place: throws iff stopped and then changes nothing, else puts the item at the end and notifies one sleeper. |
| BlockQueues.BlockQueue.DequeueOrSleep | src/utils/common/block_queue.h:41-48 | In place: one pass through the wait sleeps iff empty and running, throws iff stopped, else takes the front. |
| BlockQueues.BlockQueue.TryDequeue | src/utils/common/block_queue.h:50-58 | In place: nothing iff empty or stopped, else the front. |
| BlockQueues.BlockQueue.Stop | src/utils/common/block_queue.h:60-64 | In place: clears the flag and notifies every sleeper. |
| ExecutorManagers.AcceptsExactly | src/runtime/core/executor/executor_manager.cc:70-126 | If the executors initialize, exactly the lists `[main_thread]? [guard_thread]? time_wheel*` with new, distinct wheel names and different names for main and guard are accepted; the registered names are main, guard, wheels in order, all distinct, and are the keys of the map. |
| ExecutorManagers.MainNamedAsGuardTerminates | src/runtime/core/executor/executor_manager.cc:65-104 | `Initialize` ends the process for the list that only names the main thread `nxpilot_guard`: the second executor is destroyed while its thread runs. |
| ExecutorManagers.RunTerminatesExactly | src/runtime/core/executor/executor_manager.cc:57-155 | A run of calls ends in termination iff its first call is an `Initialize` with coinciding names. |
| ExecutorManagers.RegisterExactly | src/runtime/core/executor/executor_manager.cc:106-126 | The second pass registers the rest of the list, in order, iff every entry is a time wheel under a new name. |
| ExecutorManagers.CheckExactly | src/runtime/core/executor/executor_manager.cc:70-88 | The first pass accepts iff no main or guard entry stands behind the head of the list. |
| ExecutorManagers.CheckReports | src/runtime/core/executor/executor_manager.cc:73-88 | The first pass, when it throws, reports the first entry out of place, as a main or a guard thread. |
| ExecutorManagers.RegisterStopsAt | src/runtime/core/executor/executor_manager.cc:106-126 | A second pass that throws has registered exactly the wheels before the offending entry; the error is a used name, else an unknown type, else that entry's own failure. |
| ExecutorManagers.StartsUpToFirstFailure | src/runtime/core/executor/executor_manager.cc:134-139 | Starting from an executor on starts those before the first that throws, in registration order, and the outcome names that one. |
| ExecutorManagers.StartsExactly | src/runtime/core/executor/executor_manager.cc:131-140 | After any calls `Start` throws and starts nothing iff the call before it was not an `Initialize`; otherwise it starts the registered executors in order up to the first that throws, and returns iff none does. |
| ExecutorManagers.InitializesOnlyOnce | src/runtime/core/executor/executor_manager.cc:57-60 | After any calls `Initialize` throws that it is called only once, and registers nothing, iff it is not the first call. |
| ExecutorManagers.InitializeRegisters | src/runtime/core/executor/executor_manager.cc:70-126 | What the first `Initialize` registers, whichever executors fail: nothing if the checks throw, else the names in order up to the first entry refused or failing, which the error names; all exactly if it returns. |
| ExecutorManagers.DefaultNames | src/runtime/core/executor/executor_manager.cc:65-68 | Without a configuration `nxpilot_main` and `nxpilot_guard` are registered. |
| ExecutorManagers.ConfiguredNames | src/runtime/core/executor/executor_manager.cc:70-126 | A main thread, a guard thread and a timing wheel are registered under the names given. |
| ExecutorManagers.MainBehindWheel | src/runtime/core/executor/executor_manager.cc:74-75 | A main thread behind another entry is refused. |
| ExecutorManagers.ShutdownVisits | src/runtime/core/executor/executor_manager.cc:142-155 | After any calls in any order, whichever throw, `Shutdown` misses no map entry and visits the registered executors in reverse iff the call before it was not a `Shutdown`. |
| ExecutorManagers.ShutdownVisitsEachOnce | src/runtime/core/executor/executor_manager.cc:90-155 | Over any run, partial ones included, the first `Shutdown` visits each registered executor exactly once, last first; further ones visit nothing. |
| ExecutorManagers.ExecutorManager.CheckOptions | src/runtime/core/executor/executor_manager.cc:65-88 | The checking loop in place gives the verdict and the two effective names of the specification. |
| ExecutorManagers.ExecutorManager.InitializeAll | src/runtime/core/executor/executor_manager.cc:57-129 | `Initialize` in place, throwing or terminating at any point, leaves the specified state, with each name mapped to its kind of executor. |
| ExecutorManagers.ExecutorManager.StartAll | src/runtime/core/executor/executor_manager.cc:131-140 | `Start` in place throws that the state is wrong iff it was not `kInit`, and is the specified call wherever it throws. |
| ExecutorManagers.ExecutorManager.ShutdownAll | src/runtime/core/executor/executor_manager.cc:142-155 | The reverse loop in place visits what the specification says. |

## Left out

- YAML, command-line flags, logging text, thread names, CPU binding, scheduling policy, the real clock.
- `MainThreadExecutor`, `ConfiguratorManager`, `AdosCore`, `LoggerManager`: lifecycle flags and declarations.
- The order of entries within one tick of the repaired wheel, where multisets are compared; for the shipped code it is in `TimeWheelOrder`.
- `TimeWheelExecutor::Shutdown` and what it discards.
- Calls of `ExecuteAt` before `Start` or after `Shutdown`, and exceptions other than `std::exception`.
- Overflow of the tick counter and of `tick * dt` after 2^64 nanoseconds, and of `scale`.
- What an index outside a wheel does: the run ends there without a state.
- `RepairedTimeWheel` is on values only; in-place classes are given for the shipped code.
- `GuardThread`: a second `Shutdown` (it returns at once, unless `Start` was called in between), and a task that calls `Shutdown` on its own executor.
- `ExecutorManagers`: the executors themselves are names; of their destruction only that of a guard executor under a name in use is modelled.
- TimeWheelExecutor.TimeWheelExecutor.Splice: does not say what the wheel holds when an index is outside it.
- GuardThreadExecutor.GuardThreadExecutor.RunTmpQueue: the loop without other threads in between; the interleaved case is `GuardThread.FirstInFirstOut` and `CounterConserved`.
- GuardThreadExecutor.GuardThreadExecutor.RunLeftTasks: the loop without other threads in between; the interleaved case is the same.

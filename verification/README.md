# WarringServer: a verified model of its infrastructure

WarringServer is a game back end written in C++. Its servers share a layer of hand-written
infrastructure: a timer, a logger, worker threads, a wire format with framing over TCP, a manager
for unacknowledged stream messages, a poll table, a distributor of connections and a sharded map.
This project models that layer in Dafny and proves what it promises, or says exactly when it keeps
its promise.

`dafny verify dfyconfig.toml` checks everything.

Most components come as a pair: a module of values, functions and lemmas that says what the
component does and proves the properties, and a module with a class whose methods have the loops
and the fields of the program and are proved to compute those functions.

| component | specification and theorems | objects |
|---|---|---|
| timer | `TimingWheel`, `DeadlineTable`, `Schedule`, `WheelRefinement`, `TimerRuns`, `TimerOrder` | `TimeWheelTimer` |
| logger | `LogPipeline` | `Logger`, `SafeQueue` |
| worker threads | `TaskPool`, `TaskSafety`, `TaskCalls`, `TaskRuns`, `TaskCompletion`, `TaskControl`, `TaskLoad` | `RThread`, `SafeQueue` |
| messages | `Codec` | `MessageObject` |
| receiving | `Framing` | `IOBuffer`, `Framing.TcpConnection`, `LoginMessageOp` |
| sending | `Outgoing` | `Outgoing.Sender` |
| stream broker | `PendingMessages`, `SharedSiblings`, `PassEffects` | `RSBrokerManager` |
| poll table | `PollPoller` | `PollPoller.Poller` |
| event loops | `EventLoopThreadpool` | `EventLoopThreadpool.Pool` |
| sharded map | `SafeHashmap` | `SafeHashmap.Hashmap` |

**Timer.** The wheel of 60 + 60 + 24 slot lists refines a table "id, clock value at which it is due".
For every run, every task runs at exactly the clock values of its plan. From that follow one-shot
runs, counted repetition and cancellation; and of two tasks with the same delay, registered in the same
second, the first runs first. The delay a task really gets is its own delay exactly
when no carry is lost, and an endless task keeps its period exactly when its delay is steady.

**Logger.** Threads log into two buffers each, full buffers pass through a queue to one archiver
and size-limited files. Over any interleaving, the bytes of each thread in the files, then in the
queue, then in its working buffer are everything it said, once and in order, exactly when no buffer
with bytes of it meets a file that is closed or cannot be created. The files are the buffers packed in
order: a new one is begun only when the next buffer would take the current one past its limit.

**Worker threads.** A state machine with one step for each locked access of a worker to a queue,
together with the flags and parameters it reads or writes on the way. In every reachable state each
submitted task is in exactly one place and workers work in submission order; no task is called twice
exactly when no queue is emptied between a worker's look and its pop; and in any run a worker told to
complete ends with everything it took executed, and is inactive then exactly when it did not stand
before its look with an empty queue. A stopped worker comes to rest and takes nothing; a pull moves what
the load band says, in all three bands.

**Messages and connections.** Encoding and decoding round-trip for every schema; a stream cut into
any chunks delivers the messages in order if and only if no read finds exactly the eight bytes of a
length retained, and has delivered all that arrived if and only if the reads keep up with the messages,
one for each. On the sending side the order of bytes is kept exactly when a chunk is taken whole or
nothing waits behind it. Both ends together give one end-to-end theorem.

**Stream broker.** Every pending message leaves the pending list after finitely many passes, by a
measure that is lexicographic in deliveries left and time left. A message is handed on to the least
other name among the consumers of all groups of its group's name. The server after a pass is the server
before with exactly the logged acts applied, each a change of one entry.

**Poll table, event loops, sharded map.** Slots and indices stay inverse through any run; any
window of calls as long as there are running loops picks each of them once; any run on the buckets
is the run on one finite map.

## Where the code differs from what it says

The model follows the code; each point is a theorem.

- A timer task may run early or late: the minute field drops the carry out of the seconds, slots are
  chosen without carries, and days are counted from the start of the clock
  (`DeadlineTable.DueIsExact`, with `MinuteDelayCounterexample` and `HourDelayCounterexample`).
- A task called "all-the-time" or "n-time" stops repeating once it runs inside a minute or hour
  rollover (`TimerRuns.KeepsPeriodIff`, `TimerRuns.WholeMinuteOnTheMinuteStops`), and the record of a
  counted one then stays (`TimerRuns.CountedTaskLeaves`, `TimerRuns.WholeMinuteKeepsRecord`).
- A log message of 40960 bytes or more is dropped (`LogPipeline.CompleteIff`), and a write that the
  system takes only in part starts again at the front of the buffer (`LogPipeline.WholeBufferIff`).
- A buffer that does not fit while no new file can be created is lost, and so is every later one that
  still fits the old file, whose descriptor is gone (`LogPipeline.NothingLost`,
  `LogPipeline.FailedRotationLoses`, `LogPipeline.ClosedFileLoses`).
- Looking at the next length takes the bytes away when exactly that many are retained
  (`Framing.LookKeepsStreamIff`, `Framing.StreamKeptIff`), so a message split after its first eight bytes is never delivered
  (`Framing.SplitAtLengthLosesMessage`).
- A read event takes at most one message, so messages that arrive together wait for later events
  (`Framing.EverythingTakenIff`, `Framing.TwoTogether`).
- What is left of a partly written chunk goes behind chunks that were queued after it
  (`Outgoing.KeepsOrderIff`, `Outgoing.PartialWriteInterleaves`), and a refused chunk is dropped
  (`Outgoing.LosesNothingIff`).
- An input buffer that reached its largest size never decays (`IOBuffer.LargestSizeIsForEver`), and a
  read that fills a larger one can make it smaller, because the new size counts initial sizes
  (`IOBuffer.FullReadGrowsIff`).
- A receiver object used again shows old vector items (`Codec.ReuseIff`), and after a list of strings
  it misreads the next name (`Codec.TextsReuse`).
- A cancellation between a worker's look into its queue and its pop makes it call its last task a
  second time, or throw if there was none (`TaskCalls.CalledOnceIff`, `TaskRuns.CancelledTaskTwice`).
- A worker may take more tasks than its largest load, exactly when its light pull is too large
  (`TaskLoad.LoadBelowLimitIff`, `TaskLoad.QuarterExceedsLimit`).
- A worker that finds no work and no shared queue just returns and never becomes inactive; one told to
  complete does so exactly when it stands before its look with an empty queue, or has not started
  (`TaskCompletion.InactiveIff`, `TaskCompletion.CompletedIsInactiveIff`,
  `TaskCompletion.ReturnsWithoutInactive`, `TaskCompletion.ToldBeforeStart`).
- A worker that leaves its loop between the two writes of a completion goes inactive with its queue
  full (`TaskCompletion.SplitCompletionStrands`, `TaskCompletion.SplitCanStrandIff`).
- The table of siblings is keyed by group name only, so a message can be handed to a consumer of a
  group of the same name under another key, which need not read the message's key; the database
  server has one group name on three keys (DBServer/DBServerGateway.h:141-143)
  (`SharedSiblings.ClaimStaysIff`, `SharedSiblings.ApartStays`, `SharedSiblings.ClaimLeavesGroup`).
- A message handed on at its last delivery can be given up and deleted by the same pass, before its new
  holder has read it (`PassEffects.ClaimLands`, `PassEffects.ClaimedAndGivenUp`).
- The map's insert-or-assign does not assign (`SafeHashmap.AssignsIff`), and asking for no buckets
  leaves a map on which every access throws.
- Updating or removing through a handler that was removed before breaks the poll table
  (`PollPoller.UpdateKeepsIff`, `PollPoller.RemoveKeepsIff`).

## Model

| member | source | states |
|---|---|---|
| `TimingWheel.MakeTask` | Base/utility/Timer.h:42-52 | the constructed task has normal fields, the same total delay, and the given count and id |
| `TimingWheel.EmptyWheel` | Base/utility/Timer.h:131-141 | a new timer is a valid wheel of 144 empty lists |
| `TimingWheel.SlotFor` | Base/utility/Timer.cpp:74-95 | the slot chosen for any non-zero delay exists |
| `TimingWheel.Tick` | Base/utility/Timer.cpp:104-135 | a second of the clock thread takes every valid wheel to a valid wheel |
| `TimingWheel.Submit` | Base/utility/Timer.cpp:42-63 | registering takes every valid wheel to a valid wheel, whatever the count |
| `TimingWheel.RunWheel` | Base/utility/Timer.cpp:42-135 | every state of every run is valid |
| `TimingWheel.RepeatCounts` | Base/utility/Timer.cpp:247-267 | re-arming takes one from a positive count, leaves an endless one, and adds a node of what the record then says |
| `TimingWheel.LastCountOnlyRuns` | Base/utility/Timer.cpp:137-169 | a node whose count is 0 runs, and changes neither slots nor records |
| `DeadlineTable.DueIsLater` | Base/utility/Timer.cpp:68-95 | a task is never due at or before the moment it is added, and a rollover task is due on a full minute |
| `DeadlineTable.DueIsExact` | Base/utility/Timer.h:54-61 | the task is due its delay after it was added if and only if no carry is lost and days agree |
| `DeadlineTable.MinuteDelay` | Base/utility/Timer.cpp:77-90 | below an hour the due value is the delay, less one minute exactly when the seconds carry |
| `DeadlineTable.MinuteDelayCounterexample` | Base/utility/Timer.h:59-59 | 1 min 1 s added at second 59 is due after 1 s |
| `DeadlineTable.HourDelayCounterexample` | Base/utility/Timer.h:83-84 | 2 h added at hour 22 is due after 26 h, since rounds count absolute days |
| `DeadlineTable.HourDelay` | Base/utility/Timer.h:54-84 | from an hour up the due value is the delay, less a minute for a carry of the seconds, less an hour for one of the minutes, plus or minus the days by which the two ways of counting them differ |
| `DeadlineTable.ResubmitKeepsRecord` | Base/utility/Timer.cpp:42-63 | submitting under a recorded id adds an entry and keeps the record; with a count of 0 it only forgets |
| `WheelRefinement.Placed` | Base/utility/Timer.cpp:68-95 | the node stands in a slot from which its due value, count and id can be read off, and never in the slot now being drained |
| `WheelRefinement.AddRefines` | Base/utility/Timer.cpp:68-95 | adding a node is adding one entry to the deadline table |
| `WheelRefinement.SubmitRefines` | Base/utility/Timer.cpp:42-63 | registering a task is registering it in the deadline table |
| `WheelRefinement.SecondWheelRefines` | Base/utility/Timer.cpp:137-169 | draining the second slot runs exactly the entries due now, each once, re-arms or forgets them, and leaves the slot empty |
| `WheelRefinement.CascadeMinutesRefines` | Base/utility/Timer.cpp:174-197 | what a minute rollover runs and what it moves is exactly what the slot held; each moved node keeps its due value |
| `WheelRefinement.MinuteWheelRefines` | Base/utility/Timer.cpp:170-198 | a minute rollover runs only what is due at the coming minute, leaves nothing due by then in the minute wheel, and loses nothing |
| `WheelRefinement.CascadeHoursRefines` | Base/utility/Timer.cpp:205-244 | what an hour rollover runs, moves down and keeps waiting is exactly what the slot held |
| `WheelRefinement.HourWheelRefines` | Base/utility/Timer.cpp:200-245 | an hour rollover runs only what is due at the coming hour, leaves nothing due by then in the minute and hour wheels, and loses nothing |
| `WheelRefinement.NoneOverdue` | Base/utility/Timer.cpp:104-135 | between seconds no entry is overdue |
| `WheelRefinement.TickRefines` | Base/utility/Timer.cpp:104-245 | one second of the wheel is one tick of the deadline table: exactly the due entries run |
| `Schedule.TickFollows` | Base/utility/Timer.cpp:137-169 | a tick keeps "what a task has run, followed by what its plan still gives" unchanged |
| `Schedule.SubmitStarts` | Base/utility/Timer.cpp:42-63 | a task under a fresh id starts on its plan |
| `TimerRuns.RunsOnPlan` | Base/utility/Timer.cpp:42-268 | over any run, whatever other tasks do, a task runs at exactly the clock values of its plan, once each and in order |
| `TimerRuns.OneShotRunsOnce` | Base/utility/Timer.cpp:137-245 | a one-time task has run, once and at its due value, exactly when the tick it is due in is over |
| `TimerRuns.SteadyPlan` | Base/utility/Timer.cpp:157-166 | a steady task with count n runs at N+d, ..., N+nd and no more; with -1 at every N+kd |
| `TimerRuns.CountedTaskLeaves` | Base/utility/Timer.cpp:247-267 | when the runs of a counted task are over it has left the registry if and only if none of them fell into a rollover |
| `TimerRuns.PlanEnds` | Base/utility/Timer.cpp:137-169 | a counted task's plan ends at its last due value, and has as many runs as its count when none falls into a rollover |
| `TimerRuns.SteadyIsUnbroken` | Base/utility/Timer.cpp:68-95 | for a steady delay none does, and the last run is due the count times the delay later |
| `TimerRuns.WholeMinuteKeepsRecord` | Base/utility/Timer.cpp:174-197 | a counted task of whole minutes added on a full minute stays in the registry after its only run |
| `TimerRuns.KeepsPeriodIff` | Base/utility/Timer.cpp:137-245 | an endless task keeps its period for ever if and only if its delay is below a minute, or whole minutes added off the minute |
| `TimerRuns.WholeMinuteOnTheMinuteStops` | Base/utility/Timer.cpp:176-182 | a whole-minute task added on any full minute runs once, its delay later, and never again, whatever its count |
| `TimerRuns.HeldAtMostOnce` | Base/utility/Timer.cpp:137-267 | an id submitted once is held by at most one node over the 144 slots, in every state of every run |
| `TimerRuns.StartsFresh` | Base/utility/Timer.h:131-141 | a new timer holds nothing of any id, so the theorems on runs hold from its start |
| `TimerRuns.NeverHeldTwice` | Base/utility/Timer.cpp:42-267 | from the start of the timer an id submitted once is never held by two nodes |
| `TimerRuns.CancelRunsOnceMore` | Base/utility/Timer.cpp:52-56 | after a cycle-0 record an id held in one node runs exactly once more, at the due value that node had, and never again |
| `TimerOrder.FireNodesView` | Base/utility/Timer.cpp:137-169 | a second slot runs its tasks in the order of the list, whatever runs between |
| `TimerOrder.MinutesView` | Base/utility/Timer.cpp:174-197 | a minute rollover moves or runs nodes in the order of the list |
| `TimerOrder.HoursView` | Base/utility/Timer.cpp:205-244 | so does an hour rollover |
| `TimerOrder.FirstComeFirstRun` | Base/utility/Timer.cpp:42-245 | of two one-shot tasks with the same delay registered in the same second, both or neither have run at any later time, at the same clock value, and the first before the second |
| `TimeWheelTimer.Timer.AddTimerNodeFor` | Base/utility/Timer.cpp:68-102 | changes the lists and fields to exactly the specified wheel |
| `TimeWheelTimer.Timer.RepeatTimerTask` | Base/utility/Timer.cpp:247-259 | counts a positive record down and adds its node again; nothing for an unknown id |
| `TimeWheelTimer.Timer.EraseTimerTask` | Base/utility/Timer.cpp:260-268 | forgets exactly this id |
| `TimeWheelTimer.Timer.CheckSecondWheel` | Base/utility/Timer.cpp:137-169 | the loop over the slot being drained ends and gives the specified wheel |
| `TimeWheelTimer.Timer.CheckMinuteWheel` | Base/utility/Timer.cpp:170-198 | likewise; the modulus is 60 because the seconds stand at 60 when it is called |
| `TimeWheelTimer.Timer.CheckHourWheel` | Base/utility/Timer.cpp:200-245 | likewise, with nodes that wait a day more staying in place and in order |
| `TimeWheelTimer.Timer.TakeFromHour` | Base/utility/Timer.cpp:207-237 | a node with no days left leaves the slot for a minute slot, a second slot, or its run |
| `TimeWheelTimer.Timer.TickOnce` | Base/utility/Timer.cpp:115-129 | one second on the object is one tick of the wheel |
| `TimeWheelTimer.Timer.RegisterTask` | Base/utility/Timer.cpp:49-62 | one task taken by the registering thread is one submission to the wheel |
| `LogPipeline.StartInv` | Base/utility/Logger.cpp:13-36 | the pipeline after initialisation meets its invariant; the size limit is the larger of the one asked for and the default |
| `LogPipeline.LogFills` | Base/utility/LoggerLine.cpp:17-30 | a message goes into the working buffer exactly when both together are shorter than a buffer; otherwise exactly that buffer is handed over and the message starts the next |
| `LogPipeline.FlushHands` | Base/utility/LoggerLine.cpp:8-15 | a flushed line hands over its working buffer, even an empty one, and goes on with its standby buffer, else a pooled one, else a new one |
| `LogPipeline.FlushesOnTimeout` | Base/utility/Logger.cpp:127-141 | a flush without a timeout does nothing; after one it empties the visited lines and resets the timeout |
| `LogPipeline.RemoveHands` | Base/utility/LoggerLine.h:31-46 | a line that ends hands over its working buffer exactly when there is something in it |
| `LogPipeline.ArchiveWrites` | Base/utility/Logger.cpp:62-88 | in numbers: where the buffer at hand goes, by the size of the current file, the limit, whether it is open and whether one can be created |
| `LogPipeline.RotatesIff` | Base/utility/LoggerFile.cpp:92-97 | no new file is made if and only if the current one stays within the limit with the buffer, or none can be created |
| `LogPipeline.FilesArePacked` | Base/utility/Logger.cpp:62-88 | over any run from the start with files created, the files are the drained buffers packed in order, and each file but the first was begun because its first buffer did not fit the one before |
| `LogPipeline.LogKeeps` | Base/utility/LoggerLine.cpp:17-30 | logging adds the message at the end of its thread's bytes, if it is shorter than a buffer, and changes nothing for any other thread |
| `LogPipeline.FlushAllKeeps` | Base/utility/Logger.cpp:127-141 | a flush keeps every thread's bytes and empties the working buffers it visits |
| `LogPipeline.RetrySucceeds` | Base/utility/Logger.cpp:69-77 | a buffer that did not fit always fits the new file, which then holds exactly it |
| `LogPipeline.ArchivedKeeps` | Base/utility/LoggerFile.cpp:92-125 | every file stays within its limit and the files concatenate to what was drained, in order, with the buffer at hand exactly when its file is open or can be created |
| `LogPipeline.ArchiveKeeps` | Base/utility/Logger.cpp:62-88 | an archiver turn keeps the invariant, with the pool bounded, and all bytes in order but those of a buffer that reaches no file |
| `LogPipeline.RemoveKeeps` | Base/utility/LoggerLine.h:31-46 | a line that ends hands over what it still holds: no thread's bytes change |
| `LogPipeline.NothingLost` | Base/utility/Logger.cpp:62-141 | over any interleaving, with any files refused, a thread's bytes in the files, the queue and its buffer are what it said, in order, none lost or repeated, if and only if no buffer with bytes of it meets a closed file or a refused one |
| `LogPipeline.CreatedIsLossless` | Base/utility/Logger.cpp:62-88 | with an open file and none refused, no thread loses anything |
| `LogPipeline.CompleteIff` | Base/utility/LoggerBuffer.h:73-84 | a thread's log is complete if and only if each of its messages is shorter than a buffer and no buffer of it is lost |
| `LogPipeline.FailedRotationLoses` | Base/utility/Logger.cpp:72-76 | when no new file can be created exactly the buffer at hand is lost: no file changes, and the rest stays queued |
| `LogPipeline.ClosedFileLoses` | Base/utility/LoggerFile.cpp:49-61 | after that a buffer that still fits the old file is lost too, whatever could be created |
| `LogPipeline.FlushedThenArchived` | Base/utility/Logger.cpp:127-141 | after a timeout's flush and enough archiving everything a thread said is in the files |
| `LogPipeline.WholeBufferIff` | Base/utility/LoggerFile.cpp:100-122 | of any thread, every buffer of a length reaches the file whole if and only if the first write takes all of it |
| `LogPipeline.PartialWriteRepeats` | Base/utility/LoggerFile.cpp:101-122 | after a first write that takes a part, the bytes of the front stand again where the rest belongs |
| `Logger.LoggerLine.GetEmptyBuffer` | Base/utility/LoggerLine.cpp:32-50 | keeps the standby buffer, else takes one from the pool, else makes one |
| `Logger.LoggerLine.PushToQueue` | Base/utility/LoggerLine.cpp:8-15 | swaps the buffers and hands the written one over |
| `Logger.LoggerLine.PushToBuffer` | Base/utility/LoggerLine.cpp:17-30 | appends, or swaps and then appends, as specified |
| `Logger.LoggerLine.Close` | Base/utility/LoggerLine.h:31-46 | hands over the buffers that are not empty |
| `Logger.LoggerFile.CreateLogFile` | Base/utility/LoggerFile.cpp:49-61 | a new file starts empty with size 0; a refusal changes neither files nor size |
| `Logger.LoggerFile.WriteLoop` | Base/utility/LoggerFile.cpp:100-122 | the loop for any amounts the system takes: the file grows by exactly what was written |
| `Logger.LoggerFile.Archive` | Base/utility/LoggerFile.cpp:92-125 | false and unchanged if the buffer would exceed the limit, else written at the end |
| `Logger.Logger.Log` | Base/utility/Logger.cpp:97-106 | finds or makes the thread's line and logs into it: the specified step |
| `Logger.Logger.FindLoggerLine` | Base/utility/Logger.cpp:97-106 | the thread has a line afterwards; other lines stay the same objects |
| `Logger.Logger.TimeoutPushToFile` | Base/utility/Logger.cpp:127-141 | when the timer fired every line hands its buffer over, and the flag is reset |
| `Logger.Logger.Archive` | Base/utility/Logger.cpp:62-88 | the archiver's turn is the specified step: timed wait, write, rotate and retry, recycle |
| `Logger.Logger.RemoveLoggerLine` | Base/utility/Logger.cpp:108-112 | forgetting a thread is the specified step |
| `SafeQueue.SafeQueue.Push` | Base/utility/SafeQueue.h:36-48 | the value goes to the back |
| `SafeQueue.SafeQueue.Pop` | Base/utility/SafeQueue.h:50-58 | the front value and true, or false and nothing changed |
| `SafeQueue.SafeQueue.PopN` | Base/utility/SafeQueue.h:70-83 | exactly the first min(n, size) values, in order, leave the queue |
| `SafeQueue.SafeQueue.WaitAndPop` | Base/utility/SafeQueue.h:104-117 | the front value if there is one when the wait ends |
| `TaskPool.WorkerStepMoves` | Base/thread/RThread.inl:224-287 | whatever the step, what a worker has first called, runs, holds and carries is what it was, followed by what it took from the shared queue |
| `TaskPool.RepeatsIff` | Base/thread/RThread.inl:241-244 | a step calls a task again if and only if the worker stands between its look into its queue and its pop and the queue has been emptied; it is the task popped last, and the call throws if there is none |
| `TaskSafety.StartInv` | Base/thread/RThread.h:40-47 | a new pool meets the invariant |
| `TaskSafety.WorkKeepsInv` | Base/thread/RThread.inl:110-179 | a worker's step keeps each submission in exactly one place, in order, and what is called again among what was called |
| `TaskSafety.OrderKeepsInv` | Base/thread/RThread.inl:181-221 | so does every command at every moment; a cancellation drops exactly the worker's own queue |
| `TaskSafety.RunKeepsInv` | Base/thread/RThread.inl:110-287 | in every reachable state each submission is queued, in one worker's hands, first called once or dropped, each worker is in submission order, only called tasks are called again, and an inactive worker that was not cancelled has nothing left |
| `TaskCalls.CalledOnceIff` | Base/thread/RThread.inl:224-287 | over any run, with any commands, no task is called twice and no call throws if and only if no pop is made from a queue emptied after the look into it |
| `TaskRuns.CancelInGap` | Base/thread/RThread.inl:197-203 | from any state, a cancellation between a look and its pop makes the worker call its last task again, or throw |
| `TaskRuns.CancelledTaskTwice` | Base/thread/RThread.inl:239-244 | a run from the start in which a task is called twice |
| `TaskSafety.NoCancelDropsNothing` | Base/thread/RThread.inl:197-203 | without a cancellation nothing is ever dropped |
| `TaskCalls.NoCancelFaultless` | Base/thread/RThread.inl:239-244 | without a cancellation no pop finds its queue emptied |
| `TaskCalls.ExactlyOnce` | Base/thread/RThread.inl:110-287 | without a cancellation, when the shared queue is empty and the workers idle, every submission has been called once and nothing else has |
| `TaskRuns.LevelRound` | Base/thread/RThread.inl:156-179 | an undisturbed pull by level puts the batch behind the worker's own tasks, in order |
| `TaskRuns.LevelBands` | Base/thread/RThread.inl:156-179 | in numbers: nothing from four fifths of the largest load, the light batch from a fifth, the middle one below, as far as the shared queue and half the largest load allow |
| `TaskControl.DefaultBands` | Base/thread/RThread.h:40-47 | with the default parameters: five with at most one task of its own, two with two to seven, none from eight on |
| `TaskControl.UpdateSets` | Base/thread/RThread.inl:213-221 | an update makes the batches the whole parts of the largest load |
| `TaskControl.StopsInAnyRun` | Base/thread/RThread.inl:181-187 | in any run a stopped worker comes to rest within a bounded number of its steps, or its thread has returned |
| `TaskControl.RestsInAnyRun` | Base/thread/RThread.inl:233-237 | at rest it does nothing, whatever is submitted and whatever others do |
| `TaskControl.GoesOnIff` | Base/thread/RThread.inl:189-195 | it goes on with its next step exactly when it is not stopped, and a resume makes it so |
| `TaskControl.AsksIff` | Base/thread/RThread.inl:181-221 | a worker about to look, with no task, asks the shared queue if and only if the last command left it one, and else returns |
| `TaskControl.UnheldTakesNothing` | Base/thread/RThread.inl:156-160 | a worker that found no queue takes nothing for the whole round |
| `TaskControl.CancelledEnds` | Base/thread/RThread.inl:197-203 | in any run a cancelled worker ends, unless it was in the gap before a pop |
| `TaskCompletion.CompletingStep` | Base/thread/RThread.inl:231-286 | whatever the shared queue holds, each step of a worker told to complete brings its end nearer, and it can still take at most one task and one batch |
| `TaskCompletion.CompletesEverything` | Base/thread/RThread.inl:205-287 | in any run with enough steps of the worker and no further order to it, among any submissions and other workers, it ends with everything it took executed in order and nothing called again |
| `TaskCompletion.InactiveIff` | Base/thread/RThread.inl:231-286 | in those runs it becomes inactive if and only if it was not told before its look with an empty queue and no shared queue |
| `TaskCompletion.RunKeepsInactive` | Base/thread/RThread.inl:286-286 | in every reachable state a worker is inactive exactly when it ended regularly |
| `TaskCompletion.CompletedIsInactiveIff` | Base/thread/RThread.inl:205-287 | from the start, for any workers and any run before and after: a worker told to complete in its loop becomes inactive if and only if its queue is not empty or it does not stand between the head of its loop and its look |
| `TaskCompletion.ReturnsWithoutInactive` | Base/thread/RThread.inl:257-261 | a run from the start in which a waiting worker is told to complete, returns, and is never inactive |
| `TaskCompletion.ToldBeforeStart` | Base/thread/RThread.inl:222-226 | a worker told to complete before its thread starts sets itself running again and just returns |
| `TaskCompletion.SplitCompletionStrands` | Base/thread/RThread.inl:205-211 | whatever steps the worker makes between the two writes, it goes inactive with tasks in its queue exactly when one of them leaves with tasks there; otherwise the completion works as one step |
| `TaskCompletion.SplitCanStrandIff` | Base/thread/RThread.inl:205-286 | exactly from which places, and with which queues, such steps exist |
| `TaskLoad.FifthFits` | Base/thread/RThread.h:128-133 | the built-in parameters, and light pulls of at most a fifth, keep the load below its limit |
| `TaskLoad.RunKeepsLoad` | Base/thread/RThread.inl:157-179 | over any run that leaves the parameters alone a fitting light pull keeps the load below its limit |
| `TaskLoad.ReachesTopLoad` | Base/thread/RThread.inl:213-221 | for any parameters a run from the start comes to the highest load at which a worker still pulls, and then to that load and a whole light pull |
| `TaskLoad.LoadBelowLimitIff` | Base/thread/RThread.inl:157-179 | in every run from every reachable state the load stays below its limit, parameters left alone, if and only if a light pull from the highest middle load does |
| `TaskLoad.QuarterExceedsLimit` | Base/thread/RThread.h:79-80 | with the default divisors at a limit of 100 a run from the start takes a load from 79 to 104 |
| `RThread.Thread.AddTasks` | Base/thread/RThread.inl:110-154 | -1 without a queue or a wish; else the count, and exactly that many tasks moved in order: all that were asked for, unless fewer are there or it is a batch of more than half the largest load |
| `RThread.Thread.AddByLevel` | Base/thread/RThread.inl:156-179 | moves nothing, the light or the middle batch by the same bands, in order, and exactly that much |
| `RThread.Thread.PopAndCall` | Base/thread/RThread.inl:243-244 | pops whether or not there is anything and calls what the kept variable then holds: the specified two steps, a repeated or throwing call included |
| `RThread.Thread.Wipe` | Base/thread/RThread.inl:268-285 | undisturbed, calls everything queued once, in order |
| `RThread.Thread.Cancel` | Base/thread/RThread.inl:197-203 | empties the worker's queue |
| `Codec.SizeRoundTrip` | Base/message/BaseMessage.cpp:38-40 | eight bytes give back every size below 2^64 |
| `Codec.EncodeLength` | Base/message/BaseMessage.cpp:45-57 | the encoding is exactly as long as the counted length |
| `Codec.EncodeStartsWithTotal` | Base/message/BaseMessage.cpp:55-56 | the first eight bytes of a message are its length |
| `Codec.SizeDigits` | Base/message/BaseMessage.cpp:38-40 | the eight bytes of a size are its digits to the base 256, lowest first |
| `Codec.Layout` | Base/message/BaseMessage.cpp:55-56 | where the length, the number of table entries, each entry, the name and the members stand |
| `Codec.MemberStands` | Base/message/BaseMessage.h:80-111 | where each member stands in the table and in the bytes, and what its entries count |
| `Codec.TableFits` | Base/message/BaseMessage.h:80-111 | every entry of the length table fits whenever the total does |
| `Codec.HeaderBack` | Base/message/BaseMessage.cpp:59-68 | the header, the appended table and the name are read back, and the cursor stands at the first member |
| `Codec.FieldBack` | Base/message/BaseMessage.h:176-219 | each kind of member is read back: vectors are extended, everything else replaced |
| `Codec.FieldsBack` | Base/message/BaseMessage.h:166-174 | all members are read back in order, using exactly the table's entries |
| `Codec.ReceiveBack` | Base/message/BaseMessage.cpp:25-68 | for every schema and every receiver that is ready: name, length and members come back and exactly the message's bytes are read |
| `Codec.RoundTrip` | Base/message/BaseMessage.h:61-219 | a fresh object restores every member of every schema, including empty strings, vectors and a trailing list of strings |
| `Codec.ReuseRoundTrip` | LoginServer/LoginMessageOp.cpp:168-168 | a sequence of messages of strings and primitives decoded into one object yields each message's own fields |
| `Codec.ReuseIff` | Base/message/BaseMessage.h:192-211 | a reused object shows a message's own fields if and only if its vectors were empty |
| `Codec.TextsReuse` | Base/message/BaseMessage.h:212-219 | after a list of strings the table is used up if and only if the list was empty; else the next name is cut to the first string's length |
| `Codec.BaseDecode` | LoginServer/LoginMessageOp.cpp:151-153 | a base decode of any message yields that message's own name and length, as long as eight bytes follow the name |
| `Codec.NestedRoundTrip` | Base/message/CustomMessages.cpp:113-136 | unpacking a packer message and then each string restores every inner message |
| `Codec.PlainTypes` | Base/message/LoginMessage.cpp:55-160 | the message types of strings and primitives are schemas and plain |
| `Codec.VectorTypes` | Base/message/CustomMessages.cpp:62-136 | the message types with vectors are schemas and not plain |
| `Codec.ProgramRoundTrips` | Base/message/GameMessage.cpp:6-86 | every message of every type of the program is restored by a fresh object, and every sequence of plain ones by one object |
| `MessageObject.BaseMessage.Count` | Base/message/BaseMessage.cpp:7-14 | the length and the table grow by what the message needs; from zero they are exact |
| `MessageObject.BaseMessage.CountTexts` | Base/message/BaseMessage.h:102-111 | a list of strings counts its bytes and one entry for each string |
| `MessageObject.BaseMessage.Serialize` | Base/message/BaseMessage.cpp:16-57 | the bytes are the encoding, every copy fits the buffer, and the cursor ends at the counted length |
| `MessageObject.BaseMessage.FillArrayLike` | Base/message/BaseMessage.cpp:32-43 | the announced sizes are appended to the table |
| `MessageObject.BaseMessage.DeserializeHelper` | Base/message/BaseMessage.cpp:59-68 | the header is read into whatever the object held |
| `MessageObject.BaseMessage.PopMember` | Base/message/BaseMessage.h:176-219 | one member is read as specified for its kind |
| `MessageObject.BaseMessage.Deserialize` | Base/message/BaseMessage.cpp:25-30 | decoding into this object is the specified receive, failures included |
| `MessageObject.RoundTripObjects` | Base/message/BaseMessage.h:61-219 | a message built, counted and serialised by one object is restored by another |
| `IOBuffer.SizeStaysInRange` | Base/net/IOBuffer.h:85-99 | the working size stays between 1024 and 65536 |
| `IOBuffer.FullReadGrows` | Base/net/IOBuffer.h:87-97 | after a read of n bytes that fills the area the size is k initial sizes or the largest, where n lies between k - 1 and k areas; the count starts again |
| `IOBuffer.GrowsPastTheRead` | Base/net/IOBuffer.h:87-97 | from the initial size the new size exceeds the read by at most 1024, or is the largest |
| `IOBuffer.FullReadGrowsIff` | Base/net/IOBuffer.h:97-97 | exactly when such a read makes the area larger, and one that makes it smaller |
| `IOBuffer.BecomesLargestIff` | Base/net/IOBuffer.h:97-97 | sizes are whole initial sizes, and the largest is reached exactly by a read of 63 of them or more at the initial size |
| `IOBuffer.ReachesLargest` | Base/net/IOBuffer.h:65-118 | a run of reads from a new buffer that reaches the largest size |
| `IOBuffer.Buffer.Read` | Base/net/IOBuffer.h:65-118 | the queued chunk is exactly the bytes delivered, contiguous across both areas, and the area's length equals its size again |
| `IOBuffer.Buffer.Write` | Base/net/IOBuffer.h:120-140 | what was not taken is queued at the back; after an error nothing is |
| `IOBuffer.Buffer.Get` | Base/net/IOBuffer.h:50-59 | the oldest chunk, or none |
| `IOBuffer.LargestSizeIsForEver` | Base/net/IOBuffer.h:101-109 | a buffer at its largest size never shrinks and counts no reads, whatever arrives |
| `IOBuffer.RunKeepsDecayFit` | Base/net/IOBuffer.h:88-92 | in every reachable state a count of five or more goes with the initial size, also after the counter wraps |
| `IOBuffer.ShortReadsDecay` | Base/net/IOBuffer.h:88-92 | below the largest size, five reads in a row that are short for the area they meet restore the initial size, whatever the count was |
| `IOBuffer.FourKeepTheSize` | Base/net/IOBuffer.h:88-96 | after a read that filled the area its size stays through four short reads |
| `IOBuffer.CounterWraps` | Base/net/IOBuffer.h:90-90 | short reads are counted modulo 65536 |
| `Framing.TcpConnection.GetMessage` | Base/net/TcpConnection.h:128-211 | the loops over the chunks compute the specified result and connection |
| `Framing.TryGetMeets` | Base/net/TcpConnection.h:157-210 | the result is the first bytes of the stream, or empty exactly when it is too short, and the stream loses exactly what was taken |
| `Framing.LookKeepsStreamIff` | Base/net/TcpConnection.h:159-166 | a look leaves the stream as it was if and only if not exactly that much is retained |
| `Framing.Retained` | Base/net/TcpConnection.h:157-210 | what a call leaves retained, chunk by chunk: just as many chunks move up as are needed, or all of them |
| `Framing.GetEverything` | Base/net/TcpConnection.h:133-156 | a call for everything answers with what is retained, or with one chunk when nothing is, and loses nothing unless it was to look only and took a chunk |
| `Framing.StreamKeptIff` | Base/net/TcpConnection.h:128-211 | in any sequence of arrivals and calls with any lengths, what was taken and then what is pending is what was there and then what arrived, if and only if no look asks for exactly what is retained, or for everything with a chunk there and nothing retained |
| `Framing.OnReadMeets` | LoginServer/LoginMessageOp.cpp:131-149 | a read event takes exactly the frame at the front of the stream, if it is whole, and nothing else changes |
| `Framing.TakesWhenWhole` | LoginServer/LoginMessageOp.cpp:134-149 | a message is taken if and only if a length of eight or more has arrived and that many bytes with it |
| `Framing.OnReadConservesIff` | LoginServer/LoginMessageOp.cpp:134-149 | no byte is lost or repeated by a read event if and only if it does not start with exactly eight retained bytes |
| `Framing.ServeHolds` | LoginServer/LoginMessageOp.cpp:124-168 | a run never gains bytes, and loses some for good as soon as one event starts with eight retained bytes |
| `Framing.DispatchBack` | LoginServer/LoginMessageOp.cpp:149-168 | a frame is decoded into the object of its name as the message it encodes, and the object is ready again |
| `Framing.DispatchKeeps` | LoginServer/LoginMessageOp.cpp:149-168 | whatever a frame holds, at most the object of its name changes, no schema does, and nothing when no message comes out |
| `Framing.FrontIsNext` | LoginServer/LoginMessageOp.cpp:131-148 | the front frame of the wire is its next message exactly when all of that has arrived |
| `Framing.EndToEnd` | LoginServer/LoginMessageOp.cpp:124-168 | for any chunks, the frames taken are the encodings of the first messages, decode to exactly those, and the rest is still there, if and only if no read event starts with exactly eight retained bytes |
| `Framing.TakenAllIff` | LoginServer/LoginMessageOp.cpp:124-168 | taking at most one whole message at each event takes all that are whole at the end if and only if, for every event, those whole by then and one for each later event are enough |
| `Framing.EverythingTakenIff` | LoginServer/LoginMessageOp.cpp:124-168 | a run without loss has decoded every message that has wholly arrived if and only if the events keep up in that sense |
| `Framing.TwoTogether` | LoginServer/LoginMessageOp.cpp:131-149 | of two messages that arrive together only the first is taken |
| `Framing.SplitAtLengthLosesMessage` | Base/net/TcpConnection.h:159-166 | any message whose first eight bytes arrive alone is never delivered |
| `LoginMessageOp.MessageOp.Overwrite` | LoginServer/LoginMessageOp.cpp:168-168 | decodes into the object of this name, or says that it cannot; the other objects keep what they hold |
| `LoginMessageOp.MessageOp.NameOf` | LoginServer/LoginMessageOp.cpp:151-153 | the name that the base decode reads, or that it cannot |
| `LoginMessageOp.MessageOp.HandleFrame` | LoginServer/LoginMessageOp.cpp:149-168 | a frame is dispatched as specified, an unknown name dropped, and false returned exactly where it cannot be decoded |
| `LoginMessageOp.MessageOp.MessageFunc` | LoginServer/LoginMessageOp.cpp:124-168 | one call is one step of the specified server, or false exactly where its frame cannot be decoded |
| `LoginMessageOp.MessageOp.ReadFunc` | Base/net/TcpConnection.h:246-264 | a read event is one step of the specified server; the end of the stream closes, and a failed read changes nothing |
| `Outgoing.StepStream` | Base/net/TcpConnection.h:84-118 | the exact stream after any send, put or writable event |
| `Outgoing.StepKeepsOrder` | Base/net/TcpConnection.h:84-118 | a chunk taken whole, or with nothing behind it, keeps the bytes in order |
| `Outgoing.KeepsOrderIff` | Base/net/IOBuffer.h:130-137 | the order is kept if and only if the chunk is taken whole or nothing waits behind it |
| `Outgoing.LosesNothingIff` | Base/net/IOBuffer.h:124-129 | nothing is lost or repeated if and only if the kernel refuses no chunk |
| `Outgoing.RunKeepsOrder` | Base/net/TcpConnection.h:84-118 | over a run in order, what was taken and what waits is what was handed over, in order |
| `Outgoing.RunLosesNothing` | Base/net/TcpConnection.h:84-118 | over a run each item is on the wire or waiting, once, if and only if no chunk was refused |
| `Outgoing.AskedWhileWaiting` | Base/net/TcpConnection.h:91-117 | writable events stay asked for while anything waits |
| `Outgoing.InterestIff` | Base/net/TcpConnection.h:84-118 | a send or put asks for writable events exactly when they were asked for or something waits; a writable event with nothing waiting ends it |
| `Outgoing.ChunksStayApart` | Base/net/TcpConnection.h:265-278 | which chunks wait after any step, and in which order |
| `Outgoing.Drains` | Base/net/TcpConnection.h:265-278 | when the kernel takes something each time, everything reaches the wire once and the interest is dropped |
| `Outgoing.PartialWriteInterleaves` | Base/net/TcpConnection.h:265-278 | of two waiting chunks, the second gets between the halves of a first that was taken in part |
| `Outgoing.SenderToReceiver` | Base/net/TcpConnection.h:84-278 | whenever the wire and then what waits are what was handed over, messages sent over one connection are decoded in order at the other end, if and only if no read event there starts with exactly eight retained bytes |
| `Outgoing.Sender.Send` | Base/net/TcpConnection.h:84-105 | the specified step: the oldest waiting chunk is written first |
| `Outgoing.Sender.PutToBuffer` | Base/net/TcpConnection.h:113-118 | the specified step |
| `Outgoing.Sender.WriteFunc` | Base/net/TcpConnection.h:265-278 | the specified step; interest in writing is dropped when nothing waits |
| `PendingMessages.HandleItemKeepsOthers` | Broker/RSBrokerManager.cpp:90-129 | handling one message leaves every other pending one exactly as it was |
| `PendingMessages.HandleItemProgress` | Broker/RSBrokerManager.cpp:95-128 | a message is given up, acknowledged or claimed only within its limits and never to its holder; deliveries left go down, or nothing changed and it was not overdue |
| `PendingMessages.FirstOtherIsOther` | Broker/RSBrokerManager.cpp:52-63 | a sibling is another name in the group name's entry of the table |
| `PendingMessages.PassProgress` | Broker/RSBrokerManager.cpp:65-138 | a pass brings the deliveries left down, or changes nothing and every message was looked at and is not overdue |
| `PendingMessages.InGroupIff` | Broker/RSBrokerManager.cpp:15-18 | a group is queued exactly when a message of this key and group is pending |
| `PendingMessages.KeysInOrder` | Broker/RSBrokerManager.cpp:67-70 | groups are queued key by key |
| `PendingMessages.GroupsInOrder` | Broker/RSBrokerManager.cpp:74-78 | visits are queued group by group |
| `PendingMessages.VisitsInOrder` | Broker/RSBrokerManager.cpp:37-42 | and consumer by consumer, each with the number of messages then held |
| `PendingMessages.ShownFirst` | Broker/RSBrokerManager.cpp:86-90 | a visit is shown the consumer's first messages in the order of the list, as many as were counted or all there are |
| `PendingMessages.PassKeeps` | Broker/RSBrokerManager.cpp:65-138 | ids stay unique and the list covered, and deliveries never go more than one past the limit |
| `PendingMessages.RoundProgress` | Broker/RSBrokerManager.h:36-48 | while anything is pending, time passing and then a pass brings the measure down |
| `PendingMessages.EverythingLeaves` | Broker/RSBrokerManager.cpp:65-138 | every pending message leaves after at most as many rounds as the measure |
| `PendingMessages.DeletesOnlyGivenUp` | Broker/RSBrokerManager.cpp:95-103 | a stored message is deleted only after more deliveries than the limit |
| `SharedSiblings.TableIsUnion` | Broker/RSBrokerManager.cpp:8-50 | an entry of a pass's table is the ordered union of the consumers of all groups of that name with pending messages, over all registered keys |
| `SharedSiblings.VisitsLog` | Broker/RSBrokerManager.cpp:80-138 | the log of a pass is what it decides about the messages it looks at, in order |
| `SharedSiblings.ClaimedIff` | Broker/RSBrokerManager.cpp:110-129 | a pass claims a message for a consumer if and only if it looks at it, finds it in the window, and the consumer is the least name other than the holder's in that union, and not empty |
| `SharedSiblings.HandedOnIff` | Broker/RSBrokerManager.cpp:112-129 | a message looked at in the window is handed on if and only if the union has another name and its least is not empty |
| `SharedSiblings.ClaimStaysIff` | Broker/RSBrokerManager.cpp:52-63 | a claim goes to a consumer of the message's own group if and only if the least other name in the union is one |
| `SharedSiblings.ApartStays` | Broker/RSBrokerManager.cpp:19-22 | it always does when no two registered keys have groups of the same name |
| `SharedSiblings.ClaimLeavesGroup` | Broker/RSBrokerManager.cpp:65-138 | a whole pass over two keys that share a group name hands a message to a consumer its group does not have |
| `SharedSiblings.StaleStays` | Broker/RSBrokerManager.cpp:8-24 | collecting the groups leaves the entry of a group that no key has any more |
| `PassEffects.ItemEffect` | Broker/RSBrokerManager.cpp:95-129 | entry by entry on the list: a message given up leaves it and is deleted, one acknowledged leaves it, one handed on changes its holder in its place, no longer idle and delivered once more, and its holder becomes a consumer of the group; else nothing changes |
| `PassEffects.PassReplays` | Broker/RSBrokerManager.cpp:65-138 | the server after a pass is the one before with exactly the acts the pass logs applied in order |
| `PassEffects.ClaimLands` | Broker/RSBrokerManager.cpp:112-129 | each claim in the log is a change of holder on the server after the pass, with exactly one entry, unless it was the last delivery and the same pass looked at the message again |
| `PassEffects.EndedLeaves` | Broker/RSBrokerManager.cpp:95-113 | what a pass gives up or acknowledges has no entry afterwards |
| `PassEffects.StoredIff` | Broker/RSBrokerManager.cpp:95-103 | a stored message is deleted by a pass if and only if the pass gives it up |
| `PassEffects.UnloggedStays` | Broker/RSBrokerManager.cpp:90-129 | a message nothing is logged about has exactly the entry it had |
| `PassEffects.ClaimedAndGivenUp` | Broker/RSBrokerManager.cpp:80-135 | a whole pass that hands a message on and then gives it up and deletes it |
| `RSBrokerManager.InsertIsSetInsert` | Broker/RSBrokerManager.h:34-34 | the ordered set keeps its order and gains exactly the name |
| `RSBrokerManager.LessIff` | Broker/RSBrokerManager.h:34-34 | the order of the set is the one of a dictionary |
| `RSBrokerManager.SiblingsAreConsumers` | Broker/RSBrokerManager.cpp:37-48 | a group name's entry of the table is what it was with all the consumers of this key's group, and other entries stay |
| `RSBrokerManager.SiblingIff` | Broker/RSBrokerManager.cpp:52-63 | an entry of the table names a sibling if and only if it has another name and the first such is not empty; it is the least one |
| `RSBrokerManager.BrokerManager.PushPendingGroups` | Broker/RSBrokerManager.cpp:8-24 | queues exactly the groups with pending messages and empties every group's siblings |
| `RSBrokerManager.BrokerManager.PushPendingConsumers` | Broker/RSBrokerManager.cpp:26-50 | queues exactly the consumers with pending messages, with their counts, and fills the siblings |
| `RSBrokerManager.BrokerManager.GetOneSibling` | Broker/RSBrokerManager.cpp:52-63 | the first other name of the group name's entry, or the empty name |
| `RSBrokerManager.BrokerManager.HandleVisit` | Broker/RSBrokerManager.cpp:80-135 | handles the consumer's messages one by one, as they were when asked for |
| `RSBrokerManager.BrokerManager.HandlePending` | Broker/RSBrokerManager.cpp:65-138 | one call is one pass, and both queues are empty again |
| `RSBrokerManager.BrokerManager.SetTolerantTime` | Broker/RSBrokerManager.h:26-26 | at least 8000, else 10000 |
| `RSBrokerManager.BrokerManager.SetTransferTime` | Broker/RSBrokerManager.h:30-30 | at least 1000 |
| `RSBrokerManager.BrokerManager.SetMaxDelivered` | Broker/RSBrokerManager.h:32-32 | at least 3 |
| `RSBrokerManager.BrokerManager.SetNapSecond` | Broker/RSBrokerManager.h:22-22 | more than 10, else 1000 |
| `RSBrokerManager.BrokerManager.RegisterKey` | Broker/RSBrokerManager.h:34-34 | adds the key, and says whether it was new |
| `PollPoller.RegisterKeepsIff` | Base/net/Poller.h:28-37 | registering keeps the table if and only if the descriptor is registered already or the handler holds no index |
| `PollPoller.UpdateMeets` | Base/net/PollPoller.h:86-115 | an update sets this descriptor's interest, muted when it has none and had a slot, and no other |
| `PollPoller.RemoveMeets` | Base/net/PollPoller.h:117-144 | removing by moving the last slot takes exactly this descriptor out of the watched ones, disabled ones included |
| `PollPoller.UpdateWrites` | Base/net/PollPoller.h:92-114 | the slot an update writes: the descriptor, or its complement when nothing is asked for, the events, and none returned |
| `PollPoller.RemoveMovesLast` | Base/net/PollPoller.h:123-143 | a removal moves at most the descriptor of the last slot, into the freed one |
| `PollPoller.UpdateKeepsIff` | Base/net/PollPoller.h:92-114 | through any other handler the table survives if and only if its index agrees with the registered one |
| `PollPoller.RemoveKeepsIff` | Base/net/PollPoller.h:123-143 | likewise for remove |
| `PollPoller.RunRefines` | Base/net/PollPoller.h:86-144 | any run through handlers not used after removal never throws, keeps slots and indices inverse, and is the run on the watched descriptors alone |
| `PollPoller.RemovedIsGone` | Base/net/PollPoller.h:117-144 | after any run that ends with removing a descriptor, poll is not asked about it |
| `PollPoller.Poller.RegisterEventHandler` | Base/net/Poller.h:28-31 | the first handler of a descriptor stays; the table survives if and only if it is that or holds no index |
| `PollPoller.Poller.RegisterFd` | Base/net/Poller.h:33-37 | makes a handler of its own |
| `PollPoller.Poller.Update` | Base/net/PollPoller.h:86-115 | the specified step through any handler, with exactly when it throws or breaks the table |
| `PollPoller.Poller.Remove` | Base/net/PollPoller.h:117-144 | the specified step through any handler; the moved handler's index follows its slot |
| `EventLoopThreadpool.ChosenIs` | Base/net/EventLoopThreadpool.h:129-150 | -1 if and only if no loop runs; else a running loop, and every loop passed over does not run |
| `EventLoopThreadpool.ChosenRank` | Base/net/EventLoopThreadpool.h:129-150 | the choice is the next running loop in cyclic order |
| `EventLoopThreadpool.Fair` | Base/net/EventLoopThreadpool.h:129-150 | any run of calls as long as there are running loops answers each of them exactly once |
| `EventLoopThreadpool.Pool.RoundRobinIndex` | Base/net/EventLoopThreadpool.h:129-150 | the scan computes that choice among the used loops, moves the turn to it, and keeps the turn below their number |
| `EventLoopThreadpool.Pool.FewerEventsIndex` | Base/net/EventLoopThreadpool.h:153-167 | the first running loop with the fewest events, or -1 if no running loop is below the largest count |
| `EventLoopThreadpool.Pool.constructor` | Base/net/EventLoopThreadpool.h:22-32 | as many threads as asked for, none looping yet; no more are used than the hardware has |
| `SafeHashmap.LookupMeets` | Base/utility/SafeHashmap.h:141-148 | looking a key up in its bucket is looking it up in the whole map |
| `SafeHashmap.InsertMeets` | Base/utility/SafeHashmap.h:150-153 | inserting adds an absent key and changes nothing otherwise |
| `SafeHashmap.EraseMeets` | Base/utility/SafeHashmap.h:158-161 | erasing removes exactly this key |
| `SafeHashmap.AssignsIff` | Base/utility/SafeHashmap.h:154-157 | insert-or-assign sets the value if and only if the key was absent or had it already |
| `SafeHashmap.SizeMeets` | Base/utility/SafeHashmap.h:165-181 | the size is the number of distinct keys, and the pairs of all buckets are the map's, each once |
| `SafeHashmap.ReadingVisitsAll` | Base/utility/SafeHashmap.h:176-181 | the values read over all indices are as many as the keys, and each place belongs to exactly one key and holds its value |
| `SafeHashmap.InsertAtEnd` | Base/utility/SafeHashmap.h:52-61 | a bucket grows at its end: a reader visits what it visited before, then the new value |
| `SafeHashmap.EraseTakesOne` | Base/utility/SafeHashmap.h:78-87 | erasing takes out one pair, and the others keep their order |
| `SafeHashmap.RunMeets` | Base/utility/SafeHashmap.h:141-181 | for any hash and number of buckets, any run is the run on one finite map |
| `SafeHashmap.AssignInMeets` | Base/utility/SafeHashmap.h:63-76 | a bucket by itself would assign |
| `SafeHashmap.Bucket.Find` | Base/utility/SafeHashmap.h:20-34 | the value of the key, if the bucket has it |
| `SafeHashmap.Bucket.Insert` | Base/utility/SafeHashmap.h:52-61 | appends the pair if the key is absent |
| `SafeHashmap.Bucket.Erase` | Base/utility/SafeHashmap.h:78-87 | removes the key's pair and keeps the order of the others |
| `SafeHashmap.Hashmap.constructor` | Base/utility/SafeHashmap.h:119-134 | as many empty buckets as asked for; none at all when asked for none |
| `SafeHashmap.Hashmap.Find` | Base/utility/SafeHashmap.h:141-148 | the map's value, or a throw exactly when there are no buckets |
| `SafeHashmap.Hashmap.Insert` | Base/utility/SafeHashmap.h:150-153 | the specified step |
| `SafeHashmap.Hashmap.InsertOrAssign` | Base/utility/SafeHashmap.h:154-157 | the same step as Insert |
| `SafeHashmap.Hashmap.Erase` | Base/utility/SafeHashmap.h:158-161 | the specified step |
| `SafeHashmap.Hashmap.Size` | Base/utility/SafeHashmap.h:165-174 | the number of distinct keys |
| `SafeHashmap.Hashmap.ReadAll` | Base/utility/SafeHashmap.h:176-181 | as many values as the bucket has pairs, each its pair's, in order; nothing past the last index |

## Left out

- Sockets, epoll, eventfd, files and the system clock: replaced by the chunks and counts the kernel delivers, by ticks, and by whether a file could be created.
- Data races and memory ordering: every step is atomic; a completion command is one step except where its splitting is the point.
- Weak pointers that fail to lock, exceptions and reads outside a buffer: outside the model, or `None`, `false` or an error value where the code can meet them.
- Wrap-around of `size_t` arithmetic on durations, clocks and sizes: numbers are unbounded, except that message sizes are below 2^64.
- A moved-from string is taken to be empty, as it is in the common libraries.
- The order in which several tasks run inside one second is fixed by the lists in `TimingWheel` but left open in `DeadlineTable`; `TimerOrder` states it for tasks with the same delay only.
- Log, message and connection buffers are values handed from owner to owner, because the program holds each through a unique pointer: sharing of one buffer by two owners is not expressible.
- Logger.LoggerFile.Archive: takes the system's write to be complete; what happens otherwise is stated by WriteLoop and WholeBufferIff.
- Loading ratios of a worker are compared exactly, by multiplying out, and not in single-precision floating point.
- Updating a worker with a divisor of zero, which is undefined in the program, gives a pull size of zero here.
- What a second call of a task does: one that returns a value throws then, one that returns none runs again.
- Cancellation is one step, from its flags to the emptied queue; so are the other commands.
- Capturing the results of tasks in futures, and the results queue.
- The capacity clamp, the cursor and line-wise reading of a log buffer; log message formatting, log paths and file names.
- `PollPoller::poll`, whose scan does not test the returned events, and the epoll poller.
- Choosing an event loop by handling rate, which compares measured floating-point rates.
- Resizing the thread pool, starting and joining of threads, and the loops that run for ever: their bodies are modelled.
- Redis is only the list of pending messages with its groups and consumers: errors of its commands, reading and adding messages by consumers are not part of the model.
- Messages counted twice before they are serialised; the sum is stated by MessageObject.BaseMessage.Count but no decoding of it.
- Locks and shared locks of the hash map's buckets; copying a value into a new shared pointer.
- Message headers other than those of the base message, MongoDB, the Redis cache and its wrappers, service configuration, the service registry and the scene manager: foreign calls or short branches.
- The demonstration programs, tests, build files and diagrams.

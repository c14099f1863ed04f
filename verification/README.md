# XPRC: a model of its data structures and state machines

XPRC is a C plugin that lets clients read and change a flight simulator's data over a line-based TCP protocol. This
project models its hand-written data structures, its per-frame commands, its channel protocol and its text formats in
Dafny and proves what they keep over every run:

- **Lists and scheduling** (`PreallocCells`, `PreallocList`, `SchedulePass`, `TaskSchedule`, `ListSorting`): the
  block-preallocated list with its threaded chain, deferred destruction and compaction; the scheduler that walks this
  chain while callbacks take items out of it; the quicksort behind sorted list copies.
- **Network buffers** (`SendRing`, `ReceiveLines`): the send ring shared by producers and the sender thread, as atomic
  steps between which the lock changes hands; the assembly of lines from chunks.
- **Channels** (`ChannelIds`, `ChannelTable`, `MessageFormat`, `Decimals`, `ChannelProtocol`): IDs, the two-level table
  and the maintenance sweep over it, the message formatter, and the order of messages on a channel.
- **Commands that run per frame** (`Intervals`, `CmtrTrace`, `Cmtr`, `CmtrCycles`, `CmtrTimetable`, `CmtrCommand`,
  `Drqv`, `Drmu`, `DrmuCycles`, `DrmuCommand`): CMTR holds, releases and triggers simulator commands, DRQV samples
  datarefs, DRMU moves datarefs to target values. They run at any clock values and any number of frames.
- **Text formats** (`Texts`, `RequestText`, `Requests`, `ArrayText`, `Protocol`, `TypeNames`): requests, arrays, types.
- **Lifecycles** (`DataProxy`, `ServerManager`): proxies for datarefs, and starting, stopping and shutting down the
  server.

`Wrappers` and `Sequences` hold what all of them share.

## How the model is built

Objects that the program updates in place are classes, with methods that follow the statements of the C functions; the
methods are proved against functions on values (a record of the object's fields before and after), and what holds over
whole runs is proved about those functions. What lies outside of the modelled code becomes a parameter: the session
clock, allocation, the network, the simulator's answers, locking, and the decisions of callbacks. Threads are modelled
by the atomic steps they take while they hold a lock.

## Where the code does something other than its documentation says

The model follows the code.

- The outer channel table has 62 to the power of 3 entries (`src/channels.h:42`), but IDs are packed with 6 bits per
  character, so that the largest address is 253821. `ChannelTable.IdsInTable` says which IDs fit; table operations
  require one that does.
- An option that is given twice is not refused (`src/requests.c:88-104`), since the name compared runs on to the end of
  the line; only a NUL in the line changes that. See `RequestText.DuplicateAccepted` and `RequestText.RefusedHasNul`.
- Options without parameters are parsed as if there was one empty parameter (`src/requests.c:247-258`).
- An empty blob is encoded as "0", which is not accepted when parsing (`src/protocol.c:341-347`).
- Parsing arrays and lists of types looks for separators behind the given length (`src/protocol.c:43`,
  `src/protocol.c:381`), although strings are said not to need a terminating NUL. `ArrayText.IntsRoundTrip` and
  `TypeNames.ListRoundTrip` say exactly which text behind them matters; `ArrayText.ReadsBeyond` is an example.
- CMTR holds once more than it is told to if the frame that ends the last hold is one in which the next cycle is due
  (`src/command_cmtr.c:374-400`). In frames this is so if and only if hold >= repeatFreq (`CmtrCycles.CyclesExactly`).
  In milliseconds it depends on when frames come: it is so if and only if none comes after the end of the last hold and
  before the next cycle is due (`CmtrTimetable.RoundsByClock`, for all units), which also happens with
  hold < repeatFreq (`CmtrTimetable.LateFrame`).
- The `holding` flag of a CMTR command does not always tell if any commands are held (`src/command_cmtr.c:62`), since
  terminating it ends holds but leaves the flag alone (`src/command_cmtr.c:142-199`). While the command is scheduled the
  flag is exact (`CmtrCycles.HeldIsFlagged`); after a termination it is if and only if the termination was refused, the
  flag was not set or an end could not be queued (`Cmtr.FlagOutlivesHold`; `Cmtr.StillFlagged` is a case in which it is
  wrong).
- DRMU does not always get to the target values of a cycle, since the next one starts first
  (`src/command_drmu.c:495-530`). In frames no cycle gets there if and only if the duration is longer than repeatFreq
  (`DrmuCycles.InFramesExactly`). In milliseconds none ever does already with duration = repeatFreq
  (`DrmuCycles.NeverInTime`), and with a shorter duration only those do in which a frame comes between both times
  (`DrmuCycles.InTimeExactly`, `DrmuCycles.NoFrameInTime`).
- DRQV takes a sample at time 0 of the session for no data (`src/command_drqv.c:317`): it is not sent, and a query whose
  last sample it is never ends. See `Drqv.TimedSamplesSent` and `Drqv.NeverAnswered`.
- `drop_dataproxy` works on registered proxies only (`src/dataproxy.c:469`), although reserved ones are promised, too.
- The number of digits of a timestamp is counted after conversion to int (`src/session.c:175`); from 2 to the power of 31
  milliseconds on, timestamps can be cut off.
- A confirmation that is lost on the network leaves the channel confirmed; if the clock or memory allocation fails for
  the error message that follows, the next message comes first on the wire and has no ACK (`src/session.c:236-257`).
  `ChannelProtocol.InOrderExactly` says that this is the only way in which the order of messages is lost.
- An immediate destructor is called on deletion even if the item's value is NULL (`src/lists.c:147-149`).
- A task is to run until it is unscheduled (`src/task_schedule.h:121`), but a pass still calls one that was unscheduled
  during it if and only if a callback unscheduled first itself and then the task next to it, whose place in the queue it
  still leads to (`src/task_schedule.c:258-266`). See `TaskSchedule.PassExactly` and `SchedulePass.StrandingTurn`.
- `clean_schedule` frees no memory of tasks that have been unscheduled (`src/task_schedule.c:335-358`).
- `shutdown_managed_server` sets its flag before taking the lock (`src/server_manager.c:198-201`); if taking the lock
  fails, a start that is pending still happens. `ServerManager.ShutdownEnds` gives the exact condition.

## Model

| member | source | states |
|---|---|---|
| PreallocList.PreallocList.constructor | src/lists.c:10-26 | an empty list with one block of pristine items, no destructor called |
| PreallocList.PreallocList.EnsureRoom | src/lists.c:63-73 | a further block is allocated only if the last one is used up; fails, changing nothing, exactly if that allocation fails; shows the same list else |
| PreallocList.PreallocList.Append | src/lists.c:58-95 | appends exactly the value to the list of values, in the next pristine item, or changes nothing if a needed block cannot be allocated; the invariant of the structure is kept |
| PreallocList.PreallocList.FillItem | src/lists.c:75-92 | filling the next pristine item and linking it behind the last one appends to positions, cells and values |
| PreallocList.PreallocList.GetItem | src/lists.c:97-113 | the item at an index of the list, NULL for any other index |
| PreallocList.PreallocList.DeleteItem | src/lists.c:115-155 | removes exactly the item's value from the list, or fails and changes nothing if the item is not in use; the item keeps its own successor; the immediate destructor is called once, on whatever value the item held |
| PreallocList.PreallocList.Unlink | src/lists.c:124-142 | unlinking keeps first and last pointer, size and both chains consistent |
| PreallocList.PreallocList.Compact | src/lists.c:157-246 | keeps the list of values; afterwards no item is deleted and all blocks but the last are full; exactly the selected destructors have been called; nothing at all changes if an allocation fails part-way |
| PreallocList.PreallocList.CallDestructors | src/lists.c:224-243 | the loop over the old blocks calls the deferred or the supplied destructor of each deleted item with a value, in order |
| PreallocList.PreallocList.Repack | src/lists.c:167-222 | the new blocks hold the items in use, in order, and replace the old ones only if every allocation worked |
| PreallocList.PreallocList.CopyValues | src/lists.c:167-209 | following the old chain copies all values to gap-free blocks; fails exactly if more blocks are needed than can be allocated |
| PreallocList.ChainsAgree | src/lists.c:58-155 | following next links from first, following prev links from last, size, and the items in use across all blocks give the same sequence, and both walks end |
| PreallocList.PristineItems | src/lists.c:75-78 | an item is pristine if and only if it lies at or beyond the first pristine index of its block |
| PreallocList.AppendKeeps | src/lists.c:75-92 | the linking steps of an append keep the structure consistent and append to positions and values |
| PreallocList.DeleteKeeps | src/lists.c:124-142 | the unlinking steps of a deletion keep the structure consistent and remove exactly one position and value |
| PreallocList.StaysInPlace | src/lists.c:136-142 | deleting an item leaves its own next link as it was, which iterating code relies on |
| PreallocList.PackedIsConsistent | src/lists.c:196-222 | gap-free blocks with links to the neighbours form a consistent list of the copied values |
| PreallocCells.LiveRemove | src/lists.c:120-142 | taking the k-th item in use out of use removes exactly the k-th element of the list |
| PreallocCells.LiveAppend | src/lists.c:75-92 | handing out an item behind all those in use appends to the list |
| PreallocCells.PackedKeepsLive | src/lists.c:157-246 | the cells after a compaction show the same list of values and nothing deleted |
| PreallocCells.CompactionCallsOnce | src/lists.c:224-243 | a compaction calls the selected destructor once per deleted item with a value, and none for a surviving item |
| PreallocCells.NoCompactionCalls | src/lists.c:157-163 | with nothing deleted no destructor is due |
| ListSorting.Partition | src/lists.c:400-420 | Hoare partition stays in bounds, ends with lower <= split < upper, and leaves no item of the left part above the pivot and none of the right part below it |
| ListSorting.ScanUp | src/lists.c:408-410 | the upward scan stops at the first item that is not below the pivot, within bounds |
| ListSorting.ScanDown | src/lists.c:408-410 | the downward scan stops at the first item that is not above the pivot, within bounds |
| ListSorting.QuickSort | src/lists.c:422-433 | sorts the range in place for every total preorder, keeping its items and everything outside of it; ends |
| ListSorting.SortedHalves | src/lists.c:422-433 | sorting both parts of a partition sorts the whole range |
| ListSorting.CollectSorted | src/lists.c:458-481 | the array filled from the list is sorted and holds the same items |
| ListSorting.CollectItems | src/lists.c:458-478 | all items, in list order |
| ListSorting.CopyListSorted | src/lists.c:443-495 | a sorted permutation of the values in a new list, or NULL if an allocation fails; the original list is unchanged |
| TaskSchedule.TaskSchedule.ScheduleTask | src/task_schedule.c:272-291 | appends to the queue of the phase unless destruction is pending, the phase is invalid or a block is missing |
| TaskSchedule.TaskSchedule.Find | src/task_schedule.c:318-328 | walking the chain finds the first item that holds a task, or NULL if there is none |
| TaskSchedule.TaskSchedule.UnscheduleTask | src/task_schedule.c:301-333 | removes the first occurrence of a task from the queue of its phase and reports an error, changing nothing, in all other cases |
| TaskSchedule.TaskSchedule.RunItem | src/task_schedule.c:205-224 | one step of a pass: the callback runs, may unschedule any tasks, and the pass moves on to where the link of its item leads then |
| TaskSchedule.TaskSchedule.RunQueue | src/task_schedule.c:201-230 | the loop over a queue, during which each callback may unschedule any tasks, its own or others, ends and makes exactly the pass that the rows below are about: the items it leaves, their order, and the callbacks it runs |
| TaskSchedule.PassExactly | src/task_schedule.c:201-230 | whatever tasks callbacks unschedule: a pass visits items in the order of the queue, each at most once, none that was not scheduled at its start and all that still are at its end; it visits only items that are scheduled at that time if and only if no callback unschedules its own task and after that the one next to it |
| TaskSchedule.PassOfOwnTurns | src/task_schedule.c:201-230 | if each callback may unschedule only its own task, a pass calls every task scheduled at its start exactly once, in order, while it is scheduled, and leaves those that did not unschedule themselves |
| SchedulePass.StrandedExactly | src/lists.c:124-142 | after any sequence of unschedulings an item that was scheduled leads to one that is if and only if it did not leave before the one that was next to it then |
| SchedulePass.OnlyScheduledExactly | src/task_schedule.c:201-230 | the same for all callbacks of a pass |
| SchedulePass.StayingIsVisited | src/task_schedule.c:201-230 | a pass goes forward and passes over nothing that is still scheduled at its end |
| SchedulePass.TakenOutKeeps | src/lists.c:124-142 | unscheduling a task keeps where the items lead to that have left before, and no item in the queue is ever between one that left and the one it leads to |
| SchedulePass.StrandingTurn | src/task_schedule.c:258-266 | two tasks, of which the callback of the first one unschedules itself and then the second: the second one is called nevertheless |
| TaskSchedule.TaskSchedule.RunTasks | src/task_schedule.c:232-270 | a flight loop phase runs its own queue, post-processing runs all queues, anything else and a schedule about to be destroyed run none |
| TaskSchedule.PassKeepsStaying | src/task_schedule.c:201-230 | removing, in turn, the tasks that leave is the same as keeping those that stay |
| TaskSchedule.VisitsOnce | src/task_schedule.c:201-230 | with distinct tasks a pass visits each one with a callback exactly once |
| TaskSchedule.NextAfterLeaving | src/lists.c:136-142 | when the task that a pass stands on is unscheduled, or one before it, its item still leads to the task scheduled after it |
| TaskSchedule.TaskSchedule.CleanSchedule | src/task_schedule.c:335-358 | compacts all queues, keeping the order of tasks; no task is freed |
| SendRing.FirstInFirstOut | src/network.c:466-541 | over every interleaving of producer calls and sender steps: what the socket took, followed by what is pending, is exactly the concatenation of the accepted contents, and the chunk that the socket has is always the next part of it, whatever producers added since it was picked |
| SendRing.StepKeepsOrder | src/network.c:497-531 | each atomic step keeps that order, the bound on pending bytes, and the chunk in flight as their first part |
| SendRing.CopyAppends | src/network.c:1033-1052 | copying up to the end of the ring and then from its start appends the content to the pending bytes, wrapped or not |
| SendRing.CopyKeeps | src/network.c:1033-1052 | copying leaves the bytes alone that the sender may be sending |
| SendRing.Connection.SendToNetwork | src/network.c:990-1058 | a call is accepted exactly if its length fits SIZE-1 minus the pending bytes and refused unchanged else; bytes with the socket stay as they are |
| SendRing.Connection.FreeCapacity | src/network.c:1013-1028 | the three cases of the positions all give SIZE-1 minus the pending bytes |
| SendRing.Connection.Accept | src/network.c:1013-1052 | copies exactly if the content fits and changes nothing else |
| SendRing.Connection.Copy | src/network.c:1033-1052 | the copying part is one accepting step of the buffer |
| SendRing.Connection.PickChunk | src/network.c:480-511 | the sender picks at most 512 contiguous pending bytes, and none only if nothing is pending |
| SendRing.Connection.ChunkSent | src/network.c:513-531 | a partial send moves the read position on by what was sent, wrapping at the end |
| SendRing.Connection.SenderStops | src/network.c:514-525 | a sender that fails takes nothing out of the buffer |
| ReceiveLines.LinesOfAppended | src/network.c:553-594 | reading on after a stream: complete lines stay, the unfinished segment is read together with what follows |
| ReceiveLines.NextCharacter | src/network.c:568-588 | what one more character does to lines, unfinished segment and overlong state |
| ReceiveLines.TooLongStays | src/network.c:579-593 | nothing is delivered any more once a segment has reached the maximum length |
| ReceiveLines.LinesAreLines | src/network.c:567-589 | every delivered line is non-empty, shorter than the maximum and free of CR and LF |
| ReceiveLines.SentLinesArrive | src/network.c:567-589 | lines sent with any CR/LF sequences before, between and after them are the lines delivered |
| ReceiveLines.Receiver.ReceiveCharacter | src/network.c:568-588 | one turn of the loop keeps buffer, offset and delivered lines in step with the stream |
| ReceiveLines.Receiver.ReceiveChunk | src/network.c:553-594 | one chunk adds exactly the lines it completes |
| ReceiveLines.Receiver.Run | src/network.c:543-600 | the lines delivered are those of the whole stream, however it was cut into chunks |
| ChannelIds.NameOfIdOf | src/channels.c:14-67 | four alphanumeric characters survive packing and unpacking; any other text is refused |
| ChannelIds.IdOfNameOf | src/channels.c:26-67 | an ID survives unpacking and packing |
| ChannelIds.StringToChannelId | src/channels.c:38-56 | the loop packs four characters, or gives the bad ID at the first that is not alphanumeric |
| ChannelIds.ChannelIdToString | src/channels.c:58-67 | writes exactly the four characters of an ID |
| ChannelTable.IdsInTable | src/channels.h:39-42 | which IDs the outer array can address: exactly those below 64 times 62 to the power of 3; "9999" is beyond |
| ChannelTable.PutShows | src/channels.c:167-192 | putting into a sub-table, new or not, updates the plain map |
| ChannelTable.PopShows | src/channels.c:135-165 | taking out a channel, and its sub-table if that becomes empty, removes it from the plain map |
| ChannelTable.SubtableHoldsChannel | src/channels.c:135-192 | a sub-table exists if and only if a channel is in it |
| ChannelTable.ChannelsTable.GetChannel | src/channels.c:118-129 | looks up the plain map |
| ChannelTable.ChannelsTable.PutChannel | src/channels.c:167-192 | adds a channel, or refuses and changes nothing if the ID is taken, destruction is pending or a sub-table cannot be allocated |
| ChannelTable.ChannelsTable.PopChannel | src/channels.c:135-165 | removes exactly one channel and gives it to the caller |
| ChannelTable.ChannelsTable.RequestDestruction | src/channels.c:194-201 | marks exactly one channel |
| ChannelTable.ChannelsTable.DestroyPendingChannels | src/server.c:450-483 | a sweep removes exactly the marked channels and calls their destructors once each, in order, although it frees sub-tables while iterating; it stops at the first one that cannot be destroyed |
| MessageFormat.RoundTrip | src/session.c:169-221 | a line decodes to continuation, ACK/ERR/none, ID, timestamp and message again if and only if the reserved length is the timestamp's number of digits; so for all timestamps below 2 to the power of 31 |
| MessageFormat.DecodeOfText | src/session.c:169-221 | what arrives in any case: everything but, for a timestamp that is cut off, its missing digits |
| MessageFormat.DecodeParts | src/session.c:181-210 | a prefix is told from a bare ID since no ID character is a space |
| MessageFormat.TextsDiffer | src/session.c:169-221 | two lines have the same text if and only if they differ in nothing but their timestamps and these are cut off to the same digits; so lines with timestamps below 2 to the power of 31 are told apart by their texts |
| MessageFormat.CutOffTimestamp | src/session.c:175-213 | after 2 to the power of 32 ms a line reads as if 4 ms had passed |
| MessageFormat.TimestampFits | src/session.c:175-185 | never more digits are reserved than there are, and as many for an int's range |
| MessageFormat.FormatLine | src/session.c:169-221 | the formatter fills exactly the computed length with the line and a NUL |
| Decimals.DecimalValue | src/utils.c:249-266 | printed numbers have as many digits as counted and stand for the number |
| Decimals.AtoIOfPrinted | src/protocol.c:99-103 | reading a printed number gives it back, whatever follows that is not a digit |
| ChannelProtocol.CallKeepsOrder | src/session.c:142-325 | each call keeps the order of messages, and leaves the channel fit for the next one if and only if it does not lose a confirmation without notice |
| ChannelProtocol.InOrderExactly | src/session.c:142-325 | over every run of calls, whatever fails: the lines are in order (the first is ACK or ERR, nothing follows a closing line, at most one ERR, which is last) if and only if no message that is not empty goes out as the first line of a channel that counts as confirmed |
| ChannelProtocol.InOrderIfErrorsGetOut | src/session.c:236-257 | in order without exception, however the network fails, if clock and allocation work for the error message after each confirmation |
| ChannelProtocol.CallAfterLoss | src/session.c:154-233 | after a confirmation that was lost without notice: which calls break the order and which mend it |
| ChannelProtocol.LostConfirmation | src/session.c:236-257 | a confirmation lost on the network whose error message fails as well puts a bare line first |
| ChannelProtocol.ChannelObject.SendChannel | src/session.c:142-234 | refuses on a failing clock, in a wrong state or without memory, changing nothing; else the state moves on even if the network fails, and the line is sent only if it does not |
| ChannelProtocol.ConfirmChannel | src/session.c:236-257 | confirms, followed by an error message on failure |
| ChannelProtocol.ContinueChannel | src/session.c:259-280 | continues, followed by an error message on failure |
| ChannelProtocol.FinishChannel | src/session.c:282-305 | closes with or without an ACK, depending on the state, followed by an error message on failure |
| ChannelProtocol.ErrorChannel | src/session.c:307-325 | closes with an ERR |
| ChannelProtocol.CloseForDestruction | src/session.c:345-361 | a channel that is destroyed is closed, with a message only if asked for |
| Intervals.AdvancePast | src/command_cmtr.c:349-353 | the catch-up loop ends, at the first point after now on the grid through the due time |
| Intervals.NextDueIsLeast | src/command_drqv.c:236-239 | it is the least grid point after now |
| Intervals.NextDueSteps | src/command_drqv.c:236-239 | it is a whole number of intervals on, and the one before has been reached |
| Intervals.StaysOnGrid | src/command_cmtr.c:349-353 | due times stay congruent to their start value |
| Cmtr.CreatedSound | src/command_cmtr.c:507-545 | a new command holds nothing |
| Cmtr.FrameKeepsSound | src/command_cmtr.c:304-411 | a frame, at any clock value, keeps begins and ends alternating for each entry and the holding flag equal to all entries being held, else none is |
| Cmtr.TerminateKeepsSound | src/command_cmtr.c:142-199 | after a successful termination every begin has an issued or queued end; after a failed one exactly the entries without it are still held |
| Cmtr.FlagOutlivesHold | src/command_cmtr.c:142-199 | for a command that holds all of its entries or none, as every one does while scheduled: after a termination the flag tells if any commands are held if and only if the termination was refused, the flag was not set or an end could not be queued; it tells that all or none are held if and only if it was refused, not set or no end could be queued |
| Cmtr.FlagAfterTermination | src/command_cmtr.c:142-199 | the same for any state, repeated terminations included: the flag tells if any commands are held if and only if it was not set or a hold is left |
| Cmtr.StillFlagged | src/command_cmtr.c:163-189 | 10 frames every 20 frames, terminated while holding: the flag is set and nothing is held |
| Cmtr.NothingStillHeld | src/command_cmtr.c:163-189 | if all ends can be queued, nothing is held afterwards and every begin has its end |
| Cmtr.ActionCounts | src/command_cmtr.c:374-410 | what a frame adds to the begins, triggers and ends of an entry |
| CmtrTrace.AfterEnds | src/command_cmtr.c:244-254 | releasing in reverse order ends exactly the held entries |
| CmtrTrace.AfterQueuedEnds | src/command_cmtr.c:163-189 | termination queues an end for exactly the held entries for which that works |
| CmtrCycles.RunKeepsSound | src/command_cmtr.c:304-417 | over every run of frames and terminations, with any clock: balance holds and time-based due times stay on their grid |
| CmtrCycles.HeldIsFlagged | src/command_cmtr.c:62-411 | over every run: whatever is held is flagged, and while the command is scheduled the flag is set if and only if something is held |
| CmtrCycles.OneCyclePerFrame | src/command_cmtr.c:330-347 | at most one cycle starts per frame, however many intervals have passed |
| CmtrCycles.RunCounted | src/command_cmtr.c:374-409 | over every run: a command that is to repeat N times finishes after exactly N rounds, N + 1 exactly if it is still holding then; without holding after the N-th trigger and not before; with infinite repetition never |
| CmtrCycles.RoundsWhenFinishing | src/command_cmtr.c:374-409 | from creation on, with any clock, terminations included: without holding, finishing if and only if there were N triggers; with holding, N rounds when finishing, and one more if that round has just started; never with infinite repetition |
| CmtrCycles.CycleCounted | src/command_cmtr.c:374-409 | each frame that does anything keeps the count of rounds |
| CmtrCycles.TerminateCounted | src/command_cmtr.c:142-199 | termination starts no round |
| CmtrCycles.NextFrameAt | src/command_cmtr.c:330-409 | with interval and hold in frames: cycles start every interval, each holds for the hold duration |
| CmtrCycles.FramesLeadTo | src/command_cmtr.c:330-409 | where a command is after any number of frames |
| CmtrCycles.CreatedInFrames | src/command_cmtr.c:507-540 | a command created with both times in frames and at least two repetitions needs no clock and meets what the next row asks for |
| CmtrCycles.CyclesExactly | src/command_cmtr.c:374-400 | counted in frames, exactly N cycles start if and only if hold < repeatFreq, N + 1 else; the command finishes after the frame computed, not before |
| CmtrCycles.HoldStarts | src/command_cmtr.c:386-400 | measured in milliseconds, the frame that starts a cycle holds and the next cycle is due at the first grid point after it |
| CmtrCycles.HoldLasts | src/command_cmtr.c:360-383 | measured in milliseconds, all frames before the time to hold is over leave the hold alone, and the first one then ends it for all entries, last one first, unless the next cycle is due |
| CmtrTimetable.RoundsByClock | src/command_cmtr.c:330-409 | for any clock values and all units, mixed ones included: a command that is to hold N times finishes in the first frame after the start of its N-th round in which the interval or the time to hold has passed, not before; it has then held exactly N times if and only if the interval has not passed in that frame, and N + 1 times else |
| CmtrTimetable.ClockOfFinishing | src/command_cmtr.c:330-409 | every run of frames in which such a command finishes has a timetable of that kind |
| CmtrTimetable.FinishesIn | src/command_cmtr.c:330-409 | such a command is finishing from the end of its last round on and not before |
| CmtrTimetable.SameTimetable | src/command_cmtr.c:330-358 | the clock values alone determine the frames in which rounds start |
| CmtrTimetable.StartsFirstRound | src/command_cmtr.c:304-340 | the first frame that is not skipped starts the first round |
| CmtrTimetable.StaysInRound | src/command_cmtr.c:330-383 | until the interval has passed, and in the last round until the time to hold has, frames start and finish nothing; a hold lasts until its time has passed |
| CmtrTimetable.StartsNextRound | src/command_cmtr.c:330-409 | the first frame in which the interval has passed starts the next round, with repetitions left |
| CmtrTimetable.Finishes | src/command_cmtr.c:374-400 | the frame that ends the last round finishes the command, and starts one more round if the interval has passed in it |
| CmtrTimetable.LateFrame | src/command_cmtr.c:346-400 | 900 ms every 1000 ms, twice, with frames at 1, 1000 and 2500 ms: three rounds |
| CmtrCommand.CommandCmtr.ProcessFlightloop | src/command_cmtr.c:304-411 | the C statements of a frame give exactly the state and the actions for which balance and counts are proved; nothing happens before the first frame with all commands found, after failing or finishing, or without a clock |
| CmtrCommand.CommandCmtr.ReleaseAllHeld | src/command_cmtr.c:244-285 | ends the held entries, last one first |
| CmtrCommand.CommandCmtr.HoldAll | src/command_cmtr.c:287-291 | begins all entries, first one first |
| CmtrCommand.CommandCmtr.TriggerAll | src/command_cmtr.c:293-302 | triggers all entries unless they are held |
| CmtrCommand.CommandCmtr.TickInterval | src/command_cmtr.c:330-358 | counts or compares the interval and moves it on for a new cycle |
| CmtrCommand.CommandCmtr.TickDuration | src/command_cmtr.c:360-372 | counts or compares the time to hold unless a new cycle releases anyway |
| CmtrCommand.CommandCmtr.StartCycle | src/command_cmtr.c:385-410 | uses up a repetition, restarts the hold timer and holds or triggers |
| CmtrCommand.CommandCmtr.Terminate | src/command_cmtr.c:142-199 | unschedules, then queues ends for held entries, going on after a failure |
| CmtrCommand.CreateCommand | src/command_cmtr.c:507-545 | refuses bad parameters and a failing clock; a single repetition disables the interval |
| Drqv.RunKeepsLedger | src/command_drqv.c:193-412 | over every interleaving of frames and post-processing: one sample per repetition used up, what is sent is the latest sample, none twice with more to follow, less than N such messages, the final one only after the N-th sample |
| Drqv.FinishesOnce | src/command_drqv.c:393-404 | unless unscheduling fails there is at most one final message, after which nothing happens |
| Drqv.EverySampleSent | src/command_drqv.c:193-412 | when nothing fails and the clock has started, each sample is sent by the post-processing after it: N - 1 with more to follow and one final |
| Drqv.TimedSamplesSent | src/command_drqv.c:193-412 | when nothing fails, from time 0 on: after each post-processing there was one message for each sample not taken at time 0, and the query is over if and only if the N-th sample was taken and not at time 0 |
| Drqv.NeverOver | src/command_drqv.c:243-320 | a query whose last sample was taken at time 0 stays scheduled for good and sends nothing more, whatever happens |
| Drqv.NeverAnswered | src/command_drqv.c:317-319 | a query for one sample whose first frame comes at time 0 is never answered |
| Drqv.RunKeepsSchedule | src/command_drqv.c:213-240 | due times stay on the grid of the start time, and no interval is sampled twice |
| Drqv.SampledEvery | src/command_drqv.c:213-247 | counted in frames, samples are taken in the first frame and every interval from there, up to N |
| Drqv.CreatedLedger | src/command_drqv.c:441-495 | a new query has nothing sampled or sent and is due at once |
| Drqv.CommandDrqv.ProcessFlightloop | src/command_drqv.c:193-297 | the C statements of a frame take exactly the samples counted above; a used-up query takes none |
| Drqv.CommandDrqv.ProcessPost | src/command_drqv.c:307-412 | the C statements of post-processing send exactly the messages counted above and terminate after a failure or the final one |
| Drmu.BlendApproaches | src/command_drmu.c:397-414 | an interpolated value lies between base and target and gets no further away from the target with progress |
| Drmu.SubmittedMeans | src/command_drmu.c:567-625 | what is submitted is the exact target from full progress on, and between base and target before |
| Drmu.FrameSubmits | src/command_drmu.c:416-663 | a frame submits at most once for each dataref: the exact target or a value on the way from its base |
| Drmu.FrameKeepsSound | src/command_drmu.c:416-663 | a completed cycle has submitted exactly the targets of all datarefs; only a command without repetition is done |
| Drmu.FrameMovesBase | src/command_drmu.c:483-510 | base <= now < base + interval after a frame if now >= base before, else the base time stays |
| Drmu.RunStaysOnGrid | src/command_drmu.c:503-509 | the base time stays congruent to its start value over every run |
| Drmu.CatchUpStaysOnGrid | src/command_drmu.c:503-509 | the catch-up loop moves by whole intervals |
| Drmu.CreatedPrepared | src/command_drmu.c:1027-1070 | a linear command with a duration in frames meets what the next rows ask for |
| Drmu.LineExactly | src/command_drmu.c:512-600 | without repetition, frame n of D submits the bases plus n/D of the way and frame D exactly the targets; then the command is done |
| Drmu.CyclesReachTargets | src/command_drmu.c:495-530 | counted in frames, when nothing fails: cycles start every interval, and after p + 1 frames of one it has reached its targets if and only if p + 1 is not less than the duration |
| Drmu.CompletesInTime | src/command_drmu.c:512-600 | in a frame in which nothing fails: an immediate command completes its cycle; with a duration in milliseconds a cycle is completed, with exact targets, if that time has passed since its base time, and not before; a completed cycle submits nothing more |
| DrmuCycles.CompleteExactly | src/command_drmu.c:483-600 | for all settings, mixed units included, when nothing fails: whether the current cycle has reached its targets, told from the clock values alone |
| DrmuCycles.InTimeExactly | src/command_drmu.c:503-600 | both in milliseconds: a cycle has reached its targets if and only if some frame came between the duration and the interval after its base time |
| DrmuCycles.NeverInTime | src/command_drmu.c:503-530 | both in milliseconds, with a duration not shorter than the interval: no cycle ever reaches its targets, over every run, whatever fails |
| DrmuCycles.InFramesExactly | src/command_drmu.c:495-600 | both in frames: a run in which nothing fails and that is as long as the interval has a complete cycle in it if and only if the duration is not longer than the interval |
| DrmuCycles.DurationInFrames | src/command_drmu.c:535-600 | duration in frames, interval in either unit: the cycle is complete if and only if that many frames belong to it |
| DrmuCycles.DurationInTime | src/command_drmu.c:535-600 | duration in milliseconds, interval in either unit: the cycle is complete if and only if one of its frames came that long after its base time |
| DrmuCycles.FirstInFrames | src/command_drmu.c:495-502 | an interval in frames: which frame the current cycle started with |
| DrmuCycles.WithinInterval | src/command_drmu.c:503-509 | an interval in milliseconds: only the frames of the current cycle have clock values from its base time on, and all of them are within the interval |
| DrmuCycles.HealthyFrame | src/command_drmu.c:416-663 | what a frame in which nothing fails does to the clockwork of any command |
| DrmuCycles.RestartsInTime | src/command_drmu.c:503-530 | 1000 ms every 1000 ms: the frame that comes right in time starts anew |
| DrmuCycles.NoFrameInTime | src/command_drmu.c:503-530 | 900 ms every 1000 ms, with frames at 890 and 1010 ms: no cycle reaches its targets |
| DrmuCycles.CreatedNew | src/command_drmu.c:1027-1070 | a new command meets what these rows ask for |
| Drmu.LinearValues | src/command_drmu.c:397-414 | the loop interpolates each value |
| DrmuCommand.CommandDrmu.Tick | src/command_drmu.c:483-532 | decides about a new cycle and resets its counters |
| DrmuCommand.CommandDrmu.MeasureProgress | src/command_drmu.c:535-553 | progress by time or by frames, never negative, 1 for the immediate method |
| DrmuCommand.CommandDrmu.UpdateDatarefs | src/command_drmu.c:567-645 | all datarefs are worked on, also after one has failed |
| DrmuCommand.CommandDrmu.ProcessFlightloop | src/command_drmu.c:416-663 | the C statements of a frame submit exactly the rows described above; errors end the command |
| RequestText.RoundTrip | src/requests.c:157-294 | parsing a well-formed request (option names not empty, without ";", space, and "=" but as first character; values without ";" and space; parameters without ";") that was written as a line gives it back if and only if it has parameters or no options and no option is refused as a duplicate, which none is without a NUL in a name; options alone come back with one empty parameter |
| RequestText.OptionsOfText | src/requests.c:197-256 | options written are options read, in order |
| RequestText.SplitOfJoin | src/requests.c:258-291 | parameters written are parameters read, in order |
| RequestText.DuplicateAccepted | src/requests.c:88-104 | an option given twice is accepted |
| RequestText.RefusedHasNul | src/requests.c:88-104 | the error for duplicates needs a NUL inside the line |
| Requests.RestOfLineAfterFirst | src/requests.c:97-99 | comparing the rest of the line with a stored name is only ever equal if a NUL ends the name early |
| Requests.AddOption | src/requests.c:88-125 | appends an option, or refuses it exactly in that case and never because of the last one stored |
| Requests.ReadCharacter | src/requests.c:204-255 | one turn of the option loop keeps the cursors in step with the text |
| Requests.ParseOptions | src/requests.c:197-256 | the option loop splits at semicolons up to a space, each option at its first equals sign but one it starts with, and refuses options without name or value |
| Requests.ParseParameters | src/requests.c:258-291 | the parameter loop splits the rest of the line |
| Requests.ParseRequest | src/requests.c:157-294 | the result is a function of the first `length` characters alone: fixed places of separators and channel ID, then options, then parameters, with an error in all other cases |
| Requests.HasOption | src/requests.c:20-34 | whether some option has the name |
| Requests.GetOption | src/requests.c:68-86 | the value of the first option with the name, or the default |
| Requests.HasOnlyOptions | src/requests.c:36-66 | whether every option's name is among those given |
| ArrayText.IntsRoundTrip | src/protocol.c:72-140 | encoding and parsing gives back an array of integers, empty ones included, if and only if the text behind it is harmless: with no comma up to a NUL, or not starting with a digit, or with nothing but zeros before something else after a last item 0; behind an empty array, with no comma up to a NUL or starting with one |
| ArrayText.IntsReadBack | src/protocol.c:370-405 | whatever text follows: all items but the last come back, and the last one is read up to the next comma |
| ArrayText.LastValueStays | src/protocol.c:378-388 | exactly when that leaves the last item as it is |
| ArrayText.BlobRoundTrip | src/protocol.c:303-411 | encoding and parsing gives back a blob if and only if it is not empty |
| ArrayText.ItemsCommas | src/protocol.c:93-110 | as many separators as items |
| ArrayText.ReadsBeyond | src/protocol.c:378-388 | "1,1" followed by "2," is read as the array of 12 |
| ArrayText.HexRoundTrip | src/protocol.c:269-296 | two hex digits per byte survive |
| Protocol.EncodeIntArray | src/protocol.c:72-140 | the buffer allocated holds exactly the text and a NUL |
| Protocol.EncodeBlob | src/protocol.c:72-140 | the buffer allocated holds exactly the text and a NUL |
| Protocol.Concatenate | src/protocol.c:121-134 | the parts put together fill the buffer exactly |
| Protocol.ParseIntArray | src/protocol.c:303-411 | accepts exactly what starts with a count equal to the number of separators and has that many items, "0" and at most one more character for none; NULL else; separators are looked for in the whole string, up to a NUL |
| Protocol.ParseItems | src/protocol.c:370-405 | the item loop stays within the array and requires the announced number |
| Protocol.ParseByteArray | src/protocol.c:303-411 | accepts exactly what starts with a count and has two hex digits for each of that many bytes; NULL else; the separator is looked for up to a NUL |
| Protocol.ParseHex | src/protocol.c:370-405 | the byte loop reads all pairs of hex digits |
| Protocol.ParseByte | src/protocol.c:269-296 | two hex digits of either case |
| Protocol.StrPos | src/utils.c:93-130 | the first separator at or after an offset, counted from the end if negative, before the first NUL; -1 if there is none or the offset is outside of the string |
| Protocol.CountCommas | src/utils.c:298-320 | the number of separators within a length and before the first NUL, none for a length that is not positive |
| TypeNames.ListRoundTrip | src/protocol.c:37-70 | a list of type names, in any order, is read as its set of types if they are distinct and refused else, where the last name runs on to the next comma in memory; distinct types come back if and only if the text behind them has no comma up to a NUL or starts with one |
| TypeNames.NameRunsOn | src/protocol.c:37-70 | "int" followed by "[]," is read as an array of integers |
| TypeNames.SetRoundTrip | src/protocol.c:175-217 | every non-empty set of types survives encoding and parsing |
| TypeNames.EncodeTypes | src/protocol.c:159-217 | the types of a set in a fixed order, NULL for none |
| TypeNames.ParseTypes | src/protocol.c:37-70 | refuses unknown names and types listed twice, else gives the set of all types listed |
| DataProxy.RunKeepsSound | src/dataproxy.c:195-481 | over every run of reserve, release, register, unregister, drop and sweep: no accessor is unregistered twice, and accessors, owners and operations fit the states of the proxies |
| DataProxy.AccessorsMatch | src/dataproxy.c:390-458 | the live accessors are exactly those of registered and dropped proxies |
| DataProxy.StepKeepsSound | src/dataproxy.c:195-481 | each operation keeps that |
| DataProxy.SweepCleans | src/dataproxy.c:809-846 | a sweep leaves no dropped proxy and every other one as it was |
| DataProxy.ReserveGives | src/dataproxy.c:195-270 | a reservation succeeds exactly for a valid definition of a new, inactive or dropped proxy, which then is as defined; no other proxy changes |
| DataProxy.Undone | src/dataproxy.c:272-458 | unregistering undoes registering, and releasing undoes a reservation, the simulator included |
| DataProxy.DropsOnlyRegistered | src/dataproxy.c:460-481 | dropping works for a registered proxy only; a reserved one stays reserved and blocks its name |
| DataProxy.DataproxyRegistry.ReserveDataproxy | src/dataproxy.c:195-270 | reserves an inactive or dropped proxy, unregistering the latter first |
| DataProxy.DataproxyRegistry.ReleaseDataproxy | src/dataproxy.c:272-291 | releases a reserved proxy only |
| DataProxy.DataproxyRegistry.RegisterDataproxy | src/dataproxy.c:390-430 | registers a reserved proxy only; on failure it stays reserved |
| DataProxy.DataproxyRegistry.UnregisterDataproxy | src/dataproxy.c:432-458 | a registered proxy becomes reserved, a dropped one inactive |
| DataProxy.DataproxyRegistry.DropDataproxy | src/dataproxy.c:460-481 | drops a registered proxy only |
| DataProxy.DataproxyRegistry.ListDataproxiesWithState | src/dataproxy.c:506-542 | exactly the proxies in a state |
| DataProxy.DataproxyRegistry.UnregisterDroppedDataproxies | src/dataproxy.c:809-846 | a successful sweep leaves no dropped proxy and every other one as it was |
| ServerManager.Converges | src/server_manager.c:326-416 | if starting and stopping work, two maintenances settle any request; one is enough unless the running state has to change twice |
| ServerManager.SettlesDespiteFailures | src/server_manager.c:326-416 | over any number of maintenances, failing ones among them: two in which the attempts work settle a request, unless the settings keep the server from starting |
| ServerManager.MaintainedProgresses | src/server_manager.c:349-397 | no maintenance loses ground and each one whose attempt works gains some |
| ServerManager.TriesOnlyChanges | src/server_manager.c:345-378 | a start is tried only without a server, a stop only with one |
| ServerManager.StaysSettled | src/server_manager.c:345-347 | maintenance changes nothing once settled |
| ServerManager.SuccessfulShutdown | src/server_manager.c:198-201 | a successful shutdown leaves no server and none wanted |
| ServerManager.GoneForGood | src/server_manager.c:136-201 | once a shutdown has succeeded there is no server in any later state, whatever is called |
| ServerManager.FailedShutdown | src/server_manager.c:198-201 | a shutdown that fails to get the lock only sets the flag, and all later maintenances do exactly what they would have done without it |
| ServerManager.ShutdownEnds | src/server_manager.c:198-201 | a shutdown while there is no server ends it all if and only if it gets the lock or no start is pending |
| ServerManager.StartsPend | src/server_manager.c:186-397 | a start that fails stays pending, and so does the start of a restart once the server is stopped |
| ServerManager.StartsAfterShutdown | src/server_manager.c:345-378 | with a start pending, the next maintenance whose lock and attempt work starts a server although it is shut down |
| ServerManager.StaysEnded | src/server_manager.c:136-201 | otherwise there is no server in any later state, whatever is called and whatever happens |
| ServerManager.RecordedShutdown | src/server_manager.c:136-201 | after a shutdown that gets the lock no server is ever started, even if one is left that could not be stopped yet |
| ServerManager.ManagedServer.Maintain | src/server_manager.c:326-416 | the C statements of a maintenance make exactly the transition that converges: on to the next state once the first is reached, retry after failures, give up if the user has to intervene |
| ServerManager.ManagedServer.UpdateWantedState | src/server_manager.c:136-165 | records what is wanted, or refuses to want a server after shutdown |
| ServerManager.ManagedServer.DoServerStart | src/server_manager.c:272-294 | there is a server afterwards exactly if there was one or starting worked; bad settings ask for the user |
| ServerManager.ManagedServer.DoServerStop | src/server_manager.c:296-312 | there is no server afterwards exactly if there was none or stopping worked |
| ServerManager.ManagedServer.PerformCall | src/server_manager.c:186-201 | start wants running, stop stopped, restart stopped then running, shutdown stopped for good; each is followed by one maintenance if it was accepted |

## Left out

- Addresses: an item is its position in the list's storage, so sharing one item between lists is not captured; blocks
  are one sequence and the sub-tables of channels a map from addresses.
- Channels, dataref proxies and CMTR entries are values in their containers; aliasing of their pointers is not captured.
- PreallocList.PreallocList.DeleteItem: does not model an item that belongs to another list, which the code cannot tell.
- SendRing.Connection.SendToNetwork: does not model failing locks and waking up the sender; the lock is held for the step.
- TaskSchedule.TaskSchedule.RunQueue: does not model callbacks that schedule tasks, or that unschedule tasks of the other
  queue.
- ListSorting.CopyListSorted: does not model a list whose size changes during the copy.
- Requests.ParseRequest: does not model failing allocations of options and parameters.
- CmtrCommand.CommandCmtr.ProcessFlightloop: does not model the monitor notifications on the channel.
- DrmuCommand.CommandDrmu.ProcessFlightloop: does not model monitor data, and values are reals, without the rounding of
  integer and floating point types.
- Drmu.LinearValues: does not model the rounding of integer types and the refusal of byte data.
- Parsing of option values (`atoi`, suffixes of intervals) when commands are created.
- The width of integers, except for timestamps, channel IDs and bytes.
- Floating point text, scalar values and arrays of floats: printing them loses digits.
- Escaped strings, the hash map and the dynamic array: a plain map and a sequence stand for the latter two.
- Sessions: handshake, authentication, settings, licenses, and the depth of locks.
- Destruction of lists, schedules, tables and registries.
- Read and write access to data through proxies, and its permissions.
- Notifications of the server manager's listener, and its maintenance of a running server beyond success or failure.
- Sockets, threads, IP address parsing, files, random numbers, logging, the user interface and the simulator's SDK.

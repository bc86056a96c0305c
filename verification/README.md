# Verified models of MQX components

A Dafny 4.11 project that models four parts of the repository and proves what they keep
in every run. `dafny verify dfyconfig.toml` checks all of it.

## What is modelled

**Multi-core messaging (MCC).** Several cores share one bookkeeping block: a pool of receive
buffers threaded on intrusive lists, a table of endpoints with one list each, a free list, and
a ring of signals per core. The number of buffers, endpoints, cores and ring slots and the
buffer size are symbolic.

- `MccLists`, `MccSignals` and `MccBookkeeping` are the block as objects that are updated in
  place. A list is a head and a tail, links are fields of the buffers, and a buffer that was
  taken off a list keeps its stale link. Buffers are identified by their position. The ghost
  field `owner` says on which list a buffer is threaded.
- `MccShared` is the same block as a value, with one function per critical section. Every
  method of `Bookkeeping` is proved to leave exactly the block its function says, and
  `MccSections` proves what those functions keep and change.
- The interrupt handler, in mcc/source/mqx/mcc_mqx.c, lines 52 to 82, takes signals off the ring
  of its core until it is empty; `Service` is that loop, with the woken queues as its results.
- `MccProtocol` interleaves tasks on several cores. Each semaphore-protected section is one
  atomic step, taken from `MccShared`; waits, time-outs and the unlocked look at `list->head`
  are steps of their own, and the look may see anything. The steps of a run are any list; a step
  whose task cannot take it, or a free of a buffer that was not handed out, changes nothing.
- `MccResults` says what every call returns and changes by what the table, lists and rings hold,
  and `MccCalls` what whole calls come to over their waits, by what they were given.
- `MccRuns`, `MccDelivery`, `MccZeroCopy`, `MccSignalRuns` and `MccStaleLookup` hold results
  about all runs, and `MccOrigins` tells by the buffer alone which send a receive delivers. A
  run is its states, its steps and what each step shows (`IsRun`), and every list of steps gives
  one (`RunOf`). Histories (`SentTo`, `TakenFrom`, `Posted`, `Serviced`) are computed from what
  a run shows, not maintained by the steps.
- `MccRefinement` ties the two layers together: the methods of `Bookkeeping`, called in any order
  by any tasks, perform the steps of `MccProtocol`, and the buffers on no list are those held by
  zero-copy receivers.

**Drive letters.** `DriveLetters` models assignment and release of letters in a 32-bit mask by
USB mass storage devices, with every I/O call failing or not as it likes. `DriveLetterRuns`
proves that mask and names agree through every run, and gives the exact condition for calls
outside the normal order.

**Directory lines.** `DirRead` models the piecewise assembly of one directory line in a bounded
buffer, with `snprintf` as in section 7.19.6.5 of ISO C99. `DirLines` proves what can be read
back from a line, column by column.

**Thermostat.** `Hvac` models the setpoint arithmetic on 32-bit unsigned numbers with
wrap-around, the button polling and the control cycle; `HvacRuns` proves the results about
runs. The copies of the demonstration in other directories have the same logic.

Where code and documentation differ, the code is modelled. The receive calls of MCC are
documented to receive from the given endpoint; since the lookup and the receive are separate
sections, an entry that is closed and reused in between makes the call deliver a message sent
to another endpoint (`MccStaleLookup.StaleReceive` gives such a run). What the code does
guarantee is `MccDelivery.DeliversToOccupant` and `MccOrigins.DeliversFill` for every receive,
and `MccOrigins.RightEndpoint` says exactly when the message was sent to the endpoint asked for:
when the entry, since the lookup with which the receive began, was not closed, or was opened
again for that endpoint and not closed since. A second uninstall of the same device, and an
install on a device that still holds letters, can break the drive-letter mask;
`DriveLetterRuns.SecondUninstall` and `DriveLetterRuns.InstallKeepsAgreement` say exactly when.

## Model

| member | source | states |
|---|---|---|
| MccLists.ReceiveList.QueueBuffer | mcc/source/mcc_common.c:171-203 | the list becomes the old list followed by the buffer and stays well formed (distinct buffers, head and tail right, last link null) |
| MccLists.ReceiveList.DequeueBuffer | mcc/source/mcc_common.c:134-159 | an empty list gives null; otherwise the first buffer comes off, on no list afterwards and with its stale link |
| MccLists.ReceiveList.Length | mcc/source/mcc_api.c:665-671 | the walk over the links terminates and counts the list |
| MccSignals.FullIsWrap | mcc/source/include/mcc_common.h:320-321 | the modular full test holds exactly when the conditionally wrapped tail meets the head |
| MccSignals.CapacityIsOneLess | mcc/source/mcc_common.c:236-246 | a ring of Q slots is full with exactly Q - 1 signals, empty with none, never both when Q > 1 |
| MccSignals.PushAppends | mcc/source/mcc_common.c:258-270 | writing at the tail and wrapping it appends one signal to the queue |
| MccSignals.PopDropsFirst | mcc/source/mcc_common.c:292-303 | the signal under the head is the oldest, and wrapping the head drops just it |
| MccSignals.SignalQueues.QueueSignal | mcc/source/mcc_common.c:254-275 | full exactly at Q - 1 signals and then unchanged, else one signal appended; queues of other cores unchanged |
| MccSignals.SignalQueues.DequeueSignal | mcc/source/mcc_common.c:288-307 | the oldest signal is returned and removed, or the queue was empty; queues of other cores unchanged |
| MccSignals.SignalQueues.Service | mcc/source/mcc_common.c:288-307 | the interrupt handler empties the queue of its core and reports the woken ports and whether senders are woken |
| MccSignals.PortsInMeans | mcc/source/mcc_common.c:288-307 | a port is woken iff some signal in the queue is a message signal for it on this core; senders iff some signal is a buffer-freed one |
| MccSignals.SignalQueues.Reset | mcc/source/mcc_api.c:112-118 | every queue is empty after the initialisation loops |
| MccShared.IndexOf | mcc/source/mcc_common.c:224-233 | the scan finds the first entry equal to the endpoint, or none exists |
| MccShared.FirstFree | mcc/source/mcc_common.c:68-76 | the scan finds the first entry with the reserved port, or none exists |
| MccShared.LookupCore | mcc/source/mcc_api.c:372 | every core index used by a send is in range, because only registered endpoints pass the lookup |
| MccBookkeeping.Bookkeeping.Initialize | mcc/source/mcc_api.c:88-124 | on memory with any contents the loops leave all buffers chained on the free list in index order, rings and table empty; on an initialised block nothing changes |
| MccBookkeeping.Bookkeeping.GetEndpointList | mcc/source/mcc_common.c:215-234 | the list of the entry that holds the endpoint, or null for the reserved port or an unknown endpoint |
| MccBookkeeping.Bookkeeping.RegisterEndpoint | mcc/source/mcc_common.c:55-78 | the whole block and status are those of the registration function |
| MccBookkeeping.Bookkeeping.RemoveEndpoint | mcc/source/mcc_common.c:90-123 | the whole block and status are those of the removal function |
| MccBookkeeping.Bookkeeping.Drain | mcc/source/mcc_common.c:110-114 | the loop terminates and turns (free, queue) into (free followed by queue, empty) |
| MccBookkeeping.Bookkeeping.RemoveNode | mcc/source/mcc_api.c:158-164 | the whole block is that of removing the node's endpoints in table order |
| MccBookkeeping.Bookkeeping.CreateEndpoint | mcc/source/mcc_api.c:195-222 | the endpoint carries the caller's core, node and port; block and status are those of registering it |
| MccBookkeeping.Bookkeeping.Broadcast | mcc/source/mcc_api.c:506-512 | every other core's ring is offered the buffer-freed signal in order, failures ignored |
| MccBookkeeping.Bookkeeping.SendSection | mcc/source/mcc_api.c:307-383 | the whole block and outcome of one pass through the critical section of a send |
| MccBookkeeping.Bookkeeping.Deliver | mcc/source/mcc_api.c:356-383 | the rest of that section once a buffer holds the message, including both undo paths |
| MccBookkeeping.Bookkeeping.WriteMessage | mcc/source/mcc_api.c:350-352 | only the buffer taken is written: its length and first bytes |
| MccBookkeeping.Bookkeeping.Peek | mcc/source/mcc_api.c:452 | the unlocked look tells whether the list was empty |
| MccBookkeeping.Bookkeeping.ReceiveCopy | mcc/source/mcc_api.c:483-512 | time-out exactly on an empty list; else the block of the copying receive, the output bytes at the front of the caller's buffer and the rest of that buffer unchanged |
| MccBookkeeping.Bookkeeping.ReceiveNoCopy | mcc/source/mcc_api.c:605-618 | time-out exactly on an empty list; else the head buffer comes off all lists and is handed out with its length |
| MccBookkeeping.Bookkeeping.MsgsAvailable | mcc/source/mcc_api.c:645-679 | the number of queued buffers of the endpoint, or the endpoint error; nothing changes |
| MccBookkeeping.Bookkeeping.FreeBuffer | mcc/source/mcc_api.c:695-726 | the buffer goes to the end of the free list and the other cores are told |
| MccBookkeeping.Bookkeeping.ServiceInterrupt | mcc/source/mcc_common.c:288-307 | the interrupt handler takes signals until there are none: the ring of the core is emptied, everything else in the block unchanged |
| MccSections.BroadcastTellsOthers | mcc/source/mcc_api.c:706-717 | each ring but the caller's gets one signal or, when full, stays; nothing else changes, so a dropped signal loses no buffer |
| MccSections.RegisterStatus | mcc/source/mcc_common.c:60-77 | endpoint error iff the port is reserved or the triple registered; no memory iff a fresh valid triple meets a full table; success otherwise |
| MccSections.RegisterEffect | mcc/source/mcc_common.c:68-74 | failure changes nothing; success occupies a free entry whose list is empty, keeps triples distinct and owned buffers the same |
| MccSections.RemoveEffect | mcc/source/mcc_common.c:94-122 | removal succeeds iff the endpoint is registered, empties exactly its entry into the free list, and leaves it unregistered |
| MccSections.RemoveUndoesRegister | mcc/source/mcc_common.c:55-123 | removing a fresh endpoint restores the block except the stale core and node fields, and the same endpoints are registered as before |
| MccSections.RemoveNodeTable | mcc/source/mcc_api.c:158-164 | no endpoint of the node stays registered, and every other entry is exactly as it was |
| MccSections.RemoveNodeDrains | mcc/source/mcc_api.c:158-164 | the queues of the node are appended to the free list in table order |
| MccSections.DeliverEffect | mcc/source/mcc_api.c:356-383 | a filled buffer ends on the endpoint's list with exactly one signal, or back on the free list with table and rings unchanged |
| MccSections.SendAllOrNothing | mcc/source/mcc_api.c:307-383 | exact outcome of the section; failures leave table and rings alone and the free list empty or rotated by one; success moves one buffer and adds one signal; only that buffer's cell is written |
| MccSections.FreeEffect | mcc/source/mcc_api.c:706-717 | the buffer is free again whether or not the other rings had room |
| MccSections.CopyEffect | mcc/source/mcc_api.c:483-512 | success iff the list is not empty; exactly the first bytes that fit are delivered and the buffer is recycled |
| MccSections.NoCopyEffect | mcc/source/mcc_api.c:605-618 | success iff the list is not empty; the head buffer leaves the block and no buffer is written |
| MccSections.InitialOk | mcc/source/mcc_api.c:101-123 | initialisation establishes the whole invariant with every buffer free and nothing registered |
| MccRefinement.DetachedIsNowhere | mcc/source/mcc_common.c:134-203 | a buffer has no owner iff it is neither on the free list nor on any endpoint list |
| MccRefinement.SharedIsEnough | mcc/source/mcc_api.c:605-618 | when the block in memory is the one of a system state, the buffers on no list are exactly those the system holds |
| MccRefinement.Boot | mcc/source/mcc_api.c:88-124 | the first initialisation brings memory with any contents into the first state of every run |
| MccRefinement.Call | mcc/source/mcc_api.c:63-726 | every step of every task, made on the block in memory, performs that step of the model: same block, same held buffers, same status, bytes and counts returned |
| MccRefinement.Replay | mcc/source/mcc_api.c:63-726 | for every list of calls by any tasks the block in memory ends in the last state of the run of the model |
| MccResults.LookupMeans | mcc/source/mcc_common.c:215-233 | the lookup finds the one entry in use for the endpoint, if there is one |
| MccResults.CreateResult | mcc/source/mcc_api.c:195-222 | which of the three outcomes a creation has by what the table holds; on success the first free entry gets the caller's core and node and the port given, nothing else changes |
| MccResults.DestroyResult | mcc/source/mcc_common.c:94-122 | the entry in use for the endpoint is drained behind the free list and marked free, core and node kept; without one nothing changes |
| MccResults.DestroyNodeResult | mcc/source/mcc_api.c:158-164 | exactly the used entries of the node are closed, their queues follow the free list in table order, every other entry stays |
| MccResults.SendResult | mcc/source/mcc_api.c:289-383 | the exact outcome and new block of one look at the free list: too long, no buffer, unknown endpoint, full ring, or delivered |
| MccResults.GiveUpResult | mcc/source/mcc_api.c:331-340 | a send gives up only with a finite time-out, and changes nothing |
| MccResults.LookUpResult | mcc/source/mcc_api.c:434-448 | the lookup remembers the entry in use for the endpoint and what the call was given, or fails |
| MccResults.PeekResult | mcc/source/mcc_api.c:452-472 | after the unlocked look only a call that does not wait ends, and only when it saw nothing |
| MccResults.ReceiveResult | mcc/source/mcc_api.c:483-512 | exact outcome, output and new block of the second section, for both kinds of receive |
| MccResults.CountResult | mcc/source/mcc_api.c:645-679 | the length of the list of the entry in use for the endpoint, or the endpoint error |
| MccResults.FreeResult | mcc/source/mcc_api.c:695-726 | the held buffer goes behind the free list, is held no more, and exactly the other cores with room are told |
| MccResults.InterruptResult | mcc/source/mcc_common.c:288-307 | the handler of a core empties its ring and touches nothing else |
| MccResults.OwnTaskOnly | mcc/source/mcc_api.c:63-726 | a step moves only the task that makes it |
| MccResults.StartResult | mcc/source/mcc_api.c:101-123 | after initialisation the buffers are free in index order, and table and rings are empty |
| MccRuns.PerformKeepsOk | mcc/source/mcc_api.c:284-726 | every step of every task keeps table, rings and task states well formed and each buffer in exactly one place |
| MccRuns.AlwaysOk | mcc/source/mcc_api.c:63-726 | the block is well formed in every state of every run: distinct registered triples, free entries empty, rings within capacity, buffers partitioned |
| MccRuns.Conservation | mcc/source/mcc_api.c:300-723 | after every interleaving the buffers are partitioned exactly into free list, endpoint lists and held buffers, without repetition |
| MccDelivery.StepEntry | mcc/source/mcc_api.c:349-383 | what any step means for one table entry: its messages gain what was sent to its endpoint and lose what was taken, and it changes hands only by being closed |
| MccDelivery.FifoDelivery | mcc/source/mcc_api.c:349-383 | from creation on, the messages sent to an endpoint are those taken from its entry followed by those still queued, in order and byte for byte; that these are the messages of the callers is MccCalls.SentByCall |
| MccDelivery.TakenReceipt | mcc/source/mcc_api.c:489-499 | a receive that succeeds takes the head message of an occupied entry and outputs all of it, or the first bytes that fit the size it goes on with; that this is the caller's size is MccCalls.ReceiveAsAsked |
| MccDelivery.DeliversToOccupant | mcc/source/mcc_api.c:476-499 | every receive, even on a stale list pointer, delivers the oldest undelivered message of the endpoint that occupies the entry then |
| MccDelivery.OccupantStays | mcc/source/mcc_common.c:98-121 | an entry that no step closes keeps its endpoint through any run |
| MccDelivery.TwoPhaseReceive | mcc/source/mcc_api.c:440-499 | when the entry was not closed since the lookup, the message is the oldest undelivered one sent to the endpoint asked for, whatever the unlocked look saw |
| MccDelivery.ReceiveFollowsLookup | mcc/source/mcc_api.c:562-609 | a task in a receive looked up that endpoint at that entry in an earlier step and has been in this very receive ever since |
| MccDelivery.HasOwnLookup | mcc/source/mcc_api.c:431-483 | every receive that takes a message began with exactly one lookup of its own |
| MccDelivery.OwnTwoPhaseReceive | mcc/source/mcc_api.c:440-499 | when the entry was not closed since that lookup, the message is the oldest undelivered one sent to the endpoint asked for |
| MccDelivery.CountIsOutstanding | mcc/source/mcc_api.c:657-671 | the count reported is the number of messages sent to the endpoint and not yet taken |
| MccCalls.WaitFollowsSend | mcc/source/mcc_api.c:309-347 | a task that waits for a buffer made a call that may wait, and still has that call's endpoint, message and time-out |
| MccCalls.HasSendCall | mcc/source/mcc_api.c:309-347 | every step of a send is part of exactly one call |
| MccCalls.SendOutcome | mcc/source/mcc_api.c:289-383 | however long a call waited, what it comes to is decided by its own arguments and the block then; it ends without a buffer only with time-out 0 at its first look, or when a finite time-out expires |
| MccCalls.SentByCall | mcc/source/mcc_api.c:309-383 | every message sent is that of exactly one call, made by the same task to the same endpoint |
| MccCalls.EndsOnce | mcc/source/mcc_api.c:309-383 | no call sends or fails twice: later steps of the task are those of other calls |
| MccCalls.ReceiveAsAsked | mcc/source/mcc_api.c:440-618 | mode and size of the receive's own lookup decide what is output and whether the buffer is held or freed |
| MccCalls.ReceiveOutcome | mcc/source/mcc_api.c:452-487 | after the look only a call with time-out 0 ends; in the second section it times out exactly on an empty list, else it takes a message |
| MccOrigins.QueueOrigins | mcc/source/mcc_api.c:350-383 | in every state of every run each queued buffer was last filled by a send to the endpoint of its entry, holds that message unchanged, and the list is in the order of those sends |
| MccOrigins.DeliversFill | mcc/source/mcc_api.c:476-499 | a receive delivers the message of the send that filled its buffer last, whatever was looked up, and that send was to the endpoint that occupies the entry then |
| MccOrigins.DeliveredOnceInOrder | mcc/source/mcc_api.c:483-512 | two receives never deliver the same send; from one entry, or to one endpoint, the sends are delivered in the order in which they were made |
| MccOrigins.OccupantSince | mcc/source/mcc_common.c:98-121 | after a lookup found an endpoint at an entry, it occupies the entry iff the entry was not closed, or was opened for it again and not closed since |
| MccOrigins.RightEndpoint | mcc/source/mcc_api.c:440-499 | the send that filled the delivered buffer was addressed to the endpoint asked for iff, since this receive's own lookup, the entry was not closed or was opened again for that endpoint and not closed since |
| MccStaleLookup.StaleReceive | mcc/source/mcc_api.c:440-499 | a run in which a receive that asked for port 1 delivers the only message, which was sent to port 2 |
| MccZeroCopy.StepSparesHeld | mcc/source/mcc_api.c:300-386 | no step writes, recycles or hands out a held buffer except the call that frees it |
| MccZeroCopy.HeldIsStable | mcc/source/mcc_api.c:611-618 | a handed-out buffer keeps its length and every byte through any steps of any tasks until it is freed |
| MccZeroCopy.HandOutHolds | mcc/source/mcc_api.c:611-618 | a zero-copy receive makes its buffer held, with the delivered message in it |
| MccZeroCopy.NoSharedBuffer | mcc/source/mcc_api.c:605-618 | two receives get the same buffer only if it was freed in between |
| MccSignalRuns.SignalAccounting | mcc/source/mcc_api.c:370-383 | per core, signals ever queued are those serviced followed by those waiting; per endpoint, exactly one message signal per message sent, on its core only; rings within capacity |
| MccSignalRuns.SignalsReachTheirCore | mcc/source/mcc_api.c:369-372 | in every state of every run, every waiting message signal is for the core in whose ring it is, so the handler drops none |
| DriveLetters.BitOfSet | mfs/examples/mfs_usb/usb_file.c:148 | or-ing in the mask of a letter sets that bit only |
| DriveLetters.BitOfClear | mfs/examples/mfs_usb/usb_file.c:331-332 | and-ing with the complement clears that bit only |
| DriveLetters.LowestFree | mfs/examples/mfs_usb/usb_file.c:130-135 | every letter before the result is taken, and the result is free or there is none |
| DriveLetters.MsdDevice.FindLetter | mfs/examples/mfs_usb/usb_file.c:130-135 | the loop finds the lowest free letter together with its mask |
| DriveLetters.MsdDevice.AssignDriveLetter | mfs/examples/mfs_usb/usb_file.c:123-155 | name and mask afterwards when no letter is free, mounting fails, or mounting works; only this slot changes |
| DriveLetters.MsdDevice.InstallParts | mfs/examples/mfs_usb/usb_file.c:265-302 | the partition loop with its skips and its early end leaves the names and mask of the loop function, whose names DriveLetterRuns.PartsChoose characterises slot by slot |
| DriveLetters.MsdDevice.Install | mfs/examples/mfs_usb/usb_file.c:158-306 | names and mask after an install with any combination of failing calls |
| DriveLetters.MsdDevice.Uninstall | mfs/examples/mfs_usb/usb_file.c:325-333 | the mask loses the letters in the device's names |
| DriveLetterRuns.InstallGives | mfs/examples/mfs_usb/usb_file.c:254-302 | an install sets exactly the bits of the names the device ends up with, all new and distinct |
| DriveLetterRuns.PartsChoose | mfs/examples/mfs_usb/usb_file.c:265-302 | slot p is named iff partitions 1 to p open, p is selected, valid and mounted, and a letter is left; then it gets the lowest letter that is neither taken nor in an earlier slot |
| DriveLetterRuns.InstallNames | mfs/examples/mfs_usb/usb_file.c:173-302 | exactly which slots are named, and with which letter, for every combination of failing calls |
| DriveLetterRuns.ReleaseClears | mfs/examples/mfs_usb/usb_file.c:325-333 | an uninstall clears the device's own letters and no other bit |
| DriveLetterRuns.InstallKeepsAgreement | mfs/examples/mfs_usb/usb_file.c:173-302 | installing keeps mask and names in agreement iff the device struct held no letter before |
| DriveLetterRuns.UninstallKeepsAgreement | mfs/examples/mfs_usb/usb_file.c:325-333 | uninstalling a live device releases exactly its letters and keeps the agreement |
| DriveLetterRuns.SecondUninstall | mfs/examples/mfs_usb/usb_file.c:330-333 | uninstalling again from the stale names keeps the agreement iff none of those letters has been given out again |
| DriveLetterRuns.SecondUninstallTakesLetter | mfs/examples/mfs_usb/usb_file.c:330-333 | a run that ends with device 2 holding the letter device 1 had; uninstalling device 1 once more frees that letter |
| DriveLetterRuns.After | mfs/examples/mfs_usb/usb_task.c:190-222 | after every run of attaches and detaches a bit is set iff exactly one slot of a live device holds that letter |
| DriveLetterRuns.HighBitsStayClear | mfs/examples/mfs_usb/usb_file.c:131-140 | bits 26 to 31 are never set |
| DriveLetterRuns.NoLeak | mfs/examples/mfs_usb/usb_task.c:190-222 | after any run with any failures, uninstalling the devices still there leaves no letter taken |
| DirRead.AppendPrints | mfs/source/generic/dir_read.c:228-229 | one append behind a bounded print of a text leaves, byte for byte, what one bounded print of the longer text leaves |
| DirRead.AppendAllPrints | mfs/source/generic/dir_read.c:205-268 | for every list of pieces and every size, also part-way, appending them one by one leaves the buffer of one bounded print of the whole text |
| DirRead.LineAtOnce | mfs/source/generic/dir_read.c:205-268 | from any buffer, appending the pieces of a line equals one bounded print of their concatenation, in every byte of the buffer |
| DirRead.PrintedShows | mfs/source/generic/dir_read.c:228-229 | a bounded print leaves the longest prefix of its text that fits and a terminator behind it, and writes nothing behind the given size |
| DirRead.Snprintf | mfs/source/generic/dir_read.c:228-229 | at most n - 1 characters and a terminator, nothing when n is 0, and the untruncated count |
| DirLines.DecimalReads | mfs/source/generic/dir_read.c:208 | a printed number has only digits and no leading zero, and reading it gives the number back |
| DirLines.FillColumn | mfs/source/generic/dir_read.c:240 | a number in a column is padded on the left to at least the width, and never cut off |
| DirLines.DateIsPacked | mfs/source/generic/dir_read.c:211-213 | year, month and day, with their ranges, make up the 16-bit date |
| DirLines.TimeIsPacked | mfs/source/generic/dir_read.c:215-217 | hours, minutes and even seconds, with their ranges, make up the 16-bit time |
| DirLines.MsDosLine | mfs/source/generic/dir_read.c:204-224 | at its columns one reads back name, size, date, time and every attribute bit; the line ends with the long name if there is one, else the short one |
| DirLines.UnixLine | mfs/source/generic/dir_read.c:225-257 | at its columns one reads back directory and read-only bits, size, month name, day and year; the line ends with the name |
| DirLines.NameLine | mfs/source/generic/dir_read.c:259-268 | a line without details is the long name if there is one, else the short one |
| DirRead.DirStruct.Read | mfs/source/generic/dir_read.c:162-275 | no entry: -1 and an untouched buffer; else the untruncated length of the line, and the buffer of one bounded print of the line with a last terminator, nothing written behind size; what the line says is DirLines.MsDosLine, UnixLine and NameLine |
| Hvac.Thermostat.SwitchPoll | demo/hvac/switch_task.c:35-73 | parameters, change event, saved readings, room temperature and time of its last update after one poll; what the poll function does by the readings is HvacRuns.PollEdges |
| Hvac.Thermostat.SetDesiredTemperature | demo/hvac/hvac_util.c:120-124 | the stored setpoint is the converted display value and the change is signalled |
| Hvac.Thermostat.ControlCycle | demo/hvac/hvac_task.c:103-138 | state, fan and the three outputs are those of the decision; heat and cool outputs are never both on |
| Hvac.Thermostat.ReadAmbientTemperature | demo/hvac/hvac_io.c:270-283 | at most one update per second, towards what the outputs say |
| HvacRuns.Conversions | demo/hvac/hvac_util.c:88-112 | both conversions by numbers, with the floor, and with the wrap-around below the freezing point |
| HvacRuns.CelsiusRoundTrip | demo/hvac/hvac_util.c:88-124 | Celsius to Fahrenheit and back loses 0 at multiples of 5 and exactly 1 otherwise |
| HvacRuns.DisplayRoundTrip | demo/hvac/hvac_util.c:88-112 | Fahrenheit from freezing point up to Celsius and back loses 0, 1 or 2, by the residue modulo 9 |
| HvacRuns.ResetsDecay | demo/hvac/hvac_util.c:115-124 | n get-then-set operations leave max(T - n, 5 * (T / 5)) |
| HvacRuns.UpPress | demo/hvac/switch_task.c:46-52 | when an up press is accepted, in both scales, and that it adds exactly 5, or 2 in Fahrenheit |
| HvacRuns.DownPress | demo/hvac/switch_task.c:53-58 | when a down press is accepted, and that it takes exactly 5, or 3 or 4 by the residue modulo 5 |
| HvacRuns.PollEdges | demo/hvac/switch_task.c:45-70 | by the readings alone: the setpoint moves on a button's edge only, by the exact amount and within the limits; fan toggles on its edge; mode by the edges of heat and cool, else off if either was on |
| HvacRuns.PollSignalsChanges | demo/hvac/switch_task.c:45-70 | the change event is set iff the setpoint moves, the fan toggles or a mode input is or was on |
| HvacRuns.HeldButtons | demo/hvac/switch_task.c:45-63 | buttons held over any number of polls move setpoint and fan once |
| HvacRuns.PollIsSafe | demo/hvac/switch_task.c:45-58 | a poll keeps the setpoint within 0 to 500 for any readings and scale |
| HvacRuns.AfterInputs | demo/hvac/switch_task.c:35-73 | the setpoint stays within 0 to 500 in every run of polls and scale changes |
| HvacRuns.OneUpdatePerSecond | demo/hvac/hvac_io.c:275-276 | polls at any times update the room at most once per second that passes |
| HvacRuns.DecideTowards | demo/hvac/hvac_task.c:108-133 | in every mode: heat iff heating is allowed and the room is colder, cool iff cooling is allowed and it is warmer, else off; fan on iff heating, cooling or switched on |
| HvacRuns.CycleApproaches | demo/hvac/hvac_io.c:275-282 | each update of a cycle brings the room one tenth closer until it is reached, and the overshoot stays below the number of updates per cycle |
| HvacRuns.LoopConverges | demo/hvac/hvac_task.c:103-138 | over any run the distance to the setpoint is at most max(initial distance - updates made, K - 1) |
| HvacRuns.SetpointIsStable | demo/hvac/hvac_task.c:113-138 | at the setpoint the room stays there |

## Left out

- Semaphore errors: the semaphore is a lock whose operations succeed; a section is one atomic step.
- Liveness of blocked tasks: which waiting task an event wakes, and when, is not modelled; a waiting task may go on or time out at any step.
- The composed calls mcc_send, mcc_recv_copy and mcc_recv_nocopy: on the heap each section is a method; their waiting loops exist only in the interleaving model, where other tasks run in between.
- The first mcc_initialize racing with another core: modelled as one step on memory with any contents.
- Event creation in mcc_initialize and event and semaphore destruction in mcc_destroy.
- mcc_get_info, version strings, the Linux branches, address translation, cache maintenance and structure packing.
- MccBookkeeping.Bookkeeping.FreeBuffer: requires a buffer that is on no list; by MccRefinement.SharedIsEnough these are the buffers that zero-copy receives handed out and nobody freed yet. The container-of arithmetic is replaced by the buffer itself.
- MccProtocol: the message and endpoint that a waiting call points to do not change while it waits.
- 32-bit wrap-around of message lengths and counts in MCC, and of the line length in dir_read.c: the values stay below the sizes of the buffers and names involved.
- DriveLetters: device and partition manager names, the searches for a free device name, vendor information, delays and console output; each call only succeeds or fails. A file system handle is modelled as whether mounting gave one.
- DriveLetters.MsdDevice.Uninstall: the retries of closing a file system and the closing of handles, which touch neither names nor mask.
- _io_mfs_dir_open and its mode letters, _io_mfs_dir_close, and the directory search itself, whose results are parameters.
- The `%02d` and `%4d` conversions of day and year are modelled for the non-negative values that the masks can give.
- HVAC_WaitParameters: how often polls and cycles alternate; polls and cycles are separate runs, and the clock does not wrap around.
- Thermostat logging, shell and web input, GPIO, ADC and the heartbeat; a setpoint from the shell or the web is not covered by the safety result.
- HvacRuns.LoopConverges: for a fixed setpoint S in automatic mode with S >= K - 1 and no 32-bit overflow, K being the most updates in one cycle.

# Linux driver exercises: a verified model

This project models the parts of the driver collection that hold real state machines or data
paths, and proves what they guarantee for all inputs, all runs and all interleavings.

| files | models |
|---|---|
| `SkelModel` (steps), `SkelLog` (observations), `SkelInvariant`, `SkelProof`, `SkelSteps` (invariant), `SkelCounts`, `SkelRetry`, `SkelLedger` (invariants of the log), `SkelTheorems`, `SkelReturns`, `SkelAnswers`, `SkelReports`, `SkelSuspend`, `SkelProgress` (results), `SkelExamples` (three runs) | the asynchronous bulk driver, USB/usbdrv3.c |
| `BulkStream` | the synchronous bulk driver, USB/usbdrv4.c |
| `RamDisk`, `RamDiskHistory`, `RamDiskDriver` | the RAM disk, BlockDriver/blk1.c |
| `RingQueue` (call by call), `RingRace` (reader and writer interleaved) | the ring buffer, WaitQueue/wait1.c |
| `UartTx` | the transmit path, UartDriver/test_serial.c |
| `SeqLock` | writer and reader, SeqLock/seqlock1.c |
| `Bytes`, `Errno` | bytes, list helpers and error codes |

## The asynchronous bulk driver

The device object, every call inside the driver with its program counter, the URBs in flight and
the USB core form one state. An event is one lock section, one kernel call or one unlocked access
of a shared field; `Exec(buffer, es)` is the state after the events `es`, and an event that is not
enabled changes nothing, so the results hold for every sequence of events without a precondition.
The state holds the fields of the driver; a log records completions, copies and accesses of the
error latch, and the quantities in the results are functions of that log alone.

What the model takes from the kernel:

- A URB that is submitted completes once; one whose submission fails does not complete.
- `actual_length` is at most the submitted length and `urb->status` is at most 0. Completions of
  length 0 are legal (section 5.8.3 of the USB 2.0 Specification).
- `usb_kill_urb` returns when the URB is not in flight and its callback is over;
  `usb_kill_anchored_urbs` and a successful `usb_wait_anchor_empty_timeout` return when the anchor
  is empty and no callback of an anchored URB is running. A URB leaves its anchor just before its
  callback runs.
- `skel_open` is atomic against `usb_deregister_dev`, and a file is released when no call uses it.
- The core runs probe, suspend, reset and disconnect of one device one at a time.
- A section under `err_lock` is one step, also against the two accesses that do not take it: the
  store of `skel_post_reset` (line 618) and the reader's load and store of the latch (lines 260 and
  263), which are two separate steps here.

Two promises of the code do not hold, and the model says when they do:

- *Any error is reported once* (lines 262 and 385). The reader tests and clears the latch without
  `err_lock`, so a write can take the value in between and both report it: `ReportedTwice`. And a
  completion can overwrite an error that nobody has seen, even the mark of a reset: `ResetForgotten`.
  `ErrorsReportedExactlyOnce` counts the reports of each stored error. With the latch empty and no
  reader about to clear it, each error was reported exactly once if and only if the run contains
  neither a racy take nor a lossy step. A racy take is a write that finds an error in the latch while
  a reader is between its load and its clear and nothing was stored since the load. A lossy step
  stores an error over one that no reader has loaded, or clears one stored after the reader's load.
  `ErrorsReportedOnce` and `ErrorsForgotten` give the two halves for every run.
- *A read goes back to `retry` only after an empty transfer.* A write can pick up the error of the
  read's own failed transfer, and the read, finding neither data nor error, starts another:
  `RetriedForNothing`. `RestartGuard` shows that it does so exactly when the latch it loads is 0,
  `RetryBound` bounds the passes by the transfers robbed in this way, and `RetryExactly` counts them,
  for a finished read as well.

`skel_suspend` takes no lock. Autosuspend happens only with no file open, since every open file holds
a usage count (lines 98 and 121), and then it returns with nothing in flight: `AutosuspendReturns`.
For system sleep the same holds because tasks are frozen first: `FrozenSleepReturns`. `SleepReturns`
says what it depends on without the freezer.

## The other drivers

- USB/usbdrv4.c: `Device` updates its buffers in place. A bulk message is a parameter: the bytes it
  brings or takes, or how it fails. Sizes fit in an `int`, buffers are not empty, and a timed-out
  message delivers nothing.
- BlockDriver/blk1.c: `Disk` updates its data array in place. Open and release are serialised,
  `check_disk_change` calls revalidate exactly when media_changed is nonzero,
  `blk_rq_cur_sectors` stays at the first segment's length while the loop runs, and
  `nsectors * hardsect_size` fits in an `int`. Byte offsets are 64-bit numbers that wrap, so the
  beyond-end test can be fooled: `GuardExact` says exactly when, and `GuardWraps` gives a sector that
  is admitted and copied from before the array. Such sectors are beyond the advertised capacity, which
  the block layer checks before it calls the driver; `CapacityAgrees` covers all the others.
- WaitQueue/wait1.c: `CRem` is C's remainder. In `RingQueue` a call that would sleep returns `Sleeps`
  and changes only `condition`; `RingRace` follows one writer and one reader through every access of a
  shared variable, sleeps included. There a full ring at head 0 is harmless if the reader moves on
  before the writer advances, and a write that does find the ring full never goes on.
- UartDriver/test_serial.c: any power of two up to 2^32 as the buffer size. `icount.tx` wraps at
  2^32. What the serial core enqueues is an event of the environment.
- SeqLock/seqlock1.c: the sequence number wraps at 2^32; the counter does not wrap. The model starts
  from an initialised lock.

Where the code and its comments disagree the model follows the code: the full test of line 25 of
WaitQueue/wait1.c ("sleep if necessary until the ringbuffer has room") does not see a full ring at
head 0, and the loop of BlockDriver/blk1.c takes every segment to be as long as the first.

## Model

| member | source | states |
|---|---|---|
| `SkelSteps.InvHolds` | USB/usbdrv3.c:39-58 | the invariant that ties the fields of the device to the positions of all calls and of the core holds after every run |
| `SkelSteps.StepKept` | USB/usbdrv3.c:128-622 | every event, taken by any call, callback or the core, keeps that invariant |
| `SkelProof.CallKept` | USB/usbdrv3.c:216-458 | a step of a call keeps the device and the call itself in order |
| `SkelProof.CallKeptBeside` | USB/usbdrv3.c:216-458 | a step of one call keeps every other call in order, whatever positions the two are at |
| `SkelTheorems.DeviceLifetime` | USB/usbdrv3.c:98-126 | the reference count is one for the binding plus one per open file; skel_delete has run at most once, and exactly when both are gone; then no URB is in flight and no call is inside |
| `SkelTheorems.FilesExactly` | USB/usbdrv3.c:75-126 | open succeeds exactly on a device that is present and not being autosuspended, release exactly when no call uses the file, and each moves one reference |
| `SkelProgress.EveryDeviceCanBeDeleted` | USB/usbdrv3.c:64-126 | from every reachable state a continuation unplugs the device, releases its files and runs skel_delete |
| `SkelTheorems.DeletedIsFinal` | USB/usbdrv3.c:64-73 | after skel_delete no event of any kind, callbacks included, touches the device |
| `SkelTheorems.SubmissionGuarded` | USB/usbdrv3.c:194-202 | a read about to submit finds the read URB not in flight, marked and its buffer empty; a write about to submit finds its URB anchored and neither in flight nor in its callback; both own io_mutex of a device not disconnected and not deleted |
| `SkelTheorems.SubmittersAre` | USB/usbdrv3.c:413-430 | a URB comes into flight at those two positions and nowhere else |
| `SkelTheorems.DisconnectIsFinal` | USB/usbdrv3.c:553-573 | once disconnect has killed the URBs, none is in flight in that state or any later one |
| `SkelTheorems.PermitConservation` | USB/usbdrv3.c:370-454 | free permits, permits held by write calls and write URBs not yet released always make 8; all 8 are back when the driver is idle |
| `SkelTheorems.ReadUrbDiscipline` | USB/usbdrv3.c:159-257 | a read URB in flight means ongoing_read; outside skel_do_read_io copied <= filled <= bulk_in_size; a reader that waits has a completion coming |
| `SkelTheorems.TransferAsks` | USB/usbdrv3.c:184-202 | a transfer asks for min(bulk_in_size, what the read still wants): its whole count, or the rest after the bytes a prefetching read returns |
| `SkelTheorems.StreamIntegrity` | USB/usbdrv3.c:184-317 | bytes taken followed by bytes buffered are the payloads of all successful transfers; the bytes delivered complete the stream if and only if no copy to a user faulted |
| `SkelLog.DeliveredIsConsumed` | USB/usbdrv3.c:296-303 | bytes delivered are the bytes taken if no copy faulted, and strictly fewer otherwise |
| `SkelReturns.CopiedIsReturned` | USB/usbdrv3.c:275-311 | a read takes the next bytes of the stream, as many as asked for or buffered, and returns their number, or -EFAULT |
| `SkelReturns.SettledIsReturned` | USB/usbdrv3.c:301-321 | what a call has settled on is what it returns after any further events; a prefetch or its failure does not change it |
| `SkelReturns.LoggedIsReturned` | USB/usbdrv3.c:259-321 | the call that copies bytes, takes the latch or clears it returns what was logged, and none of its later steps copies or reports |
| `SkelReturns.ReadReturns` | USB/usbdrv3.c:225-322 | a read of count > 0 returns an error or a number in 1..min(count, bulk_in_size), never 0 |
| `SkelReturns.WriteReturns` | USB/usbdrv3.c:358-458 | a write returns an error or min(count, MAX_TRANSFER) |
| `SkelAnswers.AnswersExactly` | USB/usbdrv3.c:128-458 | in every run a read, write or flush settles on a value if and only if one of its own steps met a cause of it: -EINTR and -ERESTARTSYS a signal, -EAGAIN O_NONBLOCK with a read ongoing or no permit, -ENODEV the mark of disconnect, -EPIPE and -EIO a latched error, -ENOMEM, -EFAULT and the rest the failing kernel call, a number bytes in the buffer or the submission, 0 a flush with an empty latch |
| `SkelAnswers.BytesAreServed` | USB/usbdrv3.c:275-311 | a read that finds bytes, blocking or not, takes the next min(count, buffered) of them and returns their number, or -EFAULT, and prefetches exactly if there were fewer than it asks for |
| `SkelAnswers.LatchedIsReported` | USB/usbdrv3.c:259-268 | a read that loads an error clears the latch with its next step and returns -EPIPE for -EPIPE and else -EIO, whatever happens in between |
| `SkelAnswers.WriteSubmits` | USB/usbdrv3.c:358-458 | a write of more than no bytes returns min(count, MAX_TRANSFER) if and only if it put a URB of its own into flight, and an error otherwise |
| `SkelAnswers.FlushReturns` | USB/usbdrv3.c:137-149 | a flush returns 0 for an empty latch, -EPIPE for -EPIPE and else -EIO, leaves the latch empty, and logs a take exactly if it was not |
| `SkelAnswers.NonBlockingWaits` | USB/usbdrv3.c:245-250 | a non-blocking read or write waits for io_mutex at most |
| `SkelReturns.RetryBound` | USB/usbdrv3.c:239-318 | a read at any position has passed retry at most twice, plus once per empty transfer of its own, plus once per failed transfer of its own whose error was taken before its next transfer completed |
| `SkelReturns.RetryExactly` | USB/usbdrv3.c:239-318 | wherever a read is, each pass after the second answers an empty transfer of its own or is a restart after a robbed one; 2 plus the empty ones is a bound exactly if it restarted no more often than it left empty transfers unanswered; while its own transfer is in flight that is exactly if it was never robbed |
| `SkelReturns.RestartGuard` | USB/usbdrv3.c:259-318 | a read whose own last transfer failed starts another exactly when the latch it loads is 0, whatever happens before its next step, and else returns the error loaded; it loads 0 only if the latch was taken since |
| `SkelExamples.RetriedForNothing` | USB/usbdrv3.c:382-392 | a run in which a read passes retry three times, once as a restart, though none of its transfers was empty |
| `SkelTheorems.DrawDownQuiesces` | USB/usbdrv3.c:578-622 | no URB is in flight, with io_mutex held, when flush clears the latch and from the end of pre_reset to the unlock of post_reset |
| `SkelTheorems.ReadCompletes` | USB/usbdrv3.c:152-177 | a read transfer in flight completes with any status and any data that fit: a success makes the data what is pending, a failure leaves nothing pending and is latched, and ongoing_read falls |
| `SkelTheorems.WriteCompletes` | USB/usbdrv3.c:324-349 | a write URB in flight completes with any status, a failure is latched, and its permit comes back with the end of its callback |
| `SkelTheorems.ResetIsMarked` | USB/usbdrv3.c:613-621 | every reset leaves -EPIPE in the latch before io_mutex is released |
| `SkelSuspend.AutosuspendReturns` | USB/usbdrv3.c:98-126 | the core autosuspends only with no file open, and when skel_suspend returns no URB is in flight, no callback is running and no call is inside |
| `SkelSuspend.SleepReturns` | USB/usbdrv3.c:578-596 | for system sleep skel_suspend returns with nothing in flight exactly if each write submitted after its wait for the anchor was followed by the end of its callback |
| `SkelSuspend.FrozenSleepReturns` | USB/usbdrv3.c:588-596 | so it does when no call steps in between, as the freezer ensures |
| `SkelSuspend.BackExactly` | USB/usbdrv3.c:324-349 | a write URB that was submitted is back exactly if its callback has ended since |
| `SkelProgress.AnchorsHold` | USB/usbdrv3.c:427-454 | in every run an anchored URB is in flight or held by a write that has yet to submit or unanchor it |
| `SkelProgress.EveryCallCanFinish` | USB/usbdrv3.c:216-458 | from every reachable state a continuation without signals, failing answers or new calls, and with successful transfers when the buffer has room, finishes every call, the core and every URB and gives back all 8 permits, so no call is stuck on io_mutex, the semaphore, the anchor or its wait |
| `SkelReports.ErrorsReportedOnce` | USB/usbdrv3.c:259-268 | every stored error is picked up at most once if and only if no write takes an error while a reader is between load and clear with nothing stored since; without such a step each error is reported at most once and reports do not exceed errors; with one, some error is reported twice once no reader is in between |
| `SkelReports.ErrorsForgotten` | USB/usbdrv3.c:259-268 | every stored error is picked up, but for one still in the latch, if and only if no completion or reset stores over an error that no reader has loaded and no reader clears an error stored after its load |
| `SkelReports.ErrorsReportedExactlyOnce` | USB/usbdrv3.c:259-268 | with the latch empty and no reader about to clear it, each stored error was reported exactly once if and only if the run has neither kind of step |
| `SkelReports.BooksAreSteps` | USB/usbdrv3.c:382-392 | the ledger counts no double report, and no loss, exactly in the runs without such steps |
| `SkelReports.NeverReported` | USB/usbdrv3.c:159-172 | an error that was overtaken by another before anybody picked it up is not reported in any continuation |
| `SkelReports.ErrorsAccounted` | USB/usbdrv3.c:259-268 | stores plus double reports equal reports plus losses plus what is outstanding; each report is of one stored error, -EPIPE for -EPIPE and else -EIO |
| `SkelLog.HonestBalances` | USB/usbdrv3.c:382-392 | the books of every log in which reports carry what the latch held balance |
| `SkelLog.OnceIsNoDouble` | USB/usbdrv3.c:259-268 | in an honest log every error is picked up at most once exactly if the ledger has no double |
| `SkelLog.LostIsForgotten` | USB/usbdrv3.c:259-268 | in an honest log every error is picked up, but for one still in the latch, exactly if the ledger has no loss |
| `SkelLog.PickUpsAreReports` | USB/usbdrv3.c:259-268 | an error is reported as often as it was picked up, but for the one a reader has loaded |
| `SkelLog.ReportsAddUp` | USB/usbdrv3.c:259-268 | the reports of the single errors add up to all reports |
| `SkelExamples.ReportedTwice` | USB/usbdrv3.c:259-268 | a run in which one reset is reported by a write and by a read |
| `SkelExamples.ResetForgotten` | USB/usbdrv3.c:613-621 | a run after which, whatever follows, a reset is never reported |
| `SkelRetry.RetriesHold` | USB/usbdrv3.c:239-318 | in every run each transfer that a read in its loop has ended was empty, was robbed of its error, or has left bytes or an error that the read is bound to find |
| `SkelCounts.CountsHold` | USB/usbdrv3.c:179-214 | in every run each reader's passes match the transfers it has started |
| `SkelLedger.LedgerHolds` | USB/usbdrv3.c:142-145 | in every run the log is honest, its ledger holds the latch's value, and only a reader between lines 260 and 263 has it loaded |
| `BulkStream.Device.Open` | USB/usbdrv4.c:48-55 | a second open is -EBUSY and changes nothing; the first starts with nothing left over |
| `BulkStream.Device.Shift` | USB/usbdrv4.c:143-146 | the overlapping copy moves the unread suffix to the front unchanged |
| `BulkStream.Device.Read` | USB/usbdrv4.c:93-158 | for every size, reply and copy fault: min(cnt, found) bytes are returned, found being the left-overs, else the message, else nothing, and the rest is left over; a fault leaves all and returns -EFAULT; a failed message returns its code; left-overs and result are those of the stream function |
| `BulkStream.ReadsAreAStream` | USB/usbdrv4.c:93-158 | since open, bytes returned followed by left-overs are the bytes the device sent, for every sequence of reads |
| `BulkStream.Device.Write` | USB/usbdrv4.c:64-92 | for all replies: the messages accepted are a prefix of the user's bytes, each as long as reply, buffer and rest allow, all of them exactly on success; a failure is that of the first message not accepted; with progress and enough replies the loop ends |
| `BulkStream.MessageSizes` | USB/usbdrv4.c:71-77 | each accepted message has min(reply, buffer size, bytes left) bytes |
| `BulkStream.WholeMessages` | USB/usbdrv4.c:71-77 | a device that takes whole messages gets full buffers as long as the bytes last |
| `BulkStream.ReadBack` | USB/usbdrv4.c:93-158 | reads of any sizes from an echoing device give back, in order, what was left over followed by what it has to send; as many non-empty reads as bytes give back all of it |
| `BulkStream.LoopBack` | USB/usbdrv4.c:48-158 | write, echo and reads of any sizes return the bytes written in order, and all of them after as many non-empty reads as bytes; a second user gets -EBUSY and nothing is written |
| `RamDisk.GuardExact` | BlockDriver/blk1.c:87-93 | the test admits exactly the transfers that end on the disk if and only if the end is below 2^64 or wraps to beyond the disk; an admitted transfer stays inside the array if and only if offset plus length does not wrap |
| `RamDisk.CapacityAgrees` | BlockDriver/blk1.c:271-309 | every request inside the advertised capacity passes the test and lies inside the data array, also when the hardware sector size is not a multiple of 512 |
| `RamDisk.LoopIsOneTransfer` | BlockDriver/blk1.c:120-130 | inside the disk the segment loop writes what one transfer of the bytes it moves would |
| `RamDisk.ReadLoopIsOneTransfer` | BlockDriver/blk1.c:120-130 | inside the disk the segments after a read, end to end, are the range of the disk |
| `RamDisk.LoopAtEnd` | BlockDriver/blk1.c:120-130 | across the end of the disk exactly the segments that fit are written |
| `RamDisk.LoopIsAtomic` | BlockDriver/blk1.c:120-130 | whatever the bytes, a write of k segments acts as one transfer, done or dropped whole, if and only if it ends on the disk or not even its first segment does |
| `RamDisk.SegmentsMustBeEqual` | BlockDriver/blk1.c:120-130 | the loop moves the bytes the request asks for, whatever they are, if and only if all segments have the current segment's length |
| `RamDisk.RequestRoundTrip` | BlockDriver/blk1.c:120-130 | reading back segment by segment what a request of equal segments wrote returns its bytes |
| `RamDiskDriver.Disk.constructor` | BlockDriver/blk1.c:265-282 | the data array has nsectors * hardsect_size bytes; no users, no media change, no timer |
| `RamDiskDriver.Disk.Transfer` | BlockDriver/blk1.c:84-98 | for all sectors: a transfer the test refuses changes nothing; one that stays inside the array lays exactly its bytes over the data, or fills the buffer from it; the third kind, copying outside, is told apart |
| `RamDiskDriver.Disk.Request` | BlockDriver/blk1.c:103-135 | a passthrough request is refused and changes nothing; a write is the fold of its segments over the data, a read fills each segment from its own range |
| `RamDiskDriver.Disk.Open` | BlockDriver/blk1.c:142-155 | the new state is Opened of the old: timer stopped, wiped if stale and unused, one more user |
| `RamDiskDriver.Disk.Revalidate` | BlockDriver/blk1.c:185-194 | the data is zeroed exactly when a media change was flagged, and the flag is cleared |
| `RamDiskDriver.Disk.Release` | BlockDriver/blk1.c:157-169 | the new state is Released of the old, and a timer that is armed was not pending |
| `RamDiskDriver.Disk.Invalidate` | BlockDriver/blk1.c:200-210 | the sanity check never fails and the disk is flagged |
| `RamDiskHistory.ControlFollows` | BlockDriver/blk1.c:142-210 | users, timer and media change are what the events alone tell; a disk in use has neither flag nor timer |
| `RamDiskHistory.TimerIsSane` | BlockDriver/blk1.c:164-206 | add_timer never arms a pending timer, and the timer never fires on a disk in use |
| `RamDiskHistory.DiskRemembers` | BlockDriver/blk1.c:142-194 | each byte is the last one written since the last wipe, and a wipe is exactly the first open after an expiry with no users |
| `RamDiskHistory.ReadReturnsLast` | BlockDriver/blk1.c:96-97 | a read returns those bytes |
| `RingQueue.Driver.Write` | WaitQueue/wait1.c:20-41 | ring, head and tail after a write that does not sleep, and its outcome |
| `RingQueue.Driver.Read` | WaitQueue/wait1.c:45-67 | ring, head and tail after a read that does not sleep, and its outcome |
| `RingQueue.PutIsFifo` | WaitQueue/wait1.c:25-35 | a write acts as on a queue of 511 bytes if and only if not head 0 and tail 511; there an accepted write makes the full ring appear empty |
| `RingQueue.GetIsFifo` | WaitQueue/wait1.c:50-60 | a read acts as on that queue always |
| `RingQueue.RingIsFifo` | WaitQueue/wait1.c:20-67 | for every sequence of calls the outcomes are those of the queue if and only if no write meets head 0 and tail 511 |
| `RingQueue.FreshRingOverflows` | WaitQueue/wait1.c:25-35 | a fresh ring keeps any 511 bytes, and any 512th write is accepted and loses them all |
| `RingRace.InterleavedIsFifo` | WaitQueue/wait1.c:20-67 | for every interleaving of one writer and one reader, with faults, sleeps and signals, bytes taken followed by bytes in the ring are at every instant the bytes accepted, if and only if the writer never advances tail from 511 while head is 0 |
| `RingRace.ReaderTakes` | WaitQueue/wait1.c:50-60 | a reader that finds the ring non-empty takes its oldest byte by three successful steps of its own, whatever the writer does in between |
| `RingRace.ReaderTests` | WaitQueue/wait1.c:50-56 | a reader goes past its test exactly if the ring is not empty |
| `RingRace.WriterTests` | WaitQueue/wait1.c:25-31 | a write goes past its test exactly if the ring is not full or head is 0 when it samples prev |
| `RingRace.WriterPuts` | WaitQueue/wait1.c:33-35 | a write past its test puts its byte in by two successful steps of its own, whatever the reader does in between |
| `RingRace.FullWriterWaits` | WaitQueue/wait1.c:25-31 | a write that has found the ring full adds nothing, whatever the reader takes out, until a signal ends it |
| `RingRace.SleepersAreStuck` | WaitQueue/wait1.c:25-31 | every writer in the wait loop is such a write |
| `UartTx.MaskIsRemainder` | UartDriver/test_serial.c:61-61 | masking with a power of two less one is the remainder |
| `UartTx.CircCountIsPending` | UartDriver/test_serial.c:67-67 | the masked 32-bit difference of head and tail is the number of bytes pending |
| `UartTx.Port.SendOne` | UartDriver/test_serial.c:60-62 | the oldest byte goes out and is counted |
| `UartTx.Port.Drain` | UartDriver/test_serial.c:58-65 | the loop sends the min(pending, max(1, count)) oldest bytes in order |
| `UartTx.Port.TxChars` | UartDriver/test_serial.c:42-72 | an x_char goes alone; otherwise a tick that is not stopped sends exactly min(pending, max(1, fifosize/2)) bytes in order; all are counted |
| `UartTx.NothingLost` | UartDriver/test_serial.c:47-65 | in every run data sent followed by data queued is the data enqueued, and icount.tx counts every byte and every x_char modulo 2^32 |
| `UartTx.DrainTime` | UartDriver/test_serial.c:102-107 | p bytes are gone after k undisturbed ticks if and only if k >= ceil(p / max(1, fifosize/2)) |
| `SeqLock.AcceptedIsCurrent` | SeqLock/seqlock1.c:58-63 | an accepted value is the number of writer sections completed at an instant between read_seqbegin and the check |
| `SeqLock.AcceptedExactly` | SeqLock/seqlock1.c:58-63 | the check adds the value to those accepted exactly when no section is open and a multiple of 2^31 sections completed since read_seqbegin, and changes nothing else but the reader; with fewer the value is current at every instant since |
| `SeqLock.SectionCompletes` | SeqLock/seqlock1.c:45-47 | a writer outside its section completes one in three steps of its own and counts it |
| `SeqLock.ReadersAlone` | SeqLock/seqlock1.c:58-63 | read_seqbegin returns exactly when no section is open, and a reader left alone then accepts the current count |
| `SeqLock.AcceptedMonotone` | SeqLock/seqlock1.c:58-63 | accepted values never decrease |

## Left out

- USB/usbdrv3.c is modelled on values, as a transition system, since its point is interleaving: update in place and aliasing of the device object are not captured.
- skel_probe before the reference count, its endpoints and its registration: only success and failure of the rest are modelled.
- The bytes a write URB carries, DMA buffers, log messages, and power management beyond the usage count that open files hold.
- Interleavings inside a section under err_lock with the accesses that do not take the lock, beyond the reader's own two accesses.
- Weak memory ordering and time: steps are sequentially consistent, and timeouts and signals are choices of the environment.
- BulkStream.Device.Write: takes finitely many replies, so a device that accepts empty messages for ever shows only as a write that is unfinished after any number of them.
- RamDiskDriver.Disk.Transfer: the memory a copy outside the data array overwrites or reads is not modelled.
- RamDiskDriver.Disk.Open: does not model the wrap-around of the 16-bit user count.
- RamDiskDriver.Disk.Request: asks for segments that do not overlap and hold the bytes the copy touches, since the original reads or writes past a shorter segment, and for sectors whose byte offset is a 64-bit number, as they are within the capacity.
- Several readers or writers at once in WaitQueue/wait1.c, and wake-ups of a sleeping reader that are lost because both sides store `condition` without a lock.
- The ioctl of BlockDriver/blk1.c, the receive side and the termios of UartDriver/test_serial.c, and the late seqlock_init of SeqLock/seqlock1.c.
- The single-primitive exercises (mutex, spinlock, semaphore, atomic, completion, timers, kthreads), procfs, sysfs and debugfs, the socket programs and the registration code of all drivers, which hold no state worth an invariant.

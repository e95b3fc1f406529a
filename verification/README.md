# A verified model of nsq's queues

nsq moves messages from producers to consumers: a topic's channel holds each message in memory, on disk, in
flight to a consumer, or deferred, until the consumer finishes it. This project models the parts where that is
hard to get right, in the form the program has them, and proves what they promise for every input and every
run.

- **Disk queue** (`Bytes`, `BackendQueue`, `DiskFormat`, `LookAhead`, `DiskQueueSpec`, `DiskQueueLaws`, `DiskLimits`,
  `DiskQueue`). A queue kept as numbered files of length-prefixed records. The class moves its fields in place as
  the event loop does, and reads through a buffer; every method equates the new state with a function of the old
  one. Those functions refine a plain first-in first-out queue. What a directory holds is what reading it yields
  when each unreadable record costs the rest of its file. Whatever its files contain, as long as reading them does
  not pass the writer, the loop delivers exactly that, in order, over any mix of deliveries, emptying and syncs.
  With puts as well, over any number of open, run, close cycles, it answers as the queue does if the file being
  written is sound and nothing stands behind the write cursor, however damaged the files before it are. From an
  empty directory no read ever fails. Over every run a file leaves the directory unseen only by a delivery that is
  done with it, or an Empty, and no more than `syncEvery` operations go unsynced.
- **Channel** (`Messages`, `HeapOrder`, `InFlightPqueue`, `DeferredPqueue`, `ChannelSpec`, `ChannelLaws`, `Channel`,
  `ChannelRun`, `ChannelExit`). Maps and array heaps that point back at each other. Each method keeps map and heap in
  agreement and is an operation on a value; over every run of these operations, whatever was accepted and not
  finished is in exactly one place, and nothing else is; what is deferred stays so until it is due, and what was sent
  stays its client's until it is answered or times out. The backend is any queue that answers as
  `BackendQueue.Step` does, which the disk queue is shown to do. `ChannelRun` runs whole scripts through the
  class; `ChannelExit` interleaves closing with requeues, step by step.
- **Flow control** (`FlowControl`). Message pump, command loop, timeout scan, pausing and emptying run
  concurrently, as a step relation whose steps are single loads, stores and posts.
- **IDs** (`Guid`): bit packing, progress and order. **Batches** (`Mpub`): parsing a published batch.
- **Lookup registry** (`RegistrySpec`, `RegistryLaws`, `Registry`): nested maps changed by commands, requests and
  disconnects.
- **Archiver** (`Archiver`): an event loop that acknowledges messages only once they are durable, and rotates its files.

The modules named `Laws` tell what each operation does without the functions that compute it: which entries, files and
counters change, how, and that nothing else does.

Clocks, what the operating system answers, the order in which maps are ranged over, and the interleaving of
goroutines are inputs: results hold for all of them.

Some claims one would like are false of the code. For each there is a case in which it fails, and a lemma or
method saying when it holds:

- A record longer than an int32 can be accepted and cannot be read back (`DiskFormat.RecordReadsBack`).
- If `maxBytesPerFile` is lowered between two runs, the reader can leave a file early and lose the records left
  in it without a read error, or pass the writer, after which read errors never end. The queue keeps its
  records if and only if each ends its file under both limits or under neither (`DiskLimits.ReopenedKeepsAllIff`),
  and passes the writer if and only if it is not drained and the write position exceeds the new limit
  (`DiskLimits.ReopenedIff`, `DiskLimits.PassingTheWriterStalls`). Raising the limit loses nothing.
- A record put where an old one stands, in a file whose records go on behind the write cursor, is not what is
  delivered: the old one is, from the reader's buffer (`DiskQueue.StaleRecordIsDelivered`). With nothing behind
  the write cursor, as in every directory the queue itself wrote, this cannot happen (`DiskQueueSpec.Tidy`); in
  general a buffer survives every write if and only if the write does not reach into it
  (`LookAhead.WritesStayFreshIff`).
- A record put behind a header that announces an impossible size, in the file being written, is accepted and
  never delivered (`DiskFormat.PutBehindBadHeaderIsLost`). A record that is put is found behind all others if and
  only if reading came to the write cursor before (`DiskFormat.PutFoundIff`).
- A message requeued while its channel closes can be lost, with a delay or without, and one with a delay can be
  kept twice (`ChannelExit.RequeueLost`, `ChannelExit.RequeueDoubled`); how many copies remain depends on where
  the two halves of the requeue fall between the flushes (`ChannelExit.CopiesAfterClose`).
- After emptying a channel races with a timeout, a client can have one message more in flight than its ready
  count, whatever that is (`FlowControl.EmptyRaceOvershoots`). The limit holds as long as no reset of the count
  comes too early (`FlowControl.OwnedStaysBounded`), and the first one that does makes a run past the limit
  possible (`FlowControl.ResetHarmlessIff`).
- An ephemeral topic's last producer can unregister it and leave its channels behind
  (`RegistrySpec.OrphanReached`, exactly when: `RegistrySpec.OrphanedOnlySo`); the name of a topic to delete is
  not checked, so `*` deletes all of them, and no other name does (`RegistrySpec.DeletionStaysWithinTopicIff`).
- A batch's declared size is compared with a limit but not with the batch (`Mpub.Reader.MPUB`), which may
  exceed that limit if and only if the largest messages in the largest number do, as they do by default
  (`Mpub.OversizeIsLegal`).
- With a work directory, closing a file whose destination name is free leaves the closed file as the archiver's
  own, and the next use of it ends the process (`Archiver.FileLogger.Turn`, `Archiver.MessageAfterHup`).
- In one clock tick an ID factory hands out 4096 IDs. Of the calls after that every 4096th reports an expired
  sequence, and the others that the ID would go backwards (`Guid.ExactlyTheFirst4096Succeed`).

## Model

| member | source | states |
|---|---|---|
| BackendQueue.Fifo | nsqd/backend_queue.go:5-13 | without an Empty, deliveries followed by what is left are what was there followed by the accepted puts, in order |
| BackendQueue.FifoSinceEmpty | disk/diskqueue.go:205-216 | deliveries after the last Empty are exactly the puts accepted since it, in order |
| BackendQueue.DepthStaysExact | disk/diskqueue.go:139-141 | a depth that is the number of undelivered records stays so over any run |
| BackendQueue.DepthHeals | disk/diskqueue.go:493-531 | whatever the depth drifted to, it is exact for good once the queue was drained or emptied |
| BackendQueue.RunAnswers | disk/diskqueue.go:634-657 | in any run a put is accepted if and only if its size is within the limits, a delivery hands out what is first or blocks if there is nothing, whatever went before |
| BackendQueue.AcceptsSizeIff | disk/diskqueue.go:364-368 | for records up to the largest int32 the size test is the comparison with both limits |
| Bytes.Int32RoundTrip | disk/diskqueue.go:364-372 | a length written as four big-endian bytes reads back as its conversion to int32 |
| DiskFormat.ChainMovesForward | disk/diskqueue.go:620-621 | along records reading only moves forward; the loop's test for data is right exactly if records are left |
| DiskFormat.ChainUnique | disk/diskqueue.go:266-336 | files and cursors determine the records between them |
| DiskFormat.ChainAppend | disk/diskqueue.go:339-407 | a record appended where the chain ends becomes its last record, also across a new file |
| DiskFormat.RecordReadsBack | disk/diskqueue.go:299-316 | an accepted record reads back if and only if its length fits an int32 |
| DiskFormat.TruncatedLengthIsAccepted | disk/diskqueue.go:364-368 | a record of 2^32 bytes more than the smallest size is accepted |
| DiskFormat.OverwrittenAt | disk/diskqueue.go:339-384 | a write at an offset keeps what stands before it and behind it, and fills a gap with zeros |
| DiskFormat.FilesReadIndependently | disk/diskqueue.go:266-336 | a bad record costs only the rest of its file: each file before the write file yields its own records, whatever the others hold |
| DiskFormat.EndIsUpToWriteFile | disk/diskqueue.go:620-628 | where reading ends depends on the file being written alone |
| DiskFormat.SkippingLosesNothing | disk/diskqueue.go:554-596 | a read error loses no record and no later one moves: reading finds the same before and after the bad file was set aside |
| DiskFormat.ReadAppended | disk/diskqueue.go:339-407 | where reading comes to the write cursor, damage before it or not, a written record is found behind all others, and reading comes to the new write cursor |
| DiskFormat.PutBehindBadHeaderIsLost | disk/diskqueue.go:299-316 | where reading stops at a header of impossible size in the write file, an accepted record is never found |
| DiskFormat.PutFoundIff | disk/diskqueue.go:339-407 | with nothing behind the write cursor, a record that does not end its file is found behind all others, and reading comes to the writer again, if and only if reading came to it before |
| LookAhead.FreshReadThrough | disk/diskqueue.go:293-316 | through a buffer that agrees with the file a read finds the record that is in the file, wherever the buffer ends, and leaves it agreeing |
| LookAhead.WritesStayFreshIff | disk/diskqueue.go:339-384 | a write leaves a buffer agreeing with its file, whatever is written, if and only if it does not reach into the buffer |
| LookAhead.StaleRecordIsRead | disk/diskqueue.go:293-316 | otherwise what is read is what the file held when the buffer was filled: the overwritten record, not the new one |
| DiskFormat.SkippingPastTheWriterNeverEnds | disk/diskqueue.go:554-628 | with the reader past the write file and bytes in it, after any number of skips there is still data and none that can be read |
| DiskLimits.RaisedLimitReadsAll | disk/diskqueue.go:318-332 | under a higher file limit reading finds every record |
| DiskLimits.LoweredLimitReadsAllIff | disk/diskqueue.go:318-332 | under a lower one it finds all, and does not pass the writer, if and only if every record ends its file under both limits or neither |
| DiskLimits.SoundUnderOtherLimitIff | disk/diskqueue.go:318-332 | files sound under one limit are sound under another if and only if every record ends its file under both or neither |
| DiskLimits.ReopenedIff | disk/diskqueue.go:430-453 | a closed queue opened under another limit works on, as the first-in first-out queue of what reading yields, if and only if it is drained, the write file is empty, or the write position is within the new limit |
| DiskLimits.ReopenedKeepsAllIff | disk/diskqueue.go:318-332 | it then delivers all that was pending if and only if the limit was not lowered or every record ends its file as before |
| DiskLimits.PassingTheWriterStalls | disk/diskqueue.go:620-628 | a delivery that passes the writer leaves a queue whose read errors never end |
| DiskQueueSpec.TailNeverCorrected | disk/diskqueue.go:493-552 | in an uncorrupted queue with an exact depth no reset of the tail check is taken |
| DiskQueueSpec.PreparedSettled | disk/diskqueue.go:606-641 | in a sound queue no read fails and no cursor moves before the select; a record is ready exactly if one is pending, and it is the first |
| DiskQueueSpec.PreparedHolds | disk/diskqueue.go:606-641 | from any file contents whose reading does not pass the writer, read errors end with the first record that can be read, after at most writeFileNum - readFileNum + 1 skips, and lose none |
| DiskQueueSpec.ReadErrors | disk/diskqueue.go:620-628 | that bound on consecutive read errors holds for any file contents |
| DiskQueueSpec.DeliveredHolds | disk/diskqueue.go:493-552 | a delivery takes the first of the readable records, damage behind it or not, and the depth heals if it reaches the tail |
| DiskQueueSpec.WrittenHolds | disk/diskqueue.go:339-407 | a put adds the last of them |
| DiskQueueSpec.DeliveredSettled | disk/diskqueue.go:533-549 | a delivery removes the record's file exactly if it was that file's last record, and keeps the files as the queue wrote them |
| DiskQueueSpec.RollAgreement | disk/diskqueue.go:318-332 | the reader moves to another file if and only if the record ended its file, and that is not the write file |
| DiskQueueSpec.StepRefines | disk/diskqueue.go:598-657 | from any file contents whose reading does not pass the writer, every turn of the event loop is a turn of the first-in first-out queue with the same response; only an accepted put needs the write file to be sound, with nothing behind the write cursor |
| DiskQueueSpec.StepStaysSettled | disk/diskqueue.go:598-657 | files that are as the queue wrote them stay so over every turn, and no turn sets one aside |
| DiskQueueSpec.SettledHolds | disk/diskqueue.go:598-657 | such a queue holds just its records, and can be written to |
| DiskQueueSpec.DamagedDirectory | disk/diskqueue.go:554-596 | a directory whose files before the write file hold anything at all, with nothing behind the write cursor, opens to what reading it yields |
| DiskQueueSpec.NewDirectory | disk/diskqueue.go:107-158 | an empty directory opens to the empty queue, its files as the queue writes them |
| DiskQueueSpec.CleanRestart | disk/diskqueue.go:162-203 | after a close the directory opens to the same records and depth, a record read ahead but not delivered included, and files as the queue wrote them stay so |
| DiskQueueLaws.PreparedSetsAside | disk/diskqueue.go:554-596 | from any files, just those from the reader on that cannot be read leave before a select, each goes to .bad with the contents it had, and .bad changes for no other number |
| DiskQueueLaws.ArmRemovesIff | disk/diskqueue.go:634-657 | a turn's event removes a file if and only if it is a delivery that read past it or found the reader behind the write cursor in it, or an Empty between the cursors; it changes no file but the one a put writes, and no .bad file |
| DiskQueueLaws.FilesGoOnlySo | disk/diskqueue.go:598-662 | over any run a file is gone without being set aside only by such a delivery or Empty |
| DiskQueueLaws.ArmCreates | disk/diskqueue.go:339-362 | a file comes to be only as the write file of a put |
| DiskQueueLaws.PreparedSyncs | disk/diskqueue.go:606-618 | before a select the metadata is persisted as the queue then is, if a sync was called for, syncEvery operations went unsynced, or a read failed, and otherwise left alone |
| DiskQueueLaws.UnsyncedStayFew | disk/diskqueue.go:606-648 | over any run no more than syncEvery operations go unsynced |
| DiskQueueLaws.ArmCounts | disk/diskqueue.go:634-657 | puts and deliveries count, a tick after one and a delivery that leaves a file call for a sync, a put that leaves one syncs |
| DiskQueueLaws.OpenedMeans | disk/diskqueue.go:430-453 | an opened queue has the cursors and depth of the metadata, or those of an empty file 0 |
| DiskQueueLaws.TailRepaired | disk/diskqueue.go:493-531 | a delivery past the write cursor of the write file leaves a queue that starts afresh in the next file, where what is put is found |
| DiskQueueLaws.EmptiedAfresh | disk/diskqueue.go:218-262 | an Empty leaves all cursors at the start of the file after the write file, and depth 0 |
| DiskQueueLaws.DeliveredMoves | disk/diskqueue.go:493-552 | any other delivery that does not pass the writer moves the reader to where reading got to, and lowers the depth by one, or at the tail to 0 |
| DiskQueueLaws.PutMoves | disk/diskqueue.go:339-407 | an accepted put of at most an int32 of bytes moves only the writer, by the record and its header, or to the next file if that passes the limit |
| DiskQueue.DiskQueue.ReadOne | disk/diskqueue.go:266-336 | reading goes through the buffer, and finds the record at the read cursor if the buffer agrees with the file; only the next-read cursor moves |
| DiskQueue.DiskQueue.WriteOne | disk/diskqueue.go:339-407 | the new state after a write, accepted or refused, the roll to a new file included |
| DiskQueue.DiskQueue.SkipToNextRWFile | disk/diskqueue.go:231-262 | all files between the cursors are removed and both start afresh behind them |
| DiskQueue.DiskQueue.CheckTailCorruption | disk/diskqueue.go:493-531 | the new state after the tail check |
| DiskQueue.DiskQueue.MoveForward | disk/diskqueue.go:533-552 | the new state after a delivery |
| DiskQueue.DiskQueue.HandleReadError | disk/diskqueue.go:554-596 | the new state after a read error: the bad file is set aside with its contents, and reading goes on with the next (told file by file in `DiskQueueLaws.PreparedSetsAside`) |
| DiskQueue.DiskQueue.Prepare | disk/diskqueue.go:606-641 | the top of the loop terminates and computes the specified state, open handles in step with the cursors |
| DiskQueue.DiskQueue.IoLoop | disk/diskqueue.go:598-662 | over any script, and for any file contents whose reading does not pass the writer, the loop answers as the first-in first-out queue does and ends holding what that queue holds; puts need a sound write file with nothing behind the write cursor, or an earlier Empty and no later files; files as the queue wrote them stay so, and none is set aside; its states are the turns that `DiskQueueLaws` speaks of |
| DiskQueue.DiskQueue.Close | disk/diskqueue.go:162-203 | what is left in the directory opens to what the queue held |
| DiskQueue.DiskQueue.RetrieveMetaData | disk/diskqueue.go:430-453 | opening restores cursors and depth |
| DiskQueue.Sessions | disk/diskqueue.go:107-203 | from an empty directory, a clean one, or one damaged before the write file, any number of open, run, close cycles behave like one run of one first-in first-out queue; from an empty or a clean one no file is ever set aside |
| DiskQueue.StaleQueueHolds | disk/diskqueue.go:343-357 | a queue can lack nothing that puts need but that nothing stands behind the write cursor |
| DiskQueue.StaleRecordIsDelivered | disk/diskqueue.go:266-336 | and then the loop's steps deliver the record that a put overwrote, and not the one that was put |
| Messages.WriteTo | nsqd/message.go:42-69 | appends exactly the encoding and reports its length |
| Messages.DecodeOfEncode | nsqd/message.go:71-93 | decoding an encoded message gives back timestamp, attempts, ID and body |
| Messages.EncodeOfDecode | nsqd/message.go:80-93 | exactly the buffers of at least 26 bytes decode, and each is the encoding of what it decodes to |
| Messages.EncodingMeans | nsqd/message.go:70-93 | where each field stands in the encoding, and that the numbers are big-endian |
| InFlightPqueue.InFlightPqueue.Push | nsqd/in_flight_pqueue.go:16-28 | adds the message, keeps heap order and indices, and doubles the capacity only when it is used up |
| InFlightPqueue.InFlightPqueue.Pop | nsqd/in_flight_pqueue.go:30-44 | removes a message with the least deadline, halving the capacity exactly when it exceeds 25 and less than half is used |
| InFlightPqueue.InFlightPqueue.Remove | nsqd/in_flight_pqueue.go:46-57 | removes the message at any index in use and keeps heap order and indices |
| InFlightPqueue.InFlightPqueue.PeekAndShift | nsqd/in_flight_pqueue.go:59-71 | takes out the first message if its deadline is at most the limit, otherwise tells the time left and changes nothing |
| InFlightPqueue.InFlightPqueue.Up | nsqd/in_flight_pqueue.go:73-82 | sifting up restores the heap and keeps the messages |
| InFlightPqueue.InFlightPqueue.Down | nsqd/in_flight_pqueue.go:84-100 | sifting down puts an element above its children and keeps the messages |
| HeapOrder.UpStep | nsqd/in_flight_pqueue.go:73-82 | one swap upwards keeps everything but the moved element in heap order |
| HeapOrder.DownStep | nsqd/in_flight_pqueue.go:84-100 | one swap downwards does |
| HeapOrder.RootIsMinimum | nsqd/in_flight_pqueue.go:30-44 | the first element of a heap is the least |
| DeferredPqueue.PriorityQueue.Push | internal/pqueue/pqueue.go:35-47 | pushing through the heap keeps order and indices, and doubles the capacity only when it is used up |
| DeferredPqueue.PriorityQueue.Remove | internal/pqueue/pqueue.go:49-61 | removing any index keeps order and indices, and halves the capacity exactly when it exceeds 25 and less than half is used |
| DeferredPqueue.PriorityQueue.PeekAndShift | internal/pqueue/pqueue.go:63-75 | takes out the first item if it is due, otherwise tells the time left |
| ChannelSpec.PutPlaces | nsqd/channel.go:309-325 | queueing a message the channel does not hold succeeds and adds just it |
| ChannelSpec.FinKeeps | nsqd/channel.go:358-373 | a message leaves only when the client that owns it finishes it; any other FIN changes nothing |
| ChannelSpec.ReqKeeps | nsqd/channel.go:376-398 | a requeue of an owned message moves it and keeps everything else; any other changes nothing |
| ChannelSpec.TouchKeeps | nsqd/channel.go:333-355 | touching moves only the deadline, to the timeout from now but never past the longest time in flight; owner, delivery time and all other messages stay |
| ChannelSpec.ScanIsExact | nsqd/channel.go:575-610 | a timeout scan requeues exactly the messages whose deadline passed, counts them, and leaves the rest in flight |
| ChannelSpec.ExpiredQueueInOrder | nsqd/channel.go:585-606 | they are queued earliest deadline first, in memory while there is room, and none is refused |
| ChannelSpec.DueScanIsExact | nsqd/channel.go:543-572 | the deferred scan queues exactly what is due, and leaves the rest |
| ChannelSpec.DueQueueInOrder | nsqd/channel.go:553-568 | what is due is queued earliest first, in memory while there is room, and none is refused |
| ChannelSpec.ShutdownKeepsAll | nsqd/channel.go:216-257 | after closing, the backend holds every message of memory, flight and deferral exactly once, unchanged |
| ChannelSpec.RequeueAfterClose | nsqd/channel.go:376-398 | a requeue after the channel closed leaves the message in the backend, whatever it answers |
| ChannelLaws.PutMessageMeans | nsqd/channel.go:295-325 | a put is refused only while exiting or when it fits neither memory nor the backend; otherwise the message is last in memory, or in the backend if memory is full, and only the count of messages changes besides |
| ChannelLaws.PutMessageDeferredMeans | nsqd/channel.go:327-330 | a deferred put records message and due time, queues nothing, and is counted |
| ChannelLaws.DeferralAnswers | nsqd/channel.go:450-459 | deferring fails exactly if the ID is deferred already |
| ChannelLaws.SendMeans | nsqd/protocol_v2.go:319-349 | a message sent has one attempt more, belongs to the client until now plus the timeout, and is on its count |
| ChannelLaws.DeliverMeans | nsqd/protocol_v2.go:311-349 | what the pump sends is the first message of memory, or of the backend, which leaves it |
| ChannelLaws.FlightAnswers | nsqd/channel.go:436-447 | going in flight fails exactly if the ID is in flight already |
| ChannelLaws.FinMeans | nsqd/channel.go:358-373 | FIN by the owner takes out just that message, by anyone else nothing, with the right error |
| ChannelLaws.TouchAnswers | nsqd/channel.go:333-355 | TOUCH fails exactly if the message is not in flight, or is not the client's, and tells which |
| ChannelLaws.DelayIsGranted | nsqd/protocol_v2.go:741-753 | a REQ delay is 0 if negative, the limit if above it, and otherwise as asked |
| ChannelLaws.ReqMeans | nsqd/channel.go:376-398 | REQ of an owned message with a delay defers it by that from now and queues nothing; without one it queues it last and defers nothing; by anyone else it changes nothing |
| ChannelLaws.ReqWhileExiting | nsqd/channel.go:380-393 | once closing began a delayed REQ is still deferred, one without a delay is refused and its message is gone |
| ChannelLaws.ExpireMeans | nsqd/channel.go:585-606 | a timeout takes the message out of flight and off its owner's count, is counted, and queues the message last |
| ChannelLaws.ReleaseMeans | nsqd/channel.go:553-568 | a message that is due is queued last and changes nothing but that and what is deferred |
| ChannelLaws.EmptiedMeans | nsqd/channel.go:192-212 | after an Empty nothing is held in any of the four places, the same clients are attached, and each has count 0 |
| ChannelLaws.ClosedMeans | nsqd/channel.go:156-190 | closing empties the memory queue and sets the flag, once; maps, clients and counters stay |
| ChannelLaws.HeldUntilDue | nsqd/channel.go:543-572 | over any run a deferred message stays deferred, and is nowhere else, until a scan at or after its due time |
| ChannelLaws.OwnedUntilAnswered | nsqd/channel.go:575-610 | over any run a message sent stays its client's, with its deadline, until that client answers it or a scan at or after the deadline |
| ChannelExit.CopiesAfterClose | nsqd/channel.go:156-257 | in every interleaving of closing and requeues the backend ends with one copy of a message for not being taken before the flush of what is in flight, and one for being queued again in time |
| ChannelExit.RequeueLost | nsqd/channel.go:376-398 | with a delay or without, a requeue that takes its message before closing and queues it after loses it |
| ChannelExit.RequeueDoubled | nsqd/channel.go:216-257 | a delayed requeue between the two flushes leaves its message twice |
| ChannelSpec.StepConserves | nsqd/channel.go:295-398 | every operation keeps each accepted, unfinished message in exactly one place, and every client's in-flight count exact |
| ChannelSpec.RunConserves | nsqd/channel.go:295-610 | so does every run |
| ChannelSpec.NewChannelConserves | nsqd/channel.go:75-118 | a new channel is conserved |
| ChannelRun.Execute | nsqd/channel.go:295-610 | each command, carried out on maps and heaps, is an enabled operation, with the state it leads to, and nothing is done only if there is nothing to do |
| ChannelRun.PublishMeans | nsqd/channel.go:295-330 | a publish queues its message last; with a delay it is deferred to its due time and not queued |
| ChannelRun.PumpMemoryMeans | nsqd/protocol_v2.go:335-349 | a pump command hands the first message in memory to the client until now plus the timeout, or does nothing if there is none |
| ChannelRun.PumpBackendMeans | nsqd/protocol_v2.go:311-334 | so does one for the backend |
| ChannelRun.FinishMeans | nsqd/protocol_v2.go:693-717 | a finish command takes out an owned message, and otherwise does nothing |
| ChannelRun.RequeueMeans | nsqd/protocol_v2.go:719-764 | a requeue command defers an owned message until now plus the delay, brought within the limit, or queues it last |
| ChannelRun.TouchMeans | nsqd/protocol_v2.go:947-972 | a touch command moves an owned message's deadline to the earlier of now plus the timeout and the longest time in flight |
| ChannelRun.ScanMeans | nsqd/channel.go:543-610 | a scan command leaves in flight, or deferred, exactly what is later than its time |
| ChannelRun.SubscribeMeans | nsqd/channel.go:401-417 | a subscription succeeds exactly while there is room, and attaches just the client |
| ChannelRun.UnsubscribeMeans | nsqd/channel.go:419-433 | the end of one detaches just the client |
| ChannelRun.Run | nsqd/channel.go:295-610 | a new channel carries out any script that uses no ID twice, command by command, as a run in which every state is conserved, with just what was published accepted |
| Channel.Channel.PutMessage | nsqd/channel.go:295-325 | the new state and outcome of a put, map and heap agreeing |
| Channel.Channel.WriteMessageToBackend | nsqd/message.go:95-102 | the backend's decoded contents grow by the message, or it refuses |
| Channel.Channel.PutMessageDeferred | nsqd/channel.go:327-330 | the new state of a deferred put, told in `ChannelLaws.PutMessageDeferredMeans` |
| Channel.Channel.StartInFlightTimeout | nsqd/channel.go:436-447 | the message is in map and heap with its owner and deadline, or was already |
| Channel.Channel.TakeOut | nsqd/channel.go:475-506 | only the owner takes a message out of map and heap |
| Channel.Channel.StartDeferredTimeout | nsqd/channel.go:450-459 | the message is in the deferred map and heap with its due time, or was already (`ChannelLaws.DeferralAnswers`) |
| Channel.Channel.Fin | nsqd/protocol_v2.go:693-717 | FIN: out of flight, and off the client's count |
| Channel.Channel.Req | nsqd/protocol_v2.go:719-764 | REQ: the delay is brought within the limit; out of flight, queued again or deferred, and off the client's count if that succeeded |
| Channel.Channel.TouchMessage | nsqd/channel.go:333-355 | TOUCH: the new deadline, in map and heap |
| Channel.Channel.SendMessage | nsqd/protocol_v2.go:319-349 | the pump's send: attempts, in flight, and on the client's count |
| Channel.Channel.ProcessInFlightQueue | nsqd/channel.go:575-610 | terminates and expires in deadline order exactly what is past its deadline |
| Channel.Channel.ProcessDeferredQueue | nsqd/channel.go:543-572 | terminates and queues in due order exactly what is due |
| Channel.Channel.AddClient | nsqd/channel.go:401-417 | attaches unless the limit on clients is reached, which is then never exceeded |
| Channel.Channel.Empty | nsqd/channel.go:192-212 | the new state after emptying, told in `ChannelLaws.EmptiedMeans` |
| Channel.Channel.Close | nsqd/channel.go:156-257 | memory, then flights, then deferrals are written to the backend, each once |
| FlowControl.InitialHolds | nsqd/client_v2.go:115-155 | a new client meets all that the invariants below start from |
| FlowControl.CountStaysBounded | nsqd/client_v2.go:317-366 | in every interleaving a client's in-flight count stays at most MaxRdyCount (what it asked for itself bounds it too: `FlowControl.CountWithinAsked`) |
| FlowControl.RdyIsAsked | nsqd/protocol_v2.go:656-691 | in every interleaving the ready count is the argument of the last accepted RDY, or 0 if there was none or a CLS since |
| FlowControl.CountWithinAsked | nsqd/client_v2.go:317-338 | so if no accepted RDY asked for more than k, no more than k messages are ever counted in flight |
| FlowControl.CountersTell | nsqd/client_v2.go:351-383 | in-flight count, messages in flight and pausing are what the steps taken add up to |
| FlowControl.AtMostOneAfterCls | nsqd/protocol_v2.go:656-691 | after an accepted CLS at most one more message is written, whatever follows |
| FlowControl.AtMostOneAfterClose | nsqd/client_v2.go:385-390 | and that one only if the pump already carried it when the ready count became 0 |
| FlowControl.NoLostWakeup | nsqd/client_v2.go:335-398 | if a value changed after the pump read it, a token is there or still to be posted |
| FlowControl.StaleDecisionEnds | nsqd/protocol_v2.go:239-282 | a stale not-ready decision is undone by at most five steps of one poster and the pump |
| FlowControl.StepBalances | nsqd/client_v2.go:351-383 | the count is what is in flight plus what is between the two halves of a change, unless a reset hits such a message |
| FlowControl.StepCovers | nsqd/client_v2.go:351-383 | a step keeps the count at least that if and only if it is no reset that comes too early |
| FlowControl.OwnedStaysBounded | nsqd/client_v2.go:357-383 | if no reset comes too early, a client never has more than MaxRdyCount messages in flight |
| FlowControl.ResetHarmlessIff | nsqd/client_v2.go:357-383 | for a subscribed client that is not about to close, a reset is followed only by states within MaxRdyCount, until the next reset, if and only if it does not come too early |
| FlowControl.EmptyRaceOvershoots | nsqd/channel.go:192-200 | for every limit a run in which one does, and a client gets one message more than its ready count |
| Guid.PackIsPacked | nsqd/guid.go:77-81 | shifting and or-ing the parts is their arithmetic sum, wrap-around included |
| Guid.Unpacks | nsqd/guid.go:19-28 | on valid ticks an ID unpacks to its tick, node and sequence |
| Guid.PackedInjective | nsqd/guid.go:77-81 | IDs are equal only if all three parts are |
| Guid.GuidFactory.NewGUID | nsqd/guid.go:50-86 | the new factory state and the ID or error |
| Guid.NextStaysConsistent | nsqd/guid.go:50-86 | a call at a later tick always succeeds; one at an earlier tick changes nothing |
| Guid.IDsIncrease | nsqd/guid.go:77-86 | whatever the clock does, the IDs a factory hands out strictly increase and carry its node |
| Guid.NodesNeverCollide | nsqd/guid.go:77-81 | factories on different nodes never hand out the same ID |
| Guid.ExactlyTheFirst4096Succeed | nsqd/guid.go:62-83 | of any number of calls in a new tick exactly the first 4096 succeed |
| Guid.HexOrder | nsqd/guid.go:89-104 | the hex text turns numeric order into lexicographic order |
| Guid.HexInjective | nsqd/guid.go:89-104 | different IDs have different texts |
| Guid.HexIsNumeral | nsqd/guid.go:89-104 | the text of an ID is its 16 hexadecimal digits, most significant first, in lower case |
| Mpub.Reader.ReadMPUB | nsqd/protocol_v2.go:974-1015 | a batch is read exactly if the input starts with one within the limits; its bodies are returned and just its bytes consumed |
| Mpub.BatchIsUnique | nsqd/protocol_v2.go:974-1015 | an input starts with at most one batch |
| Mpub.CountFits | nsqd/protocol_v2.go:980-985 | the limit on the count refuses no batch within the limit on its size |
| Mpub.CountLimitIsTight | nsqd/protocol_v2.go:980-985 | and it is the number of one-byte messages that fit into that limit |
| Mpub.RoundTrip | nsqd/protocol_v2.go:830-881 | what was serialised is read back, whatever size was declared, and what follows is left |
| Mpub.Reader.MPUB | nsqd/protocol_v2.go:849-868 | what an accepted command tells of its input: the declared size is in range, and unrelated to the batch; which error a refused one reports |
| Mpub.OversizeIsLegal | nsqd/protocol_v2.go:980-1012 | some batch over the limit on its size is accepted if and only if as many messages as the count allows, each as large as allowed, exceed that limit |
| RegistrySpec.RunConsistent | nsqlookupd/lookup_protocol_v1.go:73-262 | over every run: channel producers are topic producers, keys are ids, whoever is listed has an open connection, and who identified is listed |
| RegistrySpec.ClosedConsistent | nsqlookupd/lookup_protocol_v1.go:72-83 | after a disconnect the id is listed nowhere, and nobody else is affected |
| RegistrySpec.OrphanedOnlySo | nsqlookupd/lookup_protocol_v1.go:168-197 | a channel's topic stays registered, except exactly when the last producer of an ephemeral topic unregisters it |
| RegistrySpec.OrphanReached | nsqlookupd/lookup_protocol_v1.go:127-200 | from the empty registry one peer can come to do so, with any ephemeral topic and channel |
| RegistrySpec.DeletionStaysWithinTopicIff | nsqlookupd/http.go:153-177 | deleting a topic deletes exactly its own registrations if and only if its name is not the wildcard, or there is nothing to delete |
| RegistrySpec.DeletingWildcard | nsqlookupd/http.go:153-177 | deleting the topic "*" deletes every topic and channel |
| RegistryLaws.ValidNameIff | internal/protocol/names.go:7-24 | a name is valid if and only if it has at most 64 characters and is a non-empty text of the class, with or without the suffix #ephemeral |
| RegistryLaws.RegisterMeans | nsqlookupd/lookup_protocol_v1.go:127-151 | an accepted REGISTER lists just the peer, with its info if it was not listed, under the topic, and under the channel if one is named; every other entry stays; which requests are accepted |
| RegistryLaws.UnregisterMeans | nsqlookupd/lookup_protocol_v1.go:153-200 | an accepted UNREGISTER takes just the peer off the channel, or off the topic and all its channels, and removes the named registration if it is ephemeral and nobody else is on it |
| RegistryLaws.IdentifyMeans | nsqlookupd/lookup_protocol_v1.go:202-262 | IDENTIFY succeeds once, with every field given, and lists just the peer as a client |
| RegistryLaws.ClosedMeans | nsqlookupd/lookup_protocol_v1.go:72-83 | a disconnect takes just the peer off every list, and removes no registration |
| RegistryLaws.HandledMeans | nsqlookupd/lookup_protocol_v1.go:25-104 | a command closes the connection if and only if it is answered with an error |
| RegistryLaws.CreateTopicMeans | nsqlookupd/http.go:131-151 | creating a topic opens just it; which requests are refused |
| RegistryLaws.CreateChannelMeans | nsqlookupd/http.go:207-227 | creating a channel opens just it and its topic; which requests are refused |
| RegistryLaws.DeleteChannelMeans | nsqlookupd/http.go:229-251 | deleting a channel removes just it, if it is there |
| RegistryLaws.DeleteTopicMeans | nsqlookupd/http.go:153-177 | deleting a topic removes just its channels and itself, or with "*" all topics and channels |
| Registry.RegistrationDB.AddProducer | nsqlookupd/registration_db.go:73-87 | lists the producer unless its id is listed already |
| Registry.RegistrationDB.RemoveProducer | nsqlookupd/registration_db.go:90-105 | takes the producer off and keeps the registration |
| Registry.RegistrationDB.FindRegistrations | nsqlookupd/registration_db.go:118-136 | direct lookup and scan alike find exactly the matching registrations, each once |
| Registry.RegistrationDB.FindProducers | nsqlookupd/registration_db.go:138-161 | direct lookup and scan alike find one producer for each id listed under a match |
| Registry.RegistrationDB.LookupRegistrations | nsqlookupd/registration_db.go:163-173 | exactly the registrations that list the id |
| Registry.Nsqlookupd.IDENTIFY | nsqlookupd/lookup_protocol_v1.go:202-262 | the registry and the answer after IDENTIFY, told in `RegistryLaws.IdentifyMeans` |
| Registry.Nsqlookupd.REGISTER | nsqlookupd/lookup_protocol_v1.go:127-151 | the registry and the answer after REGISTER, told in `RegistryLaws.RegisterMeans` |
| Registry.Nsqlookupd.UNREGISTER | nsqlookupd/lookup_protocol_v1.go:153-200 | the registry and the answer after UNREGISTER, told in `RegistryLaws.UnregisterMeans` |
| Registry.Nsqlookupd.Handle | nsqlookupd/lookup_protocol_v1.go:25-104 | an error of a command ends its connection |
| Registry.Nsqlookupd.Close | nsqlookupd/lookup_protocol_v1.go:72-83 | the registry after a disconnect |
| Registry.Nsqlookupd.DoCreateTopic | nsqlookupd/http.go:131-151 | the registry after the request |
| Registry.Nsqlookupd.DoDeleteTopic | nsqlookupd/http.go:153-177 | the registry after the request, told in `RegistryLaws.DeleteTopicMeans` |
| Registry.Nsqlookupd.DoCreateChannel | nsqlookupd/http.go:207-227 | the registry after the request |
| Registry.Nsqlookupd.DoDeleteChannel | nsqlookupd/http.go:229-251 | the registry after the request, or that there was no such channel |
| Archiver.AllDurableAfterSync | apps/nsq_to_file/file_logger.go:233-249 | a sync makes durable whatever waits |
| Archiver.AllHeldAfterRotation | apps/nsq_to_file/file_logger.go:284-367 | after a rotation what waits is durable in the old file |
| Archiver.NewlyHeld | apps/nsq_to_file/file_logger.go:118-127 | body and newline written one after the other are the message's line |
| Archiver.FileLogger.Close | apps/nsq_to_file/file_logger.go:163-225 | when closing ends the process, and whether the closed file stays the logger's own |
| Archiver.FileLogger.UpdateFile | apps/nsq_to_file/file_logger.go:284-367 | rotation loses nothing that waits, and leaves one more file, with what it held before |
| Archiver.FileLogger.RotateIfNeeded | apps/nsq_to_file/file_logger.go:257-282 | a new file is opened if and only if there is none, the name or interval calls for it, or what the open one holds exceeds the limit on its size |
| Archiver.FileLogger.Turn | apps/nsq_to_file/file_logger.go:91-160 | every event keeps finished messages durable and accounted for, and nothing reaches the disk but by a sync; each message's line is added to the end of the open file, or of a new one if and only if it was time to rotate; a tick rotates, or closes the file, if and only if it is time; with a dangling file nothing more is acknowledged and its use is fatal, without one the process lives on unless a call fails |
| Archiver.FileLogger.Router | apps/nsq_to_file/file_logger.go:82-161 | over every event sequence: finished only when durable, at most once, all by a clean stop, and the buffer in range if it has room |
| Archiver.MessageAfterHup | apps/nsq_to_file/file_logger.go:194-206 | the message after a hangup ends the process if finished files are moved and the name was free, and, unless a call fails, only then |

## Left out

- Crashes: a disk queue is only ever opened on metadata a clean close left, with files possibly damaged since; stale or hand-edited metadata is not modelled, so the reader starts at or before the writer.
- DiskQueue.DiskQueue.IoLoop: puts into a write file that is damaged before the write cursor, or goes on behind it, are outside it unless an Empty comes first, and so are puts with files behind the write file; `DiskFormat.PutFoundIff` and `DiskQueue.StaleRecordIsDelivered` show what becomes of them.
- Faults of the file system below the disk queue: opens, writes, renames and syncs succeed, and a missing or short file is the only bad news.
- The disk queue's reader: one read of a file yields all that is there up to the size asked for, and the buffer has its default size of 4096 bytes.
- Overflow of file numbers and positions beyond 64 bits.
- Disk queues with a negative smallest message size, or a largest whose sum with the 4-byte header exceeds an int32.
- Put and Empty of a disk queue that is exiting, and Delete.
- Channel: each method is one atomic step. The timeout scan drops its lock between taking a message off the heap and off the map; what may happen there is not modelled.
- Messages in the memory queue and in the deferred heap are values; only a message in flight is an object, so identity of message objects across requeues is not captured.
- ChannelExit: TOUCH, FIN, the pump and the scans while the channel closes, and a backend that refuses what is flushed.
- ChannelSpec.RunConserves: excludes Empty and closing, message bodies the backend would refuse, and IDs used twice.
- Ephemeral channels' dummy backend, sampling in `Channel`, channel deletion, and pausing except in `FlowControl`.
- The topic layer: two disk queues of one name and a channel that is never created leave no conservation to state.
- FlowControl: clients that detach, and a ready-count limit changed while running.
- Guid: ticks outside the 2^41 after the epoch, where IDs wrap; `PackIsPacked` covers them, the results on order do not.
- Mpub: the IDs given to the messages, and the topic they go to.
- Registry: heartbeats, tombstones, filtering by activity, and the HTTP requests that only read. The lookup request calls a method that does not exist under that name.
- Archiver: file names, directories and the strftime format; which file is opened next and what it holds are inputs. What a failing system call leaves behind is not modelled, since the process exits.
- TLS, compression, authentication, statistics, quantiles, the admin interface, the other applications: plumbing around the above.
- The regular expression for names is modelled in `RegistrySpec.ValidName`; other string helpers would only add easy members.

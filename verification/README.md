# Gears common code: a verified model

This project models the state-carrying core of the Gears `common/` directory and proves what that
code is for. `dafny verify dfyconfig.toml` checks all of it.

| component | files |
|---|---|
| cross-process message queue: ring buffer, packets, queues, the step-by-step protocol with deaths and timeouts | `Ring`, `CircularBuffer`, `Wire`, `Channel`, `ChannelInvariant`, `ChannelWakeups`, `ChannelAccounts`, `ChannelTheorems`, `ChannelProgress`, `ChannelSending`, `Queues` |
| crash-repairable process registry with a revision-checked cache | `Registry`, `RegistryProtocol` |
| byte store: memory, spill to a file, asynchronous writers, snapshots | `MemoryBuffer`, `ByteStore`, `Blobs` |
| marshaling of JavaScript object graphs and its inverse | `JsMarshal`, `JsUnmarshal` |
| HTTP header store, printer and in-place parser | `CStrings`, `HttpHeaders`, `HttpNames`, `HttpText`, `HttpRoundTrip`, `HttpStatus`, `HttpParser` |
| versioned database file names | `DatabaseNames` |
| lock-free list | `AtomicList` |
| what several of them use | `Basics` |

How the pieces are modelled:

- **Message queue.** `Channel` is a state machine: one reader, any number of writers, one step per
  access to something shared (a load of the positions, one copied cell, a published position, an
  event, the mutex). A process may die at any step and an outbound queue may be dropped between
  waits. A failing source assert leads to a `Broken` state, so "asserts never fail" is a theorem
  about reachable states. `Queues` has the same code in its sequential form, as classes over the
  circular buffer class; `TurnMatchesSteps`, `EndMatchesSteps` and `ReadMatchesSteps` tie the two
  together. The header size H and the capacity C stay symbolic with 0 < H < C, integers in shared
  memory are sequentially consistent, and a serialized message is a non-empty byte string.
- **Registry.** `Open`, like a refresh in `GetAll`, takes the lock, repairs if needed and copies.
  Each operation is a plan of single stores. The class logs every store it makes, so that "die after
  any store" is a prefix of the log; `RegistryProtocol` interleaves many processes.
- **Byte store.** The file system, the writers and the readers do what they like: there is room for a
  temporary file or not; unless the disk is steady, a write may come up short or fail after writing
  something; a writer follows any script of chunks and of going asynchronous. A ghost counter of such
  troubles lets the contracts say that bytes are refused or lost only if the file system let the store
  down, and another one counts reallocations, after which pointers into the memory are void. `Truncate`
  and `Seek` succeed, and file reads are complete. The buffer limit is any block size, which covers both
  of the platforms' constants. `Blobs.Does` describes every command on a plain value, the `View` of a
  store; a run of the store is a sequence of such steps, one for each command.
- **Marshaling.** The engine's heap is a finite map from identities to nodes. Any conversion or read of
  a property, an element, the names or the length may fail, and so may any call made to restore a value.
  The order in which properties are visited is arbitrary.
- **Headers.** Characters are bytes; the number probe of the status line stays within the line.
- **Names.** SQL statements and the transaction are atomic steps on a sequence of rows, so any
  interleaving of clients is a sequence of steps. Any SQL call may fail; a ghost counter says whether
  one did.
- **List.** Threads interleave at loads, stores and compare-and-swaps; nodes are never freed.

Where the code falls short of what one might expect, the model follows the code:

- `GenerateHeaderString` advances the stored pointers (`common/http_utils.cc:321`), so the headers
  print once; `HttpParser.SecondPrinting` says exactly when a second text is the same.
- `StringToJsToken` gets a NUL-terminated pointer (`common/js_marshal.cc:248`) and only readable
  elements are set, so strings are cut at a NUL and unreadable elements at the end of an array
  vanish; `JsUnmarshal.RestoredIsSame` says exactly which trees survive.
- If an asynchronous writer is told to fill the write buffer and the file cannot be made
  (`common/byte_store.cc:175`), the store is `Stranded`. Finishing the add then fails the assertion that
  a size is not negative (`common/memory_buffer.cc:80`), or drops stored bytes and claims more than are
  held: `ByteStores.ByteStore.AddDataDirectFinishAsync` says which, for every n, and `Blobs.FinishUnder`
  exactly when a snapshot survives it. `Blobs.Strand` strands a store, `Blobs.FinishingCanFail` and
  `Blobs.SnapshotsCanLoseBytes` show both outcomes.
- `Reserve` does not look for a pending add (`common/byte_store.cc:382`). If it moves a store to a file
  with an add pending in memory, the reserved bytes go along and the store is not valid any more;
  `ByteStores.ByteStore.Reserve` says that this is exactly when, and `Blobs.Misplace` gives such a store.
- Pointers that `GetDataElement` hands out are to stay valid for the life of the store
  (`common/byte_store.cc:230`). But a buffer that is asked for exactly its capacity calls `realloc` again
  (`common/memory_buffer.cc:63`). `Blobs.ElementStays` proves that the memory goes on holding the bytes and
  is reallocated in a run iff one of the commands asks for all of it; `Blobs.ElementsCanMove` does so.
- A writer that dies between publishing a packet and signalling it leaves the reader asleep until
  somebody else signals. `ChannelTheorems.SleepingReaderMissesNothing` proves that a sleeping reader with
  no signal due misses something exactly in that case, and `ChannelTheorems.StrandingHappens` gives a run.
- `dismiss` passes its compare-and-swap arguments in the wrong order (`common/atomic_list.h:101`);
  `AtomicList.DismissDoesNothing` shows that it has no effect in any interleaving.
- A continuation line extends the last entry of the list, whichever entry the line before it changed
  (`common/http_utils.cc:669`); it is separated by a space if that entry has any value, even if the line
  before had none; and it is not cleaned of CR and LF. So a folded value is not always stored like the
  same value on one line: `HttpHeaders.FoldingIsUnfolding` has the exact condition, and
  `HttpHeaders.FoldingCanFail` the inputs that fail.

- A parser that records headers takes the line after a status line that was not accepted for a first line
  again (`common/http_utils.cc:803`); one that does not record goes on as after an accepted one. So the two
  may find different bodies: `HttpStatus.RecordingMatters` has the exact condition and
  `HttpStatus.RecordingCanMatter` a message.

## Model

| member | source | states |
|---|---|---|
| `ChannelTheorems.EndToEndDelivery` | common/ipc_message_queue_win32.cc:991-1238 | in every reachable state of every run, what was dispatched is byte for byte and in commit order a prefix of the committed messages; the rest is in the reader's hands or completed by the packets in the ring; an idle reader with an empty ring has dispatched everything committed |
| `ChannelTheorems.CommitsWereAccepted` | common/ipc_message_queue_win32.cc:928-1007 | every committed message was accepted from the process named as its source |
| `ChannelTheorems.CommitsAreInOrder` | common/ipc_message_queue_win32.cc:928-1007 | messages of one source are committed in the order of acceptance |
| `ChannelSending.AcceptedIsAsked` | common/ipc_message_queue_win32.cc:1319-1344 | over any run, what is accepted from a process is what it asked to be sent, with kind and body, in order |
| `ChannelSending.DispatchedWasAsked` | common/ipc_message_queue_win32.cc:928-1238 | from end to end: every dispatched message is one that the process named in it had asked to be sent, with its kind and all its bytes; no request is dispatched twice, and those of one process in the order of asking |
| `ChannelSending.AllThatWasAskedArrives` | common/ipc_message_queue_win32.cc:928-1238 | when all that was committed has been dispatched, a process with nothing pending and nothing failed has had dispatched exactly what it asked for, in order |
| `ChannelSending.AtRestAllHasArrived` | common/ipc_message_queue_win32.cc:1421-1541 | at rest, with the reader alive and nothing stranded, the same for every living process none of whose requests failed |
| `ChannelSending.ReportTellsAll` | common/ipc_message_queue_win32.cc:1470-1497 | a report on a healthy queue leaves nothing to be told: the successes told are the commits, the failures told all that failed, and every accepted entry is pending or told |
| `ChannelTheorems.AssertsNeverFail` | common/ipc_message_queue_win32.cc:1209-1226 | no assert of reader or writer fails in any run and the shared positions are never garbage |
| `ChannelTheorems.ReaderChecks` | common/ipc_message_queue_win32.cc:1169-1226 | which checks those are for the reader: exactly when a step of it fails an assert or finds garbage |
| `ChannelTheorems.WriterChecks` | common/ipc_message_queue_win32.cc:940-1065 | and for a writer and its report |
| `ChannelTheorems.ReaderAlwaysSignals` | common/ipc_message_queue_win32.cc:296-305 | the space event is set only if the reader's own view shows space, and after every look at the ring it does |
| `ChannelTheorems.TransactionsAreAtomic` | common/ipc_message_queue_win32.cc:291-414 | whatever overlaps, the bytes between shared head and tail change only by one whole packet taken off the front or one whole packet added by the mutex owner; a death in the middle of a copy changes nothing visible |
| `ChannelTheorems.OutboundQueueInvariant` | common/ipc_message_queue_win32.cc:969-1026 | between waits: pending is non-empty iff exactly one wait flag is set, waiting for space iff the mutex is held, and a message in progress is the front of pending |
| `ChannelTheorems.MutualExclusion` | common/ipc_message_queue_win32.cc:940-956 | two living writers never both hold the write mutex, be they in a round, parked between two packets, or just back from the wait |
| `ChannelTheorems.NoLostWakeup` | common/ipc_message_queue_win32.cc:296-305 | a writer waiting for space and a reader waiting for data never wait with both events unset |
| `ChannelTheorems.SleepingReaderMissesNothing` | common/ipc_message_queue_win32.cc:355-364 | for a waiting reader with its event unset and no living writer between publishing and signalling: there is something to read iff a writer died between publishing a packet, still unread, and signalling it, and nobody has signalled since |
| `ChannelTheorems.NoDeadlock` | common/ipc_message_queue_win32.cc:1133-1140 | while a living process has something pending and the reader lives, somebody can make a step |
| `ChannelTheorems.QuiescenceMeansDelivered` | common/ipc_message_queue_win32.cc:1421-1541 | when nothing can move and the reader lives: all living processes have sent everything, the ring is empty iff no packet was stranded, and everything committed has been dispatched iff what is left completes no message |
| `ChannelTheorems.StrandingHappens` | common/ipc_message_queue_win32.cc:355-364 | a process that sends one byte and is killed after publishing it leads to a state in which nothing can move and the committed message is never read |
| `ChannelProgress.ComesToRest` | common/ipc_message_queue_win32.cc:991-1238 | whatever the schedule, without new sends and deaths the reader and the writers make finitely many steps |
| `ChannelProgress.EverythingGetsThrough` | common/ipc_message_queue_win32.cc:991-1238 | from any reachable state with a living reader, under any such schedule: after finitely many steps all living processes have sent everything, and, unless a packet had been stranded before, everything committed has been dispatched |
| `ChannelWakeups.RunKeepsWake` | common/ipc_message_queue_win32.cc:296-364 | whole runs keep: a stranded packet is still in the ring when the reader goes to sleep, and an event that ended a wait stays set until it is reset |
| `ChannelTheorems.ExactlyOnePlace` | common/ipc_message_queue_win32.cc:1319-1344 | each accepted entry is in exactly one of pending, successful, failed, reported successful, reported failed; nothing else is in any of them |
| `ChannelTheorems.SuccessMeansCommitted` | common/ipc_message_queue_win32.cc:1470-1485 | an entry counts as successful, or was reported so, iff its last packet was published |
| `ChannelTheorems.FailedForever` | common/ipc_message_queue_win32.cc:1578-1586 | an entry counted as failed is not committed in any continuation of the run |
| `ChannelInvariant.InitialInv` | common/ipc_message_queue_win32.cc:1110-1126 | a freshly created queue, with any memory contents, satisfies the invariant |
| `ChannelInvariant.StepKeepsInv` | common/ipc_message_queue_win32.cc:940-1103 | every step of reader, writers, senders, deaths and timeouts keeps the invariant that ties cells, packets, queues, flags, events and the reader's assembly together |
| `ChannelInvariant.RunKeepsInv` | common/ipc_message_queue_win32.cc:1421-1557 | whole runs keep it |
| `ChannelAccounts.RunKeepsAccounts` | common/ipc_message_queue_win32.cc:1455-1497 | whole runs keep the accounts: accepted entries are, as a multiset, those in the five places, and successes are the commits in order |
| `Wire.DecodeInvertsEncode` | common/ipc_message_queue_win32.cc:1099-1101 | the cells of a packet read back as its header and its data |
| `Wire.NextPacketAdvances` | common/ipc_message_queue_win32.cc:1029-1093 | one packet takes the reader from the first bytes of a message to the next point, fits the ring, and completes the message iff it is the last |
| `Wire.ReassemblyInvertsFragmentation` | common/ipc_message_queue_win32.cc:1169-1238 | from whatever the reader held, a message cut into packets comes out once, byte for byte, with no assert failing and no packet larger than the ring |
| `Queues.IpcBuffer.Start` | common/ipc_message_queue_win32.cc:307-320 | a transaction starts with a view of exactly the visible bytes, and its position checks succeed |
| `Queues.OutboundQueue.AddMessageToQueue` | common/ipc_message_queue_win32.cc:928-930 | the message joins the end of pending, the queue starts waiting for the mutex unless it has it, and the queue's invariant is kept |
| `Queues.OutboundQueue.WriteOnePacket` | common/ipc_message_queue_win32.cc:1077-1103 | the packet, cut to the capacity if allowed, is appended whole or the ring is untouched; exactly when it fits; the reader is signalled if there is data |
| `Queues.OutboundQueue.WriteOneMessage` | common/ipc_message_queue_win32.cc:1029-1075 | the next packet of the front message goes out iff it may and fits, the message in progress is updated accordingly, and unless the message is complete nothing more of it fits or may be sent |
| `Queues.OutboundQueue.WritePendingMessages` | common/ipc_message_queue_win32.cc:991-1026 | for any reader that has taken everything before, the packets of a round make it dispatch exactly the messages counted as successful; the round ends only when nothing is left or the front packet does not fit or may not be sent in this round; the mutex is kept iff nothing went out whole, and then the reader was signalled; an empty ring means progress |
| `Queues.OutboundQueue.WaitComplete` | common/ipc_message_queue_win32.cc:940-956 | the same for a round that starts with the mutex or with space, with the event reset |
| `Queues.InboundQueue.ReadOnePacket` | common/ipc_message_queue_win32.cc:1195-1238 | one whole packet is taken off iff there is one, and is adopted as new start or as continuation |
| `Queues.InboundQueue.ReadOneMessage` | common/ipc_message_queue_win32.cc:1169-1193 | what the packets complete is the message returned followed by what the remaining packets complete |
| `Queues.InboundQueue.ReadAndDispatchMessages` | common/ipc_message_queue_win32.cc:1143-1166 | the ring is drained and every message its packets complete is dispatched, in order |
| `Queues.TurnMatchesSteps` | common/ipc_message_queue_win32.cc:997-1007 | a turn of the sequential loop takes the same decision, packet and bookkeeping as the step machine's transaction |
| `Queues.EndMatchesSteps` | common/ipc_message_queue_win32.cc:1009-1025 | the end of a round, parking or releasing, does to the queue what the step machine's last steps of a round do |
| `Queues.ReadMatchesSteps` | common/ipc_message_queue_win32.cc:1182-1235 | what is kept of a packet, the message it completes and the new head are what the step machine's reader makes of it |
| `Queues.Exchange` | common/ipc_message_queue_win32.cc:991-1166 | sender and receiver taking turns terminate with exactly the pending messages dispatched in order, for all message and ring sizes |
| `CircularBuffers.CircularBuffer.SetBuffer` | common/circular_buffer.h:45-51 | an empty buffer over the given memory |
| `CircularBuffers.CircularBuffer.SetHead` | common/circular_buffer.h:53-58 | accepts exactly the positions inside the block |
| `CircularBuffers.CircularBuffer.SetTail` | common/circular_buffer.h:60-65 | accepts exactly the positions inside the block |
| `CircularBuffers.CircularBuffer.IsEmpty` | common/circular_buffer.h:67-69 | true iff no element is held |
| `CircularBuffers.CircularBuffer.IsFull` | common/circular_buffer.h:71-73 | true iff capacity elements are held |
| `CircularBuffers.CircularBuffer.DataAvailable` | common/circular_buffer.h:75-80 | the number of elements held |
| `CircularBuffers.CircularBuffer.SpaceAvailable` | common/circular_buffer.h:82-84 | the number of elements that still fit |
| `CircularBuffers.CircularBuffer.ContiguousData` | common/circular_buffer.h:86-91 | all the data, or all up to the end of the block |
| `CircularBuffers.CircularBuffer.ContiguousSpace` | common/circular_buffer.h:93-104 | all the space, or all up to the end of the block |
| `CircularBuffers.CircularBuffer.AdvanceHead` | common/circular_buffer.h:114-119 | drops the first elements, at most those held |
| `CircularBuffers.CircularBuffer.AdvanceTail` | common/circular_buffer.h:121-126 | gains what the free cells held, at most what fits |
| `CircularBuffers.CircularBuffer.Read` | common/circular_buffer.h:132-150 | removes and returns the front elements, touches nothing else of the destination, at most two non-empty iterations |
| `CircularBuffers.CircularBuffer.Peek` | common/circular_buffer.h:156-161 | returns the same elements and leaves the state as it was |
| `CircularBuffers.CircularBuffer.Write` | common/circular_buffer.h:167-185 | appends the longest prefix that fits, overwrites free cells only, at most two non-empty iterations |
| `Registry.RepairIsSafe` | common/ipc_message_queue_win32.cc:600-621 | every store of a repair leaves a recoverable table with the same ids, and the last a sound one |
| `Registry.RemoveIsSafe` | common/ipc_message_queue_win32.cc:542-571 | every store of a removal leaves a recoverable table with the ids of before or after, and the last a sound one without the id |
| `Registry.AddIsSafe` | common/ipc_message_queue_win32.cc:503-523 | the same for an addition of an absent id, also when it replaces a dead process |
| `Registry.AddWorks` | common/ipc_message_queue_win32.cc:503-523 | the new id joins the set; in a full table it takes the place of one that is gone; it is not added exactly if the table is full and none is gone |
| `Registry.RepairWorks` | common/ipc_message_queue_win32.cc:600-621 | a repair of a recoverable table gives a table without holes and duplicates and with the same ids |
| `Registry.CrashIsRepaired` | common/ipc_message_queue_win32.cc:491-621 | after a death at any store, and any number of further deaths during repairs, the next repair gives a sound table with the ids of before or after |
| `Registry.FailedRepairsHarmNothing` | common/ipc_message_queue_win32.cc:612-618 | repairs cut off at any store keep the table recoverable and its ids |
| `Registry.IpcProcessRegistry.Repair` | common/ipc_message_queue_win32.cc:600-621 | makes exactly the stores of the repair plan, in order |
| `Registry.IpcProcessRegistry.Add` | common/ipc_message_queue_win32.cc:491-528 | makes the stores of the repair, if the lock was abandoned, and of the addition; succeeds iff there is a free slot or a dead process |
| `Registry.IpcProcessRegistry.Remove` | common/ipc_message_queue_win32.cc:531-572 | makes the stores of the repair, if needed, and of the removal; succeeds iff the id is there |
| `Registry.IpcProcessRegistry.GetAll` | common/ipc_message_queue_win32.cc:575-597 | the entries of the cache, refreshed from the repaired table exactly when the revisions differ |
| `RegistryProtocol.RunKeepsInv` | common/ipc_message_queue_win32.cc:455-621 | any interleaving of operations, single stores and deaths keeps the protocol's invariant |
| `RegistryProtocol.FastPathIsRight` | common/ipc_message_queue_win32.cc:575-597 | whenever a process finds its cached revision equal to the shared one, its cache is the shared table at that moment, and sound |
| `RegistryProtocol.SlowPathIsRight` | common/ipc_message_queue_win32.cc:581-590 | a refreshing process copies a sound table |
| `RegistryProtocol.UnlockedTableIsSound` | common/ipc_message_queue_win32.cc:498-501 | a free lock guards a sound table, an abandoned one a table that a repair makes sound |
| `RegistryProtocol.OperationsAreAtomic` | common/ipc_message_queue_win32.cc:491-572 | between any two steps the ids are those found when the lock was taken or those the operation leaves |
| `RegistryProtocol.OperationTakesEffect` | common/ipc_message_queue_win32.cc:491-621 | from taking the lock to letting go of it, whatever the others do and however the last holder died, an operation does to the set of ids exactly what it is to do, and leaves a sound table |
| `MemoryBuffers.BlocksAreFarApart` | common/memory_buffer.cc:63-68 | of two different block sizes one is at least twice the other |
| `MemoryBuffers.MemoryBuffer.Reserve` | common/memory_buffer.cc:63-76 | the capacity becomes the smallest block size that holds the request and is no smaller than before; the contents stay |
| `MemoryBuffers.MemoryBuffer.Resize` | common/memory_buffer.cc:79-83 | the size is set, the bytes below both sizes stay |
| `MemoryBuffers.MemoryBuffer.Append` | common/memory_buffer.cc:48-52 | the bytes are appended |
| `MemoryBuffers.MemoryBuffer.Swap` | common/memory_buffer.cc:86-90 | contents and capacities are exchanged |
| `ByteStores.ByteStore.AddData` | common/byte_store.cc:119-133 | the bytes are appended, or the stored bytes are unchanged even if the move to a file happened; it fails iff the file system let it down, and what fits in memory, or goes to a steady disk with room, always succeeds; every buffer's capacity stays zero or sixteen times a power of two within the limit |
| `ByteStores.ByteStore.AddDataDirect` | common/byte_store.cc:135-189 | all that the writer's script makes it hand over is appended in order, or all up to a chunk that could not be written; an add is pending iff the writer went asynchronous, for exactly what it was offered; the file system failed iff a chunk is lost or the store is stranded, which it is iff the writer was to fill the write buffer and there is no file |
| `ByteStores.ByteStore.AddDirectToMemory` | common/byte_store.cc:142-161 | in memory nothing the writer hands over is lost, and the reserved rest is trimmed or left to the asynchronous writer |
| `ByteStores.ByteStore.AddDirectToFile` | common/byte_store.cc:163-188 | through the write buffer, chunk by chunk, with the spill on the way |
| `ByteStores.ByteStore.AddDataDirectFinishAsync` | common/byte_store.cc:191-205 | for every state and every n up to what is pending: exactly when an assertion fails, and that nothing changes then; exactly what is visible and what length is claimed otherwise, in memory and in a file; the store is valid afterwards iff it was before, and a valid one gets the first n pending bytes, or none of them if the file write failed |
| `ByteStores.ByteStore.AddDataToFile` | common/byte_store.cc:215-249 | spill and append succeed together or leave the stored bytes as they were |
| `ByteStores.ByteStore.AppendToFile` | common/byte_store.cc:234-247 | a short write is rolled back, from read mode as well as from write mode |
| `ByteStores.ByteStore.Reserve` | common/byte_store.cc:382-394 | also with an add pending: the stored bytes are unchanged; the memory is reserved, or the store has moved to a file unless that failed; a valid store stays valid iff it did not move to a file with an add pending in memory, and a stranded one that moves becomes valid |
| `ByteStores.ByteStore.GetDataElement` | common/byte_store.cc:271-289 | also with an add pending: the bytes shown are all that is visible, in a block that has reached its final capacity, and nothing stored or pending changes; the block is reallocated iff it has not been shown before |
| `ByteStores.ByteStore.Finalize` | common/byte_store.cc:261-269 | also with an add pending: the stored bytes are unchanged and the write buffer's memory is released; a valid store stays valid iff no add was pending in a file |
| `ByteStores.ByteStore.ReadFromFile` | common/byte_store.cc:367-380 | the part of the file's bytes at the offset |
| `ByteStores.ByteStore.Read` | common/byte_store.cc:296-316 | in every state: the part of the visible bytes at the offset, -1 for negative arguments; nothing stored or pending changes |
| `ByteStores.ByteStore.ReadDirect` | common/byte_store.cc:318-364 | the concatenation of what the reader takes is what a read would return, unless the reader stops earlier |
| `Blobs.Blob.Read` | common/byte_store.cc:56-63 | what reading the snapshot's byte string returns, as long as the store still begins with it; in any state, the clamped read of what is visible |
| `Blobs.Blob.ReadDirect` | common/byte_store.cc:76-85 | the reader takes the snapshot's bytes only |
| `Blobs.ViewIsRight` | common/byte_store.cc:119-394 | the view shows what a reader of the store can see, what is pending, whether it is valid or stranded, and which finishes fail an assertion |
| `Blobs.Perform` | common/byte_store.cc:119-394 | what a command does to the view of any sound store, and what it answers, is a step as `Does` describes it: which bytes are stored, lost, pending and visible, whether the file system failed, and what readers get |
| `Blobs.Run` | common/byte_store.cc:119-394 | a run makes exactly one step for each command, in order, skipping exactly those that break an assertion at their start; it ends early exactly at a finish on a store that is not valid, and then the contract says what that leaves |
| `Blobs.RunsOnlyAdd` | common/byte_store.cc:119-205 | over any run what is stored is what was stored before, followed by what each command was to add and has added |
| `Blobs.ReadsSeeAllAdded` | common/byte_store.cc:296-316 | a read anywhere in a run answers for all that was added up to then, and with nothing pending for nothing else |
| `Blobs.GentleRunsComplete` | common/byte_store.cc:119-394 | on a steady disk with room, and if nothing is reserved beyond the limit, every run does all its commands and the file system never fails: no chunk is lost and no store breaks |
| `Blobs.IntactMeansReadable` | common/byte_store.cc:56-63 | a store begins with the snapshot iff every read through the blob returns what the snapshot's string would |
| `Blobs.SnapshotsLast` | common/byte_store.cc:43-63 | a snapshot outlasts a run iff the run does all its commands, or what its last finish leaves is no shorter than the snapshot |
| `Blobs.SnapshotIsStable` | common/byte_store.cc:43-63 | a blob made at any moment, also during an asynchronous add, is intact after a run under that same condition, and then reads the same before and after |
| `Blobs.FinishUnder` | common/byte_store.cc:191-205 | in every state: a finish keeps a snapshot iff an assertion fails, the store is in a file, or enough is left in memory |
| `Blobs.ElementStays` | common/byte_store.cc:229-233 | after an element is shown, the memory shown holds the stored bytes through every run that does no damage, also past a move to a file, and it is not reallocated iff no command asks for all of it |
| `Blobs.ElementsCanMove` | common/memory_buffer.cc:62-75 | a store that is filled up to its limit reallocates the memory that an element has shown |
| `Blobs.Strand` | common/byte_store.cc:173-178 | one byte, a full disk and a writer that goes asynchronous strand a store |
| `Blobs.SnapshotsCanLoseBytes` | common/byte_store.cc:191-205 | finishing the add of a stranded store leaves a snapshot of one byte that is not intact, and a store that shows nothing and claims sixteen bytes |
| `Blobs.FinishingCanFail` | common/byte_store.cc:198-199 | finishing it with no bytes fails the assertion about the size, and changes nothing |
| `Blobs.Misplace` | common/byte_store.cc:382-394 | one byte, an asynchronous add in memory and a reservation above the limit leave a store in a file that is not valid and whose add cannot be finished |
| `JsMarshal.Marshaler.CausesCycle` | common/js_marshal.cc:95-109 | true iff the object is on the stack, and then with the message about a cycle |
| `JsMarshal.Marshaler.Marshal` | common/js_marshal.cc:113-226 | terminates on every heap, with any engine failures, with the stack restored; returns the specified tree or nothing; a message is set iff the failure is to be blamed on what it names |
| `JsMarshal.Marshaler.InitializeFromObject` | common/js_marshal.cc:318-355 | the same for the properties of an object, in any order; one that cannot be read is a failure without a message |
| `JsMarshal.Marshaler.InitializeFromArray` | common/js_marshal.cc:358-391 | the same for the elements of an array, unreadable ones kept as gaps |
| `JsMarshal.MarshalIsUnfolding` | common/js_marshal.cc:113-226 | the result is t iff t is the tree unfolding of the value |
| `JsMarshal.UnfoldingIsUnique` | common/js_marshal.cc:113-226 | a value has at most one finite unfolding |
| `JsMarshal.MarshalDecidesAcyclicity` | common/js_marshal.cc:90-226 | a result is returned iff no walk through plain objects and arrays comes back to one of them and everything reachable is supported |
| `JsMarshal.BlameIsTrue` | common/js_marshal.cc:95-223 | a failure is blamed on something iff a walk from the value through objects and arrays, none met twice, comes to it: the cycle, the module, the function or the token that a message complains about, or, without a message, a failure of the engine |
| `JsUnmarshal.Engine.Unmarshal` | common/js_marshal.cc:229-315 | fails iff the engine does; existing objects are unchanged in any case; the value unfolds to the restored tree through fresh nodes, none of them met twice |
| `JsUnmarshal.Engine.UnmarshalObject` | common/js_marshal.cc:251-269 | the same for an object's properties, in any order |
| `JsUnmarshal.Engine.UnmarshalArray` | common/js_marshal.cc:270-291 | the same for an array's readable elements |
| `JsUnmarshal.RestoredIsSame` | common/js_marshal.cc:247-289 | the restored tree is the marshaled one iff no string holds a NUL and no array ends in an unreadable element |
| `JsUnmarshal.RestoredMeans` | common/js_marshal.cc:247-289 | what is lost on the way, and no more: a string from its first NUL on, and unreadable elements behind the last readable one |
| `JsUnmarshal.Transfer` | common/js_marshal.cc:80-315 | unless the receiving engine fails, a value arrives iff it has a finite unfolding, as a separate copy of it |
| `JsUnmarshal.CopyIsFaithful` | common/js_marshal.cc:229-315 | the copy unfolds to the original's tree iff that is transferable |
| `HttpHeaders.SetKeepsUnique` | common/http_utils.cc:428-474 | names stay unique ignoring case, but for the two multi-line ones |
| `HttpNames.SameNameMeans` | common/http_utils.cc:291-443 | names are the same iff they differ at most in the case of the letters A to Z |
| `HttpNames.SetUnderAnySpelling` | common/http_utils.cc:441-474 | a header set under one spelling is found under every other, with the values as if it had been set under that |
| `HttpNames.ComingAgain` | common/http_utils.cc:428-474 | of headers that come again, Set-Cookie and WWW-Authenticate are kept each time, and of all others the values are joined by a comma |
| `HttpNames.CleanMeans` | common/http_utils.cc:405-423 | each CR and LF in a value becomes an underscore, and nothing else changes |
| `HttpNames.HeaderLineSets` | common/http_utils.cc:672-695 | a line of key, spaces, colon, spaces and value sets the key to the value as the mode says, but changes no Host header that is there |
| `HttpNames.SecondHostIsIgnored` | common/http_utils.cc:684-689 | the second of two Host lines does nothing, whatever the mode and the spelling |
| `HttpNames.ContinuationExtends` | common/http_utils.cc:657-671 | a line that starts with a blank goes, without its blanks, to the end of the last value, after a space if that is not empty |
| `HttpHeaders.SetLookup` | common/http_utils.cc:441-474 | what is found first under the name afterwards is the new value, the old one or the comma combination as the mode and the kind of header say, and no other name is affected |
| `HttpHeaders.SetMultiLine` | common/http_utils.cc:428-436 | a multi-line header keeps all its values and gets the new one last, or keeps only the new one; all values of all other names stay |
| `HttpHeaders.NewHeaderComesLast` | common/http_utils.cc:477-490 | an added header comes last among those of its name, is not found first if there is one already, and leaves the values of all other names alone |
| `HttpHeaders.FoldingIsUnfolding` | common/http_utils.cc:651-671 | for every list without nulls, header line, mode and non-empty continuation: folded and on one line the value is stored alike iff it goes to the end of the list, in a new entry, in place of the last one's or, if not empty, merged into the last one, and the continuation holds no CR or LF |
| `HttpHeaders.FoldingCanFail` | common/http_utils.cc:658-669 | a merge into an earlier entry and a merge of an empty value are stored differently when folded |
| `HttpRoundTrip.PrintMeans` | common/http_utils.cc:331-352 | the text is, for each header in order, name, colon, space, value and CR LF, and then CR LF |
| `HttpRoundTrip.PrintThenParse` | common/http_utils.cc:319-352 | the text of a list without null values, followed by any body, parses to the same list with the body right after it iff lines can carry the list: keys without colon, NUL, CR LF pair, leading blank or trailing space, values without CR, LF, NUL or leading space, names unique but for the multi-line ones, no LF in the first key |
| `HttpRoundTrip.ParseIsShown` | common/http_utils.cc:651-832 | whatever the message, a parser that starts with an empty list, or with such entries, stores only entries that a line can show: the key has no colon, NUL, CR LF pair, leading blank or trailing space, the value no NUL, CR LF pair or leading space |
| `HttpStatus.LooksLikeStatusMeans` | common/http_utils.cc:785-798 | a first line without a colon is taken for a status line iff it is a protocol, a space, white space, perhaps a sign, digits, and the end or white space |
| `HttpStatus.ResponseIsRead` | common/http_utils.cc:573-630 | a message of such a line, headers that lines can carry and any body parses to that version, that code, that reason, those headers and that body iff the protocol is known and the code between 100 and 599; if not, code and reason stay as they are |
| `HttpStatus.NotAResponse` | common/http_utils.cc:805-809 | after a first line that has neither a colon nor that form, nothing is recorded and everything is the body |
| `HttpStatus.RecordingMatters` | common/http_utils.cc:776-832 | whether the headers are recorded makes no difference to where they end, unless the first line is a status line that is not accepted; then it makes none iff what follows goes well as a first line |
| `HttpStatus.RecordingCanMatter` | common/http_utils.cc:799-804 | a message for which it does |
| `HttpParser.HTTPHeaders.SetHeader` | common/http_utils.cc:399-475 | the list becomes `Set` of it, which `SetLookup`, `SetMultiLine`, `SetKeepsUnique`, `HttpNames.SetUnderAnySpelling`, `HttpNames.ComingAgain` and `HttpNames.CleanMeans` describe |
| `HttpParser.HTTPHeaders.GetHeader` | common/http_utils.cc:288-299 | the value of the first header of that name, in whatever case (`HttpNames.SameNameMeans`), or that there is none |
| `HttpParser.HTTPHeaders.GetHeaders` | common/http_utils.cc:307-317 | the values of all headers of that name, in order |
| `HttpParser.Concatenate` | common/http_utils.cc:513-524 | three padded copies into one block of memory leave exactly the three strings one after the other, NUL-terminated |
| `HttpParser.HTTPHeaders.ClearHeader` | common/http_utils.cc:538-550 | all entries of the name are gone, the others stay in order; the result tells whether there was one |
| `HttpParser.HTTPHeaders.SetHeaderFromLine` | common/http_utils.cc:651-698 | the header of the NUL-terminated line is set, and the input is as it was; also on lists with null values, unless a continuation line follows one |
| `HttpParser.HTTPHeaders.GenerateHeaderString` | common/http_utils.cc:331-352 | the text of the list, which is used up by it |
| `HttpParser.SecondPrinting` | common/http_utils.cc:319-326 | a second printing gives the same text iff every key and value was empty |
| `HttpParser.FindLineEnd` | common/http_utils.cc:735-746 | the first CR LF pair from the position on |
| `HttpParser.RecordLine` | common/http_utils.cc:812-827 | in place and through a copy the same header is recorded, and every byte is restored |
| `HttpParser.ParseHTTPHeaders` | common/http_utils.cc:718-832 | terminates; every byte is restored; body plus length is the end of the input; result and header list are those of the specification whichever mode is used; required is only that no continuation line follows a null value in the course of the parsing |
| `HttpText.LastValueIsSafe` | common/http_utils.cc:657-669 | that is the case for every message if the list is empty or its last header has a value |
| `HttpParser.SendHeaders` | common/http_utils.cc:331-832 | headers and a body, printed by one store and parsed by another in either mode: the parser reports success, the headers and the body arrive unchanged and no status is set, iff lines can carry the headers |
| `DatabaseNames.BasenameIsInjective` | common/database_name_table.cc:240-252 | no two names or versions share a file name, for all strings and versions |
| `DatabaseNames.DecimalMeans` | common/database_name_table.cc:240-252 | the version is written in decimal digits without leading zeros |
| `DatabaseNames.RunKeepsTable` | common/database_name_table.cc:206-364 | in every run each name's versions are 0, 1, 2 and so on, and only the last may be live |
| `DatabaseNames.VersionsAreContiguous` | common/database_name_table.cc:123-160 | the versions of a name are exactly 0 to k - 1 |
| `DatabaseNames.ConstraintsHold` | common/database_name_table.cc:36-46 | the schema's two uniqueness constraints hold in every run |
| `DatabaseNames.StepTouches` | common/database_name_table.cc:263-364 | which rows each statement touches and how: a deletion marks the rows of that origin and file, a corruption marks those of that origin, name and file, a deletion of all marks those of the origin; all else stays |
| `DatabaseNames.StepAdds` | common/database_name_table.cc:206-261 | only asking for a database that is not found adds a row, a live one with a version above all others of the name |
| `DatabaseNames.StepAnswers` | common/database_name_table.cc:65-364 | what every later lookup answers after each statement: the database that it retires or makes is affected, and all others answer as before |
| `DatabaseNames.GivenIsLive` | common/database_name_table.cc:65-118 | a client is given a live row's file name and never meets the ambiguous case |
| `DatabaseNames.NeverGivenAgain` | common/database_name_table.cc:206-364 | a file deleted or marked corrupt at any moment is given to no client at any later moment |
| `DatabaseNames.DeletingRetires` | common/database_name_table.cc:263-342 | marking corrupt, deleting and deleting all retire the file |
| `DatabaseNames.ClientsAgree` | common/database_name_table.cc:218-234 | until the file is retired, all clients asking for the database are given the same file |
| `DatabaseNames.DatabaseNameTable.BasenameHelper` | common/database_name_table.cc:65-118 | the one live row's file name, or that there is none; false iff several are live or a call failed |
| `DatabaseNames.DatabaseNameTable.NextVersionHelper` | common/database_name_table.cc:123-160 | one more than the highest version, or zero; false iff a call failed |
| `DatabaseNames.DatabaseNameTable.InsertHelper` | common/database_name_table.cc:165-204 | the row is added iff neither constraint is broken and no call failed |
| `DatabaseNames.DatabaseNameTable.GetDatabaseBasename` | common/database_name_table.cc:206-261 | finds a file unless an SQL call fails, whatever other clients do between the first look and the transaction; a failure leaves no trace |
| `DatabaseNames.DatabaseNameTable.Transact` | common/database_name_table.cc:223-260 | all of the transaction takes effect or nothing, wherever a call in it fails |
| `DatabaseNames.DatabaseNameTable.MarkDatabaseCorrupt` | common/database_name_table.cc:263-301 | the row is marked corrupt and deleted |
| `DatabaseNames.DatabaseNameTable.DeleteDatabase` | common/database_name_table.cc:303-324 | the row is marked deleted unless the call failed, also when the directory is not found |
| `DatabaseNames.DatabaseNameTable.DeleteDatabasesForOrigin` | common/database_name_table.cc:326-364 | with other clients in between and a failure of either step: the files to remove are retired, and unless a call failed they include those of all rows the origin had |
| `AtomicList.StepKeepsInv` | common/atomic_list.h:119-149 | every load, store and compare-and-swap of put and push_front keeps the invariant |
| `AtomicList.ListIsAcyclic` | common/atomic_list.h:141-149 | following the pointers never comes back to a node, and ends |
| `AtomicList.PutsStayReachable` | common/atomic_list.h:119-132 | every completed put of a real value stays reachable in the node it was given and with its value, in every continuation of the run |
| `AtomicList.EveryPutIsAccountedFor` | common/atomic_list.h:119-149 | of each value there are as many puts started as have returned and are in the history plus those underway |
| `AtomicList.EveryPutIsFound` | common/atomic_list.h:119-149 | whatever the interleaving, whoever follows the pointers meets each real value exactly as often as a put of it has returned |
| `AtomicList.NewNodesAreNeeded` | common/atomic_list.h:119-132 | a put makes a new node only if all nodes that were in the list when it began are full |
| `AtomicList.FirstEmptyIsTaken` | common/atomic_list.h:119-127 | a put that tries to claim a node has found all those before it full |
| `AtomicList.DismissalRuns` | common/atomic_list.h:98-102 | a dismissal reads the value, swaps, and leaves everything as it was |
| `AtomicList.PutsAndNodesCorrespond` | common/atomic_list.h:119-132 | no two completed puts of real values share a node, and every real value in the list was put |
| `AtomicList.DismissDoesNothing` | common/atomic_list.h:98-102 | a dismissal changes nothing in any interleaving |

## Left out

- Win32 kernel objects, mapping and naming: mutex, events, liveness and shared integers are abstract state; failure to open a view in `WriteOnePacket` or in the registry's `Open` is not modelled.
- The limit of 64 wait handles, wait timeouts by clock and `die_`: dropping a queue is allowed at any time between waits instead.
- A process that sends to itself runs reader and writer on one thread; the model lets them interleave, which allows more runs.
- 32-bit wrap-around of sequence numbers, revisions, lengths and positions: they are unbounded.
- `Serializer`, `Deserializer` and handlers: a message is an opaque non-empty byte string.
- Blobs.Run: what an asynchronous writer fills in once the store has moved to a file from under it, and what becomes of a store after an add on a store that was not valid was finished. A writer fills the block that is there; when `GetDataElement` and `Reserve` reallocate it is in their contracts, but not seen by the writer.
- The mutex of the byte store: its methods are atomic.
- Values beyond ASCII in `GenerateHeaderString`: the conversion to UTF-16 is the identity on ASCII and is not modelled otherwise.
- HttpHeaders.FoldingIsUnfolding: a continuation line of blanks only, which extends nothing.
- HttpParser.HTTPHeaders.AddNewHeader: the arena that keys and values are copied to.
- `SendToAll`'s walk over the registry and its removal of dead processes: sending is modelled per destination, as `SendWithCompletion` does it.
- Removal of database files: only the set of files to remove is modelled.
- JSON conversion, `GetParentDirectory`, version-collision detection, the thread message queue, Base64, encryption, bitmaps, DOM helpers, dispatchers, script runners, the exception handler and logging.

# Verified models of the network utilities

Dafny models of five parts of a Windows C toolkit, and proofs of what those parts are for. `dafny verify dfyconfig.toml`
checks the whole project.

**The bounded blocking queue** (`src/utils/queue/blocking_queue.c`) is modelled twice. `QueueProtocol` is a step
system: any number of producer and consumer threads, each with a program of calls, one lock, two condition
variables, a `stop` flag written outside the lock by `destroyQueue`. Every point at which another thread may act is
a program counter value, and steps interleave arbitrarily. `QueueSafety` proves what every run keeps, with
spurious and stolen wake-ups and with `stop` flipping at any moment. `QueueLiveness` bounds the length of every run and
says exactly how far a run gets that can go no further. `BlockingQueue` is the queue in memory, its nodes relinked in
place; a call that sleeps is given the critical sections that other threads run meanwhile. `QueueLinear` joins the two:
every run of the step system is, to the list, a sequence of such sections; and `QueueCalls` shows that each call of each
thread in a run does what the in-memory call does with the sections of its sleeps. Condition variables behave as
documented: falling asleep frees the lock in the same step, a wake-up picks any sleeper, a woken thread competes for
the lock.

**The checksum and the TCP reply** (`src/utils/net/pro_frame.c`, and `checksum` with the IP header part of
`src/utils/socket/example.c`). `Checksum` defines the ones' complement sum of RFC 1071 by end-around carries and proves
the program's 32-bit, two-fold computation against it. `ProFrame` fills the header objects and the scratch buffer
in place as the program does, for a little-endian machine with a 32-bit `long`, and proves that both checksums of every
emitted frame verify at a receiver (section 3.1 of RFC 791, section 3.1 of RFC 9293).

**The connection tables** (`src/utils/socket/myserver.c`). `ConnTables` describes the slots by value and proves
where every socket is at every moment; `SslServer` and `PlainServer` update the parallel arrays and the counter slot
by slot and are proved against it. The table has N slots. What `select`, `accept`, the handshakes and the reads report is
arbitrary.

**The adapter list** (`list_devs` in `src/utils/net/nets.c`). `DeviceList` has the sizing pass and the packing pass
over one shared buffer, whose cells are bytes or parts of stored numbers and pointers, and a reader that only follows
the pointers.

**The receive pipeline** (`src/utils/socket/myIocpServer.c`). `Pipeline` composes the completion thread, the
handler thread and the system's completions with the steps of the queue; `PipelineLiveness` proves that it delivers.

Some results are about what callers may not expect, each with the input and the exact condition:

- the static connection counter is not reset when `ServerThread` returns: a call treats all its callers fairly if and only if
  it finds the counter at 0 (`PlainServer.FairIff`), each "exit" uses up a slot for good, and one call can use up all
  (`PlainServer.OneCallCanFillTheCounter`);
- every buffer of a given length gets the right checksum if and only if the length is at most 131074 (`Checksum.LengthIff`);
- with no adapter accepted, and only then, the last store of `list_devs` falls outside its buffer (`DeviceList.ListDevs`);
- a failing port makes the completion thread free a client in use if and only if it holds one at that moment
  (`Pipeline.FreedInUseIff`, `PipelineLiveness.FreedInUse`).

## Model

| member | source | states |
|---|---|---|
| `QueueProtocol.Capacity` | src/utils/queue/blocking_queue.c:15 | a positive size is the capacity asked for, any other stands for the largest `int`; the capacity is at least 1 |
| `QueueSafety.LockStep` | src/utils/queue/blocking_queue.c:30-50 | every step keeps mutual exclusion: a thread is between taking and freeing the lock if and only if it owns it, the destroyer likewise |
| `QueueSafety.ThreadsStep` | src/utils/queue/blocking_queue.c:31-43 | every step keeps, for every thread and whatever the others do: at its link it has room, at its unlink there is a node, and past its loop test the same holds unless `stop` has been set; no thread returns early unless `stop` is set |
| `QueueSafety.ShutdownStep` | src/utils/queue/blocking_queue.c:81-84 | every step keeps: nobody is falling asleep once the destroyer has the lock, nobody sleeps on a condition after its wake-all |
| `QueueSafety.WakeupBalance` | src/utils/queue/blocking_queue.c:49-51 | while `stop` is clear and somebody sleeps, a step other than falling asleep raises the work open to the sleepers by no more than the wake-ups under way, or leaves no work |
| `QueueSafety.WakeupStep` | src/utils/queue/blocking_queue.c:31-51 | every step, spurious and stolen wake-ups included, keeps the no-lost-wake-up inequality of both conditions |
| `QueueSafety.InvStep` | src/utils/queue/blocking_queue.c:21-84 | every enabled step of any thread, of the destroyer, or a spurious wake-up keeps the whole invariant |
| `QueueSafety.ReachableInv` | src/utils/queue/blocking_queue.c:9-84 | the invariant holds after every run from a new queue |
| `QueueSafety.FifoConservation` | src/utils/queue/blocking_queue.c:66-73 | in every run the enqueued sequence equals the dequeued sequence followed by the list: nothing lost, duplicated or reordered; the capacity is never exceeded and no null node is dereferenced |
| `QueueSafety.ProgramOrder` | src/utils/queue/blocking_queue.c:43-49 | in every run each producer's items enter in its program's order with none skipped, each consumer is handed exactly the items it unlinked, and every call is pending, carried out or returned because of `stop` |
| `QueueSafety.NoWakeupIsLost` | src/utils/queue/blocking_queue.c:31-33 | in every reachable state with `stop` clear, if a thread sleeps then the items (or the free places) are at most the threads of the other role between changing the list and waking plus the woken threads of its own role that have not used their wake-up |
| `QueueSafety.NoMutualSleep` | src/utils/queue/blocking_queue.c:59-61 | no reachable state with `stop` clear and no wake-up under way has a sleeping producer and a sleeping consumer |
| `QueueSafety.ListStepIsSafe` | src/utils/queue/blocking_queue.c:59-67 | `enqueue` reaches its link with room and `dequeue` its unlink with a node in every interleaving, even if `stop` flips between the loop test and the second test |
| `QueueSafety.ShutdownIsComplete` | src/utils/queue/blocking_queue.c:81-84 | once `destroyQueue` has issued its wake-alls nobody sleeps, and in no continuation does anybody fall asleep again |
| `QueueLiveness.MeasureStep` | src/utils/queue/blocking_queue.c:30-51 | every step lowers the measure, except a spurious wake-up, which raises it by at most 3 |
| `QueueLiveness.RunIsBounded` | src/utils/queue/blocking_queue.c:21-84 | no run is longer than the measure of its first state plus 4 steps for each spurious wake-up in it |
| `QueueLiveness.CallsConserved` | src/utils/queue/blocking_queue.c:38-52 | over every run the calls carried out, bailed out of and still pending add up to the same number for each role |
| `QueueLiveness.QuiescentThread` | src/utils/queue/blocking_queue.c:30-51 | where nothing more can happen every thread sleeps or has returned from all its calls: nobody is stuck at the lock or at a wake-up |
| `QueueLiveness.QuiescentCounts` | src/utils/queue/blocking_queue.c:31-75 | where nothing more can happen, exactly min(puts, gets) items were dequeued and min(puts, gets + capacity) enqueued |
| `QueueLiveness.MaximalRun` | src/utils/queue/blocking_queue.c:30-77 | for any workload of an undestroyed queue every interleaving, spurious wake-ups and all, has at most the measure of its first state and 4 steps for each spurious wake-up; where it can go no further it has done as many calls as any schedule could, and all calls have returned if and only if gets <= puts <= gets + capacity |
| `QueueLiveness.SizeAskedFor` | src/utils/queue/blocking_queue.c:15 | what the size given to `createQueue` means to its users: in a maximal run of an undestroyed queue, min(puts, gets + size) items go in if the size is positive, and otherwise all of them, up to the largest `int` more than are taken out |
| `QueueLiveness.BalancedWorkloadFinishes` | src/utils/queue/blocking_queue.c:30-77 | with as many puts as gets every maximal interleaving, whatever wake-ups were spurious, ends with every call returned, the queue empty and every producer's whole program handed over in order |
| `QueueLiveness.ShutdownReturnsAll` | src/utils/queue/blocking_queue.c:80-84 | a run in which `destroyQueue` is called, as far as line 84 and the freeing of the lock, stops within the bound with every blocked or later call returned; the real lines 85-92 free the queue that the woken threads still have to lock, which is not modelled |
| `QueueLiveness.Completion` | src/utils/queue/blocking_queue.c:21-84 | from every reachable state some run without spurious wake-ups leads to a state where nothing more happens |
| `BlockingQueue.Queue.constructor` | src/utils/queue/blocking_queue.c:9-19 | a new queue is a well-formed empty list with `stop` clear, the size asked for as its capacity, or the largest `int` if that is not positive |
| `BlockingQueue.Queue.Link` | src/utils/queue/blocking_queue.c:43-49 | the node becomes the last of the list, the chain stays acyclic with `rear` last and `size` its length |
| `BlockingQueue.Queue.Unlink` | src/utils/queue/blocking_queue.c:66-73 | the first item is returned and the rest of the chain is the list, `front` and `rear` null together exactly when it is empty |
| `BlockingQueue.Enqueue` | src/utils/queue/blocking_queue.c:21-52 | the call waits exactly as long as the queue is full and not stopped; at the first moment that is over it appends its item, or nothing if stopped; a null queue does nothing; the list stays well-formed throughout (what others do is given as the sections of each sleep; `QueueCalls.WholeCall` shows every interleaving to be of that form) |
| `BlockingQueue.Dequeue` | src/utils/queue/blocking_queue.c:54-78 | the call waits exactly as long as the queue is empty and not stopped; then it takes and returns the first item, or nothing if stopped (the same) |
| `BlockingQueue.StopIsForever` | src/utils/queue/blocking_queue.c:59-65 | once `stop` is set it stays set and the list no longer changes |
| `QueueLinear.StepIsSections` | src/utils/queue/blocking_queue.c:38-50 | every step is to the list no section, one link or unlink, or one followed by `stop`, even when `stop` was written while the thread stood past its second test |
| `QueueLinear.ProtocolRefines` | src/utils/queue/blocking_queue.c:9-84 | after every run from a new queue the step system's list and `stop` are what the in-memory sections of that run leave |
| `QueueCalls.RecordRun` | src/utils/queue/blocking_queue.c:31-50 | from any moment of a call to its outcome: what the thread has done is what the in-memory call does with the recorded sections as its naps |
| `QueueCalls.WholeCall` | src/utils/queue/blocking_queue.c:21-78 | in every run from a new queue, every call of every thread, from taking the lock to its outcome (changed the list, saw `stop`, or still asleep), meets the specification of the in-memory `enqueue` or `dequeue`, the naps being the sections that the run has during its sleeps; only a `stop` written while the caller holds the lock is counted to the moment before its test |
| `Checksum.OnesLittleCanon` | src/utils/net/pro_frame.c:149-156 | adding with end-around carries gives the nonzero-preserving residue of the plain sum modulo 65535 |
| `Checksum.SwappedSum` | src/utils/net/pro_frame.c:115-124 | the machine-order sum of the word-wise exchanged buffer is the network-order sum of the buffer, odd last byte included |
| `Checksum.ByteOrderIndependence` | src/utils/net/pro_frame.c:144-162 | section 2(B) of RFC 1071: the sums in the two byte orders are byte swaps of each other for every buffer |
| `Checksum.ExactIff` | src/utils/net/pro_frame.c:146-161 | for every buffer of `int` length the computed checksum is the ones' complement checksum if and only if the plain sum fits 32 bits |
| `Checksum.ShortBuffersFit` | src/utils/net/pro_frame.c:146-152 | up to 131074 bytes it always fits |
| `Checksum.LengthIff` | src/utils/net/pro_frame.c:144-162 | for every `int` length: all buffers of that length get the right checksum if and only if it is at most 131074 |
| `Checksum.LongBufferFails` | src/utils/net/pro_frame.c:146-152 | at 131075 bytes some buffer gets a wrong checksum |
| `Checksum.InsertedChecksumVerifies` | src/utils/net/pro_frame.c:144-162 | the RFC 1071 checksum put into a zeroed aligned word makes the whole buffer's checksum zero |
| `Checksum.ReplacementDetected` | src/utils/net/pro_frame.c:144-162 | replacing one aligned word of a buffer that checks goes unnoticed if and only if the word is unchanged or goes between 0x0000 and 0xFFFF (and the latter only if the buffer does not become all zero) |
| `Checksum.LastByteDetected` | src/utils/net/pro_frame.c:154-156 | every change of the padded last byte of an odd buffer that checks is detected |
| `Checksum.ComputedVerifies` | src/utils/net/pro_frame.c:144-162 | the same as `InsertedChecksumVerifies` of the value the program computes, for every buffer whose sum fits 32 bits; the filled-in buffer then fits too |
| `Checksum.ComputedDetects` | src/utils/net/pro_frame.c:144-162 | the same as `ReplacementDetected` of the computed value, wherever neither sum overflows |
| `Checksum.ComputedLastByteDetected` | src/utils/net/pro_frame.c:154-156 | the same as `LastByteDetected` of the computed value, wherever neither sum overflows |
| `Checksum.CalChecksum` | src/utils/net/pro_frame.c:144-162 | the loop returns the folded complement of the 32-bit sum, and the RFC 1071 checksum whenever the sum fits; a negative length sums nothing |
| `Checksum.ExampleChecksum` | src/utils/socket/example.c:54-70 | the second file's routine gives the folded complement and, whenever the sum fits, the RFC 1071 checksum; unlike the first it sums the first byte when the size is negative |
| `ProFrame.FillPayload` | src/utils/net/pro_frame.c:115-124 | the loop lays out a payload of any length pair by pair exchanged, an odd last byte padded with zero |
| `ProFrame.FillTcpCheckBuffer` | src/utils/net/pro_frame.c:93-125 | the scratch buffer is the word-wise exchange of pseudo-header, TCP header as stored, and payload |
| `ProFrame.FillIpCheckBuf` | src/utils/net/pro_frame.c:127-142 | the scratch buffer is the word-wise exchange of the IP header as stored |
| `ProFrame.StoredChecksumVerifies` | src/utils/net/pro_frame.c:49-54 | the exchanged buffer's checksum stored through `htons` into the buffer's zeroed word makes the network-order sum 0xFFFF |
| `ProFrame.SwapEquivalence` | src/utils/net/pro_frame.c:52-54 | checksumming the exchanged buffer and storing through `htons` stores the same as checksumming the memory-order buffer and storing directly, on every buffer |
| `ProFrame.ReadRequest` | src/utils/net/pro_frame.c:23-39 | a capture that starts with the bytes 2, 0, 0, 0 has its IP packet at offset 4 and leaves these bytes before the reply's; any other has it at offset 14, and the reply's Ethernet header is its own with the two addresses exchanged; IP addresses and ports change places, the peer's acknowledgement becomes the sequence number |
| `ProFrame.MirrorBytes` | src/utils/net/pro_frame.c:32-38 | the loaded fields lie in the reply's bytes as they lay in the capture, exchanged |
| `ProFrame.CoveredBytes` | src/utils/net/pro_frame.c:93-125 | the bytes that the TCP checksum covers, written out: both addresses, a zero, protocol 6, the length of header and data, the header, the data |
| `ProFrame.StoreTcpChecksum` | src/utils/net/pro_frame.c:49-51 | the receiver's TCP sum is 0xFFFF for every payload of even or odd length |
| `ProFrame.StoreIpChecksum` | src/utils/net/pro_frame.c:52-54 | the receiver's IP header sum is 0xFFFF, and the stored field is the memory-order checksum |
| `ProFrame.StoreChecksums` | src/utils/net/pro_frame.c:41-54 | both sums hold together over one scratch buffer, with no other field changed |
| `ProFrame.TcpRepFrame` | src/utils/net/pro_frame.c:21-58 | for every capture and payload both sums that the receiver forms are 0xFFFF, over the bytes written out; the frame goes back where the capture came from, at the Ethernet, IP and TCP level and for both capture forms; it carries the right length, the fixed fields and the counted-on fields, and holds the payload with the bytes after it untouched |
| `ProFrame.ExampleIpChecksum` | src/utils/socket/example.c:173-177 | the other file's method stores the same field as `StoreIpChecksum` and its header verifies |
| `ConnTables.FullIff` | src/utils/socket/myserver.c:169-183 | all slots are in use if and only if the search finds no free one |
| `ConnTables.TurnUses` | src/utils/socket/myserver.c:163-257 | the counter of `SSLServerThread`, whatever it held at the call, never passes the capacity |
| `ConnTables.ArriveAccounts` | src/utils/socket/myserver.c:163-186 | an accepted socket is put into one slot or closed once, and no other socket is lost |
| `ConnTables.HandshakesAccount` | src/utils/socket/myserver.c:189-220 | the handshake pass keeps every socket in exactly one slot or closed exactly once |
| `ConnTables.ReadsAccount` | src/utils/socket/myserver.c:223-257 | the read pass does too |
| `ConnTables.ArriveAt` | src/utils/socket/myserver.c:163-186 | a connection that is let in takes the first free slot, and no other slot changes; one that is not is closed |
| `ConnTables.HandshakesAt` | src/utils/socket/myserver.c:189-220 | in the handshake pass a handshaking slot becomes established if its own handshake succeeded, free if it failed, and otherwise stays; no other slot changes |
| `ConnTables.HandshakesClose` | src/utils/socket/myserver.c:189-220 | the pass closes a socket if and only if its handshake failed |
| `ConnTables.ReadsAt` | src/utils/socket/myserver.c:223-257 | in the read pass an established slot is freed exactly when its own read is broken; no other slot changes |
| `ConnTables.ReadsClose` | src/utils/socket/myserver.c:223-257 | the pass closes a socket if and only if its read is broken |
| `ConnTables.TurnAt` | src/utils/socket/myserver.c:163-257 | the whole life of a slot in one turn, from its state and what its own handshake and read report |
| `ConnTables.ClosedIff` | src/utils/socket/myserver.c:149-258 | over every run a socket has been closed if and only if, in some turn before the first failing `accept`, it was refused, its handshake failed, or its read was broken once established |
| `ConnTables.EstablishedBySuccess` | src/utils/socket/myserver.c:149-258 | over every run no connection is established whose handshake did not succeed in some turn |
| `ConnTables.RunAccounts` | src/utils/socket/myserver.c:149-258 | over every run, from any accounted table and counter |
| `ConnTables.EverySocketAccounted` | src/utils/socket/myserver.c:130-258 | from an empty table, for every value an earlier call left in the static counter and every sequence of outcomes: a socket that arrived is in exactly one slot and open, or in none and closed exactly once; one that did not arrive is neither |
| `SslServer.Server.constructor` | src/utils/socket/myserver.c:135-139 | a new table is empty, its arrays agree, and the static counter is what the last call left |
| `SslServer.Server.Accept` | src/utils/socket/myserver.c:163-186 | the first free slot takes the socket as handshaking, or it is closed if the counter is at N; the arrays keep agreeing on what each slot is, and the counter on the slots in use beyond what it held at the call |
| `SslServer.Server.HandshakeSlot` | src/utils/socket/myserver.c:190-219 | a waiting slot keeps its socket and handle while the handshake is pending, is closed and cleared in all three arrays when it fails, and hands its handle over when it succeeds |
| `SslServer.Server.ReadSlot` | src/utils/socket/myserver.c:224-256 | an established slot is freed and its socket closed exactly on a failing read |
| `SslServer.Server.OneTurn` | src/utils/socket/myserver.c:150-258 | one turn of the loop is the turn that `ConnTables.TurnAt` describes; a failing `accept` changes nothing |
| `SslServer.Server.Serve` | src/utils/socket/myserver.c:149-258 | every run up to the first failing `accept` is the run of `ConnTables.ClosedIff` and `ConnTables.EverySocketAccounted` |
| `PlainServer.PlainTurnUses` | src/utils/socket/myserver.c:77-90 | the counter never passes the capacity, so an accepted socket below it always finds a slot |
| `PlainServer.PlainRunAccounts` | src/utils/socket/myserver.c:51-116 | over every run each accepted socket is in exactly one slot or closed exactly once |
| `PlainServer.ReceiveAt` | src/utils/socket/myserver.c:94-115 | the pass ends at the first "exit" of a connected client; up to there the slots of disconnected clients are freed, and no other slot changes |
| `PlainServer.ReceiveCloses` | src/utils/socket/myserver.c:94-115 | the pass closes a socket if and only if its client disconnected before the first "exit" |
| `PlainServer.PlainTurnAt` | src/utils/socket/myserver.c:71-115 | the life of a slot in one turn, and that the turn ends the call if and only if `accept` failed or a connected client said "exit" |
| `PlainServer.CloseAllCounts` | src/utils/socket/myserver.c:118-124 | the closing loop closes each socket once for each slot that holds it |
| `PlainServer.AllClosedOnce` | src/utils/socket/myserver.c:71-127 | by either exit, every accepted socket has then been closed exactly once and no other |
| `PlainServer.StaleCounterRefusesAll` | src/utils/socket/myserver.c:42 | a call that finds the static counter at the capacity closes every connection at once, with its table empty throughout |
| `PlainServer.FirstCallerAdmittedIff` | src/utils/socket/myserver.c:77-90 | a call that finds the counter at `base` lets its first caller in if and only if `base` is below the capacity |
| `PlainServer.FairIff` | src/utils/socket/myserver.c:42-90 | over all runs of a call: no connection is refused while a slot is free if and only if the call found the counter at 0 |
| `PlainServer.ExitLeavesOne` | src/utils/socket/myserver.c:107-112 | every call that ends by "exit" leaves a socket in its table, and so the counter higher than it found it |
| `PlainServer.ExitsUseUpSlots` | src/utils/socket/myserver.c:42-124 | over every sequence of calls the counter only rises, by at least one for each call that ended by "exit", and never passes N |
| `PlainServer.RefusesForGood` | src/utils/socket/myserver.c:42-124 | at most N calls can ever end by "exit"; once N have, every connection to every later call is closed at once |
| `PlainServer.OneCallCanFillTheCounter` | src/utils/socket/myserver.c:42-124 | with N = 2, two connections and one "exit" message leave the counter at 2, and from then on every connection is refused |
| `PlainServer.Server.Accept` | src/utils/socket/myserver.c:71-91 | the first free slot takes the socket, or it is closed if the counter is at N |
| `PlainServer.Server.ReceivePass` | src/utils/socket/myserver.c:94-115 | the loop frees the slots of disconnected peers and stops at the first "exit", later slots untouched |
| `PlainServer.Server.OneTurn` | src/utils/socket/myserver.c:51-116 | one turn of the loop is the specified turn, with both exits |
| `PlainServer.Server.CloseRest` | src/utils/socket/myserver.c:118-124 | the loop closes what is left in slot order |
| `PlainServer.Server.Run` | src/utils/socket/myserver.c:36-128 | a whole call is the specified run followed by the closing loop |
| `DeviceList.Sizing` | src/utils/net/nets.c:75-85 | the first pass computes the total size of the accepted adapters' records |
| `DeviceList.FilterPicks` | src/utils/net/nets.c:80-95 | the adapters packed are exactly those that have the type, are up and have IPv4, each once and in order |
| `DeviceList.MyCopy` | src/utils/net/nets.c:126-149 | copies the string with its terminator if it fits, else the bytes that fit (rounded up to a whole wide character), writes nothing else, and takes the count off what remains |
| `DeviceList.PackString` | src/utils/net/nets.c:101-103 | the string lies whole behind its pointer, nothing else changed |
| `DeviceList.FillRecord` | src/utils/net/nets.c:97-111 | the record and its three strings are laid out contiguously in exactly its size, with no write outside |
| `DeviceList.PackAll` | src/utils/net/nets.c:87-120 | the second loop ends at the last accepted record, filled and with all before it linked, exactly when the remaining count reaches 0; with nothing accepted it leaves the empty buffer alone |
| `DeviceList.RemainingStep` | src/utils/net/nets.c:94-120 | the remaining count stays the total size of the accepted adapters still to be packed |
| `DeviceList.ReadRecordBack` | src/utils/net/nets.c:97-111 | reading a laid-out record by its pointers gives the adapter's number and its three strings intact, and the link |
| `DeviceList.RecordFields` | src/utils/include/nets.h:4-10 | a packed record has the declared layout: number at 0, link at 8, the three pointers at 16, 24 and 32, to strings that follow it directly |
| `DeviceList.ListDevs` | src/utils/net/nets.c:70-124 | the buffer is exactly as large as what is packed; read back by the pointers, to the null one, it gives the number and the three strings of exactly those adapters that have the type, are up and have IPv4, in order; if and only if there is no such adapter the last store, at offset 8, is made into a buffer of no bytes |
| `DeviceList.ChainAt` | src/utils/net/nets.c:113-121 | record i lies where the sizes of those before it put it, and links to record i+1, the last to null |
| `DeviceList.PartsDisjoint` | src/utils/net/nets.c:97-111 | within each record its fields and its three strings do not overlap, and it lies within the buffer |
| `DeviceList.RegionsDisjoint` | src/utils/net/nets.c:97-117 | the regions of two records do not overlap |
| `Pipeline.CutAtNul` | src/utils/socket/myIocpServer.c:206 | the callback's length is that of the part before the first zero, all of it if there is none |
| `Pipeline.QueueStep` | src/utils/queue/blocking_queue.c:43-73 | a step of the shared queue moves one chunk from the caller to the list or from the list to the caller, or none |
| `Pipeline.PostOk` | src/utils/socket/myIocpServer.c:157-161 | the system's bytes land in a buffer that no unread completion refers to, so they are next in the order |
| `Pipeline.CopyOk` | src/utils/socket/myIocpServer.c:178-180 | the copy is the bytes received, the buffer being stable meanwhile |
| `Pipeline.CallEnqueueOk` | src/utils/socket/myIocpServer.c:181 | handing the copy to the queue keeps the order |
| `Pipeline.RearmOk` | src/utils/socket/myIocpServer.c:184-189 | arming the next receive, or failing to, keeps one receive a client and the order |
| `Pipeline.StepOk` | src/utils/socket/myIocpServer.c:146-210 | every event, failed receives and a failing port included, in every interleaving with the queue's own steps, keeps the pipeline invariant |
| `Pipeline.AtMostOneReceive` | src/utils/socket/myIocpServer.c:78-82 | in every run each client has at most one receive outstanding, completed or in work; one that is open has exactly one, so one with none has been closed |
| `Pipeline.EndedIff` | src/utils/socket/myIocpServer.c:155-196 | over every run the completion thread has ended if and only if the port, a re-arm, or a receive that it took from the port has failed |
| `Pipeline.FailureCloses` | src/utils/socket/myIocpServer.c:163-195 | a client that has closed its end, or whose receive or re-arm has failed, is closed with nothing outstanding for it |
| `Pipeline.FreedInUseIff` | src/utils/socket/myIocpServer.c:155-196 | in every run nothing refers to a client whose context has been freed, if and only if the port has not failed while `clientCtx` held a client |
| `PipelineLiveness.FreedInUse` | src/utils/socket/myIocpServer.c:185-196 | from every start such a failure can happen: a client sends one byte, its receive is armed again, the port fails, and the client is freed with the receive outstanding |
| `Pipeline.InOrderDelivery` | src/utils/socket/myIocpServer.c:177-209 | in every run the chunks received are those handed to the callback, the one on its way to it, those queued, the one on its way in, the one in hand, and those still in the buffers, in this order; the callback saw each cut at its first zero |
| `PipelineLiveness.RunPotential` | src/utils/socket/myIocpServer.c:146-210 | every step but those of the environment lowers a potential, so what the environment does bounds the length of every run |
| `PipelineLiveness.IdleDelivers` | src/utils/socket/myIocpServer.c:146-210 | when nothing more happens, what was received has all been handed to the callback, but for what a completion thread that has ended left in the buffers |
| `PipelineLiveness.EverythingDelivered` | src/utils/socket/myIocpServer.c:146-210 | every run has at most 23 steps beyond what connections, completions and spurious wake-ups account for; when nothing more happens in a run with no failing port, receive or re-arm, the callback has seen every chunk that the system's events brought, in order, cut at its first zero |
| `PipelineLiveness.Settles` | src/utils/socket/myIocpServer.c:146-210 | from every reachable state the pipeline can come to rest by itself |

## Left out

- QueueLiveness.ShutdownReturnsAll: stops at the wake-alls of line 84; the draining and freeing tail of `destroyQueue` (lines 85-93), which frees the queue before unlocking, is replaced by freeing the lock.
- Several queues at once, and `createQueue` while an older queue is in use: `stop` and `glimitSize` are shared globals.
- `malloc` failing in `createQueue` and `enqueue`. Line 17 initialises only `notEmpty`; both condition variables are taken as initialised.
- The length that `dequeue` could return: line 68 is commented out.
- What the identification, sequence and acknowledgement numbers mean to TCP: the additions in lines 32 and 39 of `pro_frame.c` act on network-order bytes, and the fields are stored as computed with no claim that a peer accepts them.
- ProFrame.TcpRepFrame: the capture's IP header has 20 bytes and the payload 0 to 4096; the capture reaches at least to its acknowledgement number.
- The TCP checksum scratch layout of `example.c` (lines 200-204), whose offsets count words, and its sending loop.
- `select` readiness in both servers: which sockets are ready is arbitrary. `accept` gives positive handles that are not reused, and `SSL_new` succeeds.
- SSL objects: a handle is named by its socket, and freeing it is not tracked (an established connection whose read fails never frees it).
- `SSLServerThread` closes no client when `accept` fails; the accounts then end with those sockets in their slots.
- `list_devs`: the bits of the type mask are an arbitrary property of an adapter, the total size stays below 2^31, pointers are offsets and alignment is not considered; `choose_dev`.
- DeviceList.ListDevs: with no adapter accepted the run ends at the store outside the buffer, with no claim about what that store does.
- `startIocpServer`: the handler starting before the queue exists, a first receive that fails to arm, and the teardown; one completion thread, as configured.
- A null `dataReceived`, and `socketWrite`. What becomes of a freed client's memory: the model only says whether it is still referred to.
- Capture, ARP, device menus, hooks, injection, JNI and GUI code: foreign calls and thin wrappers.

# Verified model of the AdbWide plumbing

AdbWide is a Windows port of the Android Debug Bridge. This project models, in Dafny, the parts of
it that everything else stands on, and proves what each part is for:

* **Sockets.** The packet queue and flow control of one local socket (`SocketEngine`), two local
  sockets joined as peers (`PairStream`), one stream between host and device over OPEN, READY, WRITE
  and CLOSE (`WireProtocol`, and its imperative side `SocketEndpoint`), the peer graph with its close
  cascade (`SocketGraph`), the smart socket that reassembles a client's request (`SmartSocket`), and
  the splitting of `host-serial:` requests (`HostSerial`).
* **The emulated socketpair and the wait fan-out of the Windows port.** The two-region circular
  buffer as a FIFO (`BipBuffers`), all interleavings of its reader, writer and lock-free closers
  (`BipConcurrency`), `_wait_for_all` (`WaitFanout`), the hook list with its free pool
  (`HookLooper`), and the in-place tokenizer (`Strtok`).
* **The fdevent loop over select()** (`FdEvents`).
* **The file sync protocol**, both ends: formats (`SyncMessages`), device service (`SyncService`),
  client and sessions (`SyncClient`), whole transfers (`SyncTransfers`), recursive listing
  (`SyncTree`).
* **The ZIP central directory reader** (`ZipDirectory`).
* **The conversion of an RSA key to Montgomery form** (`KeyConversion`).

Code that updates objects in place is modelled by classes and methods with loops, each tied to a
function on values; the laws are proved about those functions and about every run of the state
machines built from them. `Bytes` holds bytes, little-endian integers and C strings, `Lists` lists
without duplicates.

## How to read the model

* Nondeterminism of the environment (how many bytes a descriptor takes, what select() reports, which
  thread runs next, how the file system treats a SEND) is a parameter or an unconstrained choice, so
  every statement holds for all of it.
* A lock is modelled by atomic ownership, an event by a boolean, and each access to state that another
  thread may write at that moment by one step; accesses to fields that only the lock holder writes may
  share a step, since nobody can come between them. A `Run` is any finite sequence of such steps.
* The packet dispatcher that `WireProtocol` and `SocketEndpoint` follow is `handle_packet`, lines
  577-648 of `adb/adb.cpp`; the table cites the protocol description of the same messages.
* `WireProtocol`'s channels are the two directions of one transport, which delivers in order.
* Integers are unbounded except where the width matters; there the wrap-around is written out
  (`unhex`, `n0inv`, ZIP data offsets, 32-bit length fields).

## Where code and comments disagree

The model follows the code.

* `adb/fdevent.c:642-646` says that a pending fdevent must not signal events that are no longer
  wanted; the code clears the wanted ones. `FdEvents.SetKeepsUnwanted` proves exactly when the
  comment's promise holds, and `FdEvents.SetKeepsUnwantedExample` is a run of the loop in which an event
  is delivered against it.
* `adb/protocol.txt:163` says that the recipient of a CLOSE should not respond. The code responds with a
  CLOSE of its own, exactly when it finds the stream live; `WireProtocol.CloseAnswered` proves that, and
  that the answer changes nothing at the other end, and `WireProtocol.CloseAnsweredExample` is a run in
  which it happens.
* The sync client checks a path against 1024 bytes, but the mode travels in the same name:
  `SyncClient.SendUnderstoodIff` gives the exact limit and `SyncClient.LongNameExample` a path that
  passes the client and is refused by the service.
* A serial or command can defeat the splitting of `host-serial:serial:command`;
  `HostSerial.JoinSplits` says exactly when it does not, `HostSerial.ColonExample` and
  `HostSerial.PortExample` give inputs that do.
* A client packet can overflow the smart socket's buffer although it completes a valid request;
  `SmartSocket.Reassemble` says exactly when, `SmartSocket.OverflowExample` gives a case.

## Model

| member | source | states |
|---|---|---|
| BipBuffers.RoomAndData | adb/sysdeps_win32.cpp:817-842 | the source's room and data conditions hold iff the FIFO is not full, iff it is not empty |
| BipBuffers.WriteAppends | adb/sysdeps_win32.cpp:968-1003 | a write appends exactly min(len, free) bytes to the FIFO contents, at least one when there is room, and keeps the regions well formed |
| BipBuffers.ReadRemoves | adb/sysdeps_win32.cpp:1062-1095 | a read removes exactly min(len, size) bytes from the front, at least one when there is data |
| BipBuffers.BipBuffer.WriteLocked | adb/sysdeps_win32.cpp:968-1012 | the in-place copy into the byte array is the write on regions; flags and events follow it |
| BipBuffers.BipBuffer.ReadLocked | adb/sysdeps_win32.cpp:1062-1104 | the in-place copy out of the byte array is the read on regions; flags and events follow it |
| BipBuffers.BipBuffer.Write | adb/sysdeps_win32.cpp:933-1019 | as a FIFO operation: what is accepted is appended; on a full buffer it would block, or fail with EPIPE once the buffer is closed |
| BipBuffers.BipBuffer.Read | adb/sysdeps_win32.cpp:1022-1112 | as a FIFO operation: what is returned was the front; on an empty buffer it would block, or fail with EPIPE once the buffer is closed |
| BipBuffers.BipBuffer.Close | adb/sysdeps_win32.cpp:910-921 | the buffer is marked closed, keeps its contents, and the events of both sides are set where someone may wait |
| BipConcurrency.RunInv | adb/sysdeps_win32.cpp:893-1112 | every interleaving of writer, reader and any number of closers keeps mutual exclusion, truthful flags, events and the FIFO |
| BipConcurrency.NoLostWakeup | adb/sysdeps_win32.cpp:911-1059 | a parked thread whose condition holds, or that a completed close has passed, has its event set or the signal is the next thing the lock holder does |
| BipConcurrency.NeverBothBlocked | adb/sysdeps_win32.cpp:933-1112 | reader and writer are never both blocked |
| BipConcurrency.CloseReleasesBoth | adb/sysdeps_win32.cpp:911-921 | after a completed close no thread stays parked, although close takes no lock |
| BipConcurrency.DeliveredPrefix | adb/sysdeps_win32.cpp:933-1112 | delivered bytes are a prefix of the accepted ones; the rest, at most 4096, is buffered |
| BipConcurrency.AssertsHold | adb/sysdeps_win32.cpp:968-1104 | in every reachable state none of the four C asserts can fail: the copies move at least one byte, and a write that reaches region B finds room there |
| BipConcurrency.CallLaws | adb/sysdeps_win32.cpp:911-1112 | in every step of every run: the test under the lock goes by the contents alone, closed or not; a copy moves exactly the bytes that fit or are there; a call returns after a copy or, from a closed buffer, after a refusal or a wake-up |
| BipConcurrency.EpipeOnlyWhenRefused | adb/sysdeps_win32.cpp:945-964 | a call returns EPIPE only from a closed buffer that the same call found empty, or full for a write, under the lock |
| BipConcurrency.EventsPrecise | adb/sysdeps_win32.cpp:978-1012 | until the buffer is closed an event is set only while its condition holds or its reset is imminent |
| WaitFanout.SplitHandles | adb/sysdeps_win32.cpp:1556-1593 | the chunks of at most 63 partition the handles: every handle in exactly one chunk |
| WaitFanout.RunInv | adb/sysdeps_win32.cpp:1501-1626 | the invariant of the waiter threads, the shared cell and the shared event over every interleaving |
| WaitFanout.EventMeansIndex | adb/sysdeps_win32.cpp:1501-1527 | when no start and no wait has failed, a set main event implies that a valid index has been stored |
| WaitFanout.ReturnValue | adb/sysdeps_win32.cpp:1538-1626 | the returned index is in range and some waiter saw that handle signalled; failure exactly when nobody saw anything, and then a start or a wait has failed |
| WaitFanout.FirstReportWins | adb/sysdeps_win32.cpp:1515-1520 | a stored index never changes, and it is the one that is returned |
| WaitFanout.RunsAreFinite | adb/sysdeps_win32.cpp:1501-1626 | no run is longer than six steps a chunk and four states |
| WaitFanout.NeverStuck | adb/sysdeps_win32.cpp:1501-1626 | unless the caller and every started thread wait and the event is unset, some thread can move without any answer of the OS, until the call returns |
| WaitFanout.OnlySignalsRelease | adb/sysdeps_win32.cpp:1501-1626 | from that waiting state only an answer of the OS leads on, and it may name any of the handles |
| HookLooper.Looper.HookFd | adb/sysdeps_win32.cpp:1387-1431 | hooking adds the events to the descriptor's one hook or appends a new one; no allocated hook is lost |
| HookLooper.Looper.Unhook | adb/sysdeps_win32.cpp:1434-1452 | unhooking removes the events; a hook with none left goes to the free pool |
| HookLooper.Looper.Alloc | adb/sysdeps_win32.cpp:1322-1347 | a hook comes from the pool if it has one, and is then on neither chain |
| HookLooper.Looper.Release | adb/sysdeps_win32.cpp:1349-1357 | a hook moves from the list to the pool; the other hooks keep their order |
| HookLooper.UpdatedValue | adb/sysdeps_win32.cpp:1636-1671 | unhook and hook with the two mask differences leave exactly the new mask |
| HookLooper.EventTable.SetFd | adb/sysdeps_win32.cpp:1903-1939 | after a set the hooks are again exactly the non-empty masks of the active fdevents |
| HookLooper.EventTable.InstallFd | adb/sysdeps_win32.cpp:1872-1884 | an install adds an fdevent without a hook |
| HookLooper.EventTable.RemoveFd | adb/sysdeps_win32.cpp:1886-1901 | a remove takes the fdevent and its hook away |
| HookLooper.EventTable.Perform | adb/sysdeps_win32.cpp:1872-1939 | after any sequence of operations there is one hook per active fdevent with a non-empty mask, wanting that mask, no other hooks, and every hook on exactly one of the two chains |
| HookLooper.LastCounts | adb/sysdeps_win32.cpp:1872-1939 | the last operation on a descriptor decides its mask: none after an install, exactly the given one after a set, no fdevent after a remove |
| HookLooper.UntouchedStays | adb/sysdeps_win32.cpp:1872-1939 | operations on other descriptors leave a descriptor's mask alone |
| Strtok.StrtokR | adb/sysdeps_win32.cpp:2199-2245 | one call skips delimiters, returns the next run and its end, and overwrites only the delimiter behind it |
| Strtok.AllTokens | adb/sysdeps_win32.cpp:2199-2245 | iterating to NULL yields exactly the maximal runs of non-delimiters, in order; every token ends in a NUL and only delimiters were overwritten |
| Strtok.ScanFinds | adb/sysdeps_win32.cpp:2224-2243 | a found token is the next maximal run, whole, and nothing between was skipped |
| SocketEngine.DropBytesFlatten | adb/sockets.cpp:303-328 | advancing and freeing packets drops exactly the written bytes from the queued byte string |
| SocketEngine.DropBytesTwice | adb/sockets.cpp:303-328 | short writes compose: dropping n then m bytes is dropping n + m |
| SocketEngine.LocalSocket.Enqueue | adb/sockets.cpp:152-203 | a packet is written at once as far as the descriptor takes it and the rest is queued behind what was queued; READY, backlog or failure as the descriptor's last answer says |
| SocketEngine.LocalSocket.Drain | adb/sockets.cpp:300-328 | FDE_WRITE writes a prefix of the queued bytes and leaves the rest, for any short writes; it stops early exactly as the descriptor's last answer says |
| SocketEngine.LocalSocket.Fill | adb/sockets.cpp:348-371 | FDE_READ takes at most one payload; end of file is reported iff the last read said so |
| PairStream.StreamLaws | adb/sockets.cpp:152-211 | over every run of two local peers: bytes read are bytes written plus bytes queued, READ is wanted exactly while the peer has no backlog, at most one packet is queued, WRITE is wanted exactly with a backlog, and a drained socket has written everything |
| PairStream.EventMeaning | adb/sockets.cpp:291-407 | a pair goes down exactly at end of file or on a failed write, and the descriptors' histories grow by what was read and written |
| PairStream.RunInv | adb/sockets.cpp:249-407 | the invariant behind these laws, over every run including closes while draining |
| WireProtocol.NextInv | adb/protocol.txt:96-166 | every action at either end keeps the invariant of the stream |
| WireProtocol.RunInv | adb/protocol.txt:96-166 | the invariant in every reachable state |
| WireProtocol.FlowControl | adb/sockets.cpp:494-515 | one credit per direction between live ends: READ is wanted only when nothing is queued or under way, at most one packet is queued, and the stream cannot stall |
| WireProtocol.OneWritePerReady | adb/protocol.txt:145-149 | an end sends no more WRITEs than it has received READYs, and at most one CLOSE |
| WireProtocol.BytesConserved | adb/protocol.txt:136-143 | no byte is lost, invented or reordered: received equals accepted plus in flight |
| WireProtocol.GracefulClose | adb/sockets.cpp:249-289 | an end closed by its peer that is gone without an error has written every byte its peer read |
| WireProtocol.NothingDropped | adb/sockets.cpp:249-289 | whoever closes, an end that is gone without a descriptor error has written every byte that it had accepted at any time |
| WireProtocol.RunActions | adb/sockets.cpp:291-407 | in every run: an end goes down exactly at end of file, on a descriptor error or on a CLSE, and tells its peer; a WRITE adds exactly its bytes; nothing accepted is dropped without an error |
| WireProtocol.CloseAnswered | adb/protocol.txt:152-166 | in every run a CLOSE is answered with a CLOSE iff it finds a live end; it is the last message to that end, its sender is down, and the answer changes nothing there |
| WireProtocol.CloseAnsweredExample | adb/protocol.txt:163-166 | a run of six states in which a CLOSE is answered and the answer ignored |
| WireProtocol.ClosesReach | adb/sockets.cpp:249-289 | an end that is down has its peer down or a CLSE on the way to it; with nothing under way both ends are up or down together |
| SocketEndpoint.Endpoint.Close | adb/sockets.cpp:249-289 | closing sends one CLSE while live, then destroys or moves to the closing list |
| SocketEndpoint.Endpoint.OnWritable | adb/sockets.cpp:300-345 | the FDE_WRITE handler performs one write action of the protocol |
| SocketEndpoint.Endpoint.OnReadable | adb/sockets.cpp:348-407 | the FDE_READ handler performs one read action of the protocol |
| SocketEndpoint.Endpoint.HandlePacket | adb/protocol.txt:96-166 | handling a message performs one receive action of the protocol |
| SocketGraph.ClosePairEffect | adb/sockets.cpp:249-289 | closing a socket of a valid table closes exactly it and its peer, each freed once or left draining without a peer; peers stay symmetric; one CLSE with both ids for a remote peer |
| SocketGraph.CloseAllLaws | adb/sockets.cpp:134-150 | a socket stays on the list, in order and unchanged, iff neither it nor its peer is on the transport; every other one and its remote peer is freed or left draining without peer, id and READ interest; exactly one CLSE with both ids per closed socket with a remote peer |
| SocketGraph.SocketTable.LocalSocketCloseLocked | adb/sockets.cpp:249-289 | the recursive close terminates and computes that effect |
| SocketGraph.SocketTable.LocalSocketDestroy | adb/sockets.cpp:221-246 | a destroyed socket is off both lists and freed |
| SocketGraph.SocketTable.RemoteSocketShutdown | adb/sockets.cpp:517-528 | one CLSE with the peer's id, or 0, and the remote id |
| SocketGraph.SocketTable.RemoteSocketClose | adb/sockets.cpp:530-543 | a remote socket unlinks and closes its live peer first, then is freed |
| SocketGraph.SocketTable.CloseAllSockets | adb/sockets.cpp:134-150 | the loop over a list that its callees change terminates and is the recursive specification |
| SmartSocket.Unhex | adb/sockets.cpp:629-657 | the hexadecimal value mod 2^32, or all ones exactly when some byte is no digit |
| SmartSocket.PrintThenRead | adb/adb_client.cpp:188 | reading what the four-digit printer wrote gives the number back |
| SmartSocket.ReadThenPrint | adb/sockets.cpp:629-657 | only those digits, up to letter case, are read as that number |
| SmartSocket.Socket.Enqueue | adb/sockets.cpp:703-753 | a packet is buffered and the request decided on all bytes so far; overflow fails |
| SmartSocket.DecisionMeans | adb/sockets.cpp:732-753 | failure iff four bytes announce no length from 1 to 1024; dispatch of the string in the announced bytes iff they are all there; otherwise waiting |
| SmartSocket.RequestMeans | adb/adb_client.cpp:182-208 | the client writes a request exactly for names of 1 to 1024 bytes: the printed length and the name |
| SmartSocket.DecisionStands | adb/sockets.cpp:732-746 | more bytes never change a decision |
| SmartSocket.Reassemble | adb/sockets.cpp:703-753 | for every byte stream and every way to cut it, the outcome is that of the whole stream, unless a packet overflows the buffer, and exactly then it fails |
| SmartSocket.SmallPacketsFit | adb/sockets.cpp:717-722 | packets of at most 3069 bytes never overflow |
| SmartSocket.OverflowExample | adb/sockets.cpp:717-722 | an overflow that hits a complete request |
| SmartSocket.AnySplitDispatches | adb/adb_client.cpp:183-208 | a client's request, cut in any way, stays pending until its last byte and then dispatches exactly its service |
| HostSerial.SkipHostSerial | adb/sockets.cpp:659-701 | the end of the serial: next colon behind one of the four prefixes, else the first colon or the one behind a port number |
| HostSerial.Spelling | adb/sockets.cpp:659-668 | the prefixes spell the strings of the source |
| HostSerial.SerialEndUnique | adb/sockets.cpp:676-701 | that rule determines the position |
| HostSerial.JoinSplits | adb/sockets.cpp:676-701 | a joined serial and command come apart in the right place iff they are separable |
| HostSerial.ColonExample | adb/sockets.cpp:686-701 | the serial "a:b" is cut at its colon, whatever the command |
| HostSerial.PortExample | adb/sockets.cpp:691-700 | a plain serial loses the beginning of the command "5:x" |
| HostSerial.ParseRequest | adb/sockets.cpp:753-776 | the host prefixes select serial, transport kind and service |
| HostSerial.FormatThenParse | adb/commandline.cpp:384-397 | formatting then parsing returns serial and command iff they are separable; without a serial it always returns command and transport kind |
| HostSerial.RequestEndToEnd | adb/commandline.cpp:384-388 | the same from the command line through the framed, fragmented request to the parser |
| FdEvents.PendingList.Enqueue | adb/fdevent.c:474-482 | the node is appended to the circular doubly linked list |
| FdEvents.PendingList.Remove | adb/fdevent.c:484-490 | the node is unlinked and the rest stays in order |
| FdEvents.PendingList.Dequeue | adb/fdevent.c:492-505 | the first node is taken, or null exactly from the empty list |
| FdEvents.ApplyInv | adb/fdevent.c:593-695 | every operation keeps flags, list, table, fd_sets and history in agreement |
| FdEvents.RunInv | adb/fdevent.c:593-695 | that agreement in every reachable state |
| FdEvents.PendingExactly | adb/fdevent.c:404-423 | FDE_PENDING holds iff the node is on the pending list exactly once |
| FdEvents.RemovedNeverDispatched | adb/fdevent.c:611-626 | a removed fdevent is not dispatched before it is installed again |
| FdEvents.ReadyIsRegistered | adb/fdevent.c:260-303 | a bit of an fd_set is set iff the descriptor is registered and wants the event, and every such descriptor is below select_n and has its fdevent |
| FdEvents.ProcessEffect | adb/fdevent.c:365-424 | one round makes each registered fdevent pending with exactly the events reported for its descriptor, READ, WRITE and ERROR each from its own set, and changes no other bit and no other fdevent |
| FdEvents.ProcessIdle | adb/fdevent.c:404-424 | descriptors without a ready bit contribute nothing, so the early exit skips nothing |
| FdEvents.MaskAfter | adb/fdevent.c:628-664 | set replaces the mask, add adds and del removes exactly the given events, and other fdevents keep theirs |
| FdEvents.RemoveEffect | adb/fdevent.c:611-626 | a remove closes the descriptor unless FDE_DONT_CLOSE and leaves the fdevent inactive, unlisted and without events |
| FdEvents.DispatchEffect | adb/fdevent.c:492-515 | the fdevent pending longest is called with the events it was pending with |
| FdEvents.ForceEofEffect | adb/fdevent.c:551-571 | a forced end of file reaches the fdevent as READ, pending or at once |
| FdEvents.SetKeepsUnwanted | adb/fdevent.c:628-652 | the pending events after a set are exactly the unwanted ones; the comment's promise holds iff all pending events are still wanted |
| FdEvents.SetKeepsUnwantedExample | adb/fdevent.c:641-651 | a run from the empty loop in which a READ is delivered while only WRITE is wanted |
| FdEvents.FdLoop.Install | adb/fdevent.c:593-609 | installing is the value operation, with the aborts on bad descriptors |
| FdEvents.FdLoop.Register | adb/fdevent.c:428-454 | the table grows by doubling from 256 and gets the fdevent |
| FdEvents.FdLoop.Unregister | adb/fdevent.c:456-472 | the slot is cleared and the descriptor closed unless FDE_DONT_CLOSE |
| FdEvents.FdLoop.Disconnect | adb/fdevent.c:267-279 | the three bits are cleared and select_n becomes one above the highest registered descriptor seen |
| FdEvents.FdLoop.Remove | adb/fdevent.c:611-626 | removing is the value operation; the aborts of unregister are unreachable |
| FdEvents.FdLoop.Set | adb/fdevent.c:628-652 | setting a mask is the value operation |
| FdEvents.FdLoop.Add | adb/fdevent.c:654-658 | adding events is a set to the mask with them |
| FdEvents.FdLoop.Del | adb/fdevent.c:660-664 | removing events is a set to the mask without them |
| FdEvents.FdLoop.Dispatch | adb/fdevent.c:681-695 | the first pending fdevent is taken off with its events, which are cleared |
| FdEvents.FdLoop.FdCheck | adb/fdevent.c:305-321 | exactly the registered bad descriptors are reported |
| FdEvents.FdLoop.Scan | adb/fdevent.c:404-424 | the counting loop with early exit equals the full scan, and the missing-fde abort is unreachable |
| FdEvents.FdLoop.Process | adb/fdevent.c:365-424 | every outcome of select(), with the same effect bit by bit; the bad-descriptor path reports READ on exactly the registered bad descriptors |
| SyncMessages.ChunksRoundTrip | adb/file_sync_service.c:212-232 | any chunking of a transfer is read back and the reader stops exactly at its end |
| SyncMessages.BadChunkRefused | adb/file_sync_service.c:218-230 | an oversize chunk or an unknown header ends a transfer |
| SyncMessages.ModeRoundTrip | adb/file_sync_service.c:328-341 | the printed mode survives strtoul with base detection |
| SyncMessages.NameRoundTrip | adb/file_sync_client.cpp:363-395 | the service recovers every path, commas included, and mode & 0777 |
| SyncMessages.DefaultMode | adb/file_sync_service.c:328-343 | a name without a comma, or without a usable number behind the last one, gets mode 0644 |
| SyncService.Service.DoStat | adb/file_sync_service.c:78-96 | the reply holds mode, size and time, zero when there is no file |
| SyncService.Service.DoList | adb/file_sync_service.c:98-150 | one DENT per entry with a name of at most 256 bytes, then the end marker |
| SyncService.ListedHas | adb/file_sync_service.c:119-124 | exactly the entries with names of at most 256 bytes are listed |
| SyncService.Service.DoRecv | adb/file_sync_service.c:381-419 | the reply is some chunking of the file and DONE, or FAIL |
| SyncService.Service.HandleSendFile | adb/file_sync_service.c:174-266 | success iff the data stream is complete; then the stream is at the next request and the disk is as the file system's fate says, also when the destination never opened; otherwise only the file at the path is gone |
| SyncService.Service.DoSend | adb/file_sync_service.c:321-378 | the name is cut at its last comma and the file handled accordingly |
| SyncService.SpreadMeans | adb/file_sync_service.c:364-366 | the group also gets the owner's permissions and others also get the group's |
| SyncService.OverwriteMeans | adb/file_sync_service.c:189-192 | a file that is not truncated keeps what lies behind the new data |
| SyncService.SendWithoutMode | adb/file_sync_service.c:340-344 | a SEND without a usable mode writes over the old file, and removes it when a write fails |
| SyncService.Service.FileSyncService | adb/file_sync_service.c:421-476 | the served requests are exactly the parse of the stream, with right replies in order and the right disk, however the session ends; what is written last, and what a broken SEND leaves |
| SyncService.Service.ServeNext | adb/file_sync_service.c:428-474 | one turn serves the first request of the stream and leaves the stream right behind it |
| SyncClient.OpRoundTrip | adb/file_sync_service.c:421-476 | one client operation in front of any stream is served as meant, and the service continues right behind it |
| SyncClient.SessionRoundTrip | adb/file_sync_client.cpp:104-114 | any sequence of operations and QUIT is served as meant, with any chunking |
| SyncClient.SendUnderstoodIff | adb/file_sync_client.cpp:363-395 | a SEND is understood iff path, comma and mode have at most 1024 bytes |
| SyncClient.LongNameExample | adb/file_sync_client.cpp:373-377 | a path that the client accepts and the service refuses |
| SyncClient.StatTranscript | adb/file_sync_service.c:78-96 | a transcript of STATs leaves the disk alone and answers path by path |
| SyncTransfers.Client.WriteDataBuffer | adb/file_sync_client.cpp:308-336 | the chunks are legal and concatenate to the buffer |
| SyncTransfers.Client.WriteDataFile | adb/file_sync_client.cpp:249-306 | the same for any sizes that the file system returns |
| SyncTransfers.Client.SyncSend | adb/file_sync_client.cpp:363-472 | request, chunks and DONE with the mtime go out; refused exactly for long paths and irregular files |
| SyncTransfers.Client.SendStatus | adb/file_sync_client.cpp:474-495 | success exactly on OKAY |
| SyncTransfers.Client.ReceiveFile | adb/file_sync_client.cpp:542-640 | the file is the concatenation of the chunks, when the stream is complete |
| SyncTransfers.Client.FinishReadtime | adb/file_sync_client.cpp:206-222 | the stat of one reply |
| SyncTransfers.Push | adb/file_sync_client.cpp:363-501 | success iff the destination opens and takes every byte; then the device holds the file with content, permission bits and mtime; otherwise no other file changed and none is left at the path |
| SyncTransfers.Pull | adb/file_sync_client.cpp:542-640 | the client gets exactly the file's content, or nothing |
| SyncTransfers.PushThenPull | adb/file_sync_client.cpp:363-640 | a pushed file comes back unchanged |
| SyncTransfers.PushThenStat | adb/file_sync_service.c:78-96 | STAT of a pushed file gives a regular file with its permissions, size and time; of a failed push all zeros |
| SyncTransfers.Connection.Exchange | adb/file_sync_service.c:421-457 | one request and one turn of the service on an open connection: the right reply arrives and nothing else is left under way |
| SyncTransfers.StatPipelined | adb/file_sync_client.cpp:938-955 | all requests first, then all replies: the i-th result is the stat of the i-th path |
| SyncTransfers.StatSequential | adb/file_sync_client.cpp:190-222 | one request at a time on one connection, each waiting for its reply: the i-th result is the stat of the i-th path |
| SyncTransfers.StatBothWays | adb/file_sync_client.cpp:938-955 | pipelined and sequential STAT return the same sequence |
| SyncTree.DentsRoundTrip | adb/file_sync_client.cpp:116-153 | what `do_list` sends, `sync_ls` reads back entry by entry |
| SyncTree.SyncLs | adb/file_sync_client.cpp:116-153 | against the service on an open connection: the listed entries, failing exactly on a path above 1024 bytes |
| SyncTree.SortEntries | adb/file_sync_client.cpp:1051-1082 | each file and each directory other than "." and ".." is put in front of its list |
| SyncTree.FilesSplit | adb/file_sync_client.cpp:1084-1112 | files found now and files below the directories visited later are all files, each once |
| SyncTree.FilesRelate | adb/file_sync_client.cpp:1051-1082 | every collected file has one relative name on both sides |
| SyncTree.FilesComplete | adb/file_sync_client.cpp:1070-1078 | every regular file and link that the walk can reach is collected, with its time, mode and size |
| SyncTree.FilesSound | adb/file_sync_client.cpp:1058-1078 | nothing else is collected |
| SyncTree.FitsExactly | adb/file_sync_client.cpp:116-124 | the walk succeeds iff every directory it reaches has a path of at most 1024 bytes |
| SyncTree.FilesOnce | adb/file_sync_client.cpp:1084-1112 | no source is collected twice when names are distinct and slash-free in each directory |
| SyncTree.RemoteBuildList | adb/file_sync_client.cpp:1084-1112 | on every tree, over one connection, it terminates; it succeeds iff no directory of the walk has a path above 1024 bytes, and then it has added a copy of every regular file and link that lies below directories other than "." and "..", with its time, mode and size and source and destination under the same relative name, and nothing else; with distinct slash-free names no source twice |
| ZipDirectory.FindEocd | adb/centraldir.cpp:199-216 | the backward search returns the last signature of the searched part, or nothing |
| ZipDirectory.SearchFindsEnd | adb/centraldir.cpp:199-216 | on an archive it returns the true end record iff no signature follows |
| ZipDirectory.WithoutP | adb/centraldir.cpp:166-179 | a check for writers under which no later signature exists |
| ZipDirectory.EmptyArchive | adb/centraldir.cpp:193-216 | an archive without members meets the reader's conditions |
| ZipDirectory.HeaderRead | adb/centraldir.cpp:95-115 | the fields are read at the offsets where APPNOTE.TXT section 4.3.12 puts them |
| ZipDirectory.LocalRead | adb/centraldir.cpp:145-152 | the local extra length, not the central one, places the data |
| ZipDirectory.EntryFrom | adb/centraldir.cpp:63-160 | one entry is read as written and the reader stands at the next one |
| ZipDirectory.DirectoryRoundTrip | adb/centraldir.cpp:218-250 | every archive's directory is read back: members in reverse order with names, sizes, methods and data positions |
| ZipDirectory.Zipfile.ReadValues | adb/centraldir.cpp:33-61 | the end record's fields, and rejection of a truncated record or comment |
| ZipDirectory.Zipfile.ReadEntries | adb/centraldir.cpp:231-248 | the loop with prepending is the recursive walk |
| ZipDirectory.Zipfile.ReadCentralDir | adb/centraldir.cpp:180-253 | the directory at the last signature, with all rejections |
| ZipDirectory.ReadArchive | adb/centraldir.cpp:180-253 | reading any well-formed archive without a later signature succeeds and describes every member |
| KeyConversion.PublicKey.FromRsa | adb/adb_auth_host.cpp:63-108 | refused exactly unless the modulus has 256 bytes; otherwise words, rr, n0inv, length and exponent are the conversion, and an exponent below 2^31 is kept |
| KeyConversion.PublicKey.Extract | adb/adb_auth_host.cpp:90-95 | the division loop's words are the successive remainders of n and rr |
| KeyConversion.IntOfWord | adb/adb_auth_host.cpp:96 | a word stored in an int is the same number modulo 2^32 |
| KeyConversion.WordsOfSmall | adb/adb_auth_host.cpp:90-95 | those words stand for exactly the number, when it is below 2^(32k) |
| KeyConversion.ValueInjective | include/mincrypt/rsa.h:40-46 | an array of words stands for one number only |
| KeyConversion.InvertibleIffOdd | adb/adb_auth_host.cpp:85-86 | exactly the odd numbers have an inverse modulo 2^32 |
| KeyConversion.N0InvCorrect | adb/adb_auth_host.cpp:85-89 | n * n0inv is -1 modulo 2^32 iff n is odd |
| KeyConversion.ReductionDivides | include/mincrypt/rsa.h:40-46 | t + ((t * n0inv) mod 2^32) * n is divisible by 2^32 for every t |
| KeyConversion.RedcSteps | include/mincrypt/rsa.h:40-46 | k reduction steps divide by 2^(32k) modulo n, exactly |
| KeyConversion.RedcBound | include/mincrypt/rsa.h:40-46 | the reduced value is below 2n |
| KeyConversion.EntersMontgomeryForm | adb/adb_auth_host.cpp:82-84 | the Montgomery product with rr is multiplication by 2^2048 modulo n |
| KeyConversion.LeavesMontgomeryForm | include/mincrypt/rsa.h:40-46 | the reduction takes that factor out again |
| KeyConversion.KeyWorks | adb/adb_auth_host.cpp:63-108 | all of this for the fields of a converted key with an odd modulus |

## Left out

- Transports, USB back ends, connection and authentication packets, and the demultiplexing of several streams by id: `WireProtocol` follows one stream, whose ids never change.
- Registration of sockets and id allocation (`install_local_socket`, `find_local_socket`): they would only add easy members.
- jdwp, tracker and smart sockets in `close_all_sockets`: `SocketGraph` holds local and remote sockets only.
- The write-error branch inside `local_socket_enqueue` of two local peers: `PairStream` leaves it out; `SocketEngine` and `WireProtocol` have it.
- Event delivery is assumed to happen only while the event is wanted; the code does not ensure it, as `FdEvents.SetKeepsUnwantedExample` shows.
- SocketEngine.LocalSocket.Drain: the number of EINTR results in one call is finite.
- SocketEngine.LocalSocket.Fill: the same bound on EINTR results.
- FdEvents.FdLoop.Install: one fdevent per descriptor, as every caller has it, and FD_SETSIZE is not modelled.
- FdEvents.FdLoop.Register: the memset of a grown table clears all new slots, which holds with pointers of `int` size.
- The subprocess descriptor of `fdevent_subproc_event_func` beyond its effect on one fdevent, and the epoll variant of the loop.
- HookLooper.Looper.HookFd: descriptors are open; the early return on an invalid one is left out.
- HookLooper.EventTable.SetFd: the pending events of the Win32 twin, whose list code is that of `FdEvents`.
- HookLooper.EventTable.InstallFd: the table growth and the aborts of the Win32 twin, as in `FdEvents`.
- HookLooper.EventTable.RemoveFd: the pending list and the closing of the descriptor in the Win32 twin, as in `FdEvents`.
- SocketEndpoint.Endpoint.HandlePacket: ids and the transport's online state.
- SocketGraph.SocketTable.LocalSocketDestroy: the disposal of queued packets and `exit_on_close`.
- What event_hook_signal and the wait loop of the Win32 looper deliver, and the start, check and peek callbacks of hooks.
- SmartSocket.Socket.Enqueue: what follows the dispatch (host requests, "transport" and the bytes it drops, connecting to the remote) is not part of this model.
- HostSerial.FormatThenParse: the buffer size of `snprintf` is not modelled; requests above 1024 bytes are refused later anyway.
- SyncService.Service.HandleSendFile: parent directories, ownership, SELinux labels and the additional FAIL replies of those calls are left out, and so are symbolic links (the service without HAVE_SYMLINKS).
- SyncService.Service.DoSend: `fs_config` ownership and modes for paths on the system partition, and symbolic links.
- SyncService.Service.DoRecv: a file that fails in the middle of being read.
- SyncMessages.NameRoundTrip: modes are printed as non-negative numbers; a mode of 2^31 or more does not occur.
- SyncTransfers.Push: read errors on the local file, whose results the client ignores.
- SyncTransfers.Client.WriteDataFile: a local open or read error, which ends the loop silently.
- SyncTransfers.Client.SyncSend: the sanity check of an APK and its refusals.
- SyncTransfers.Client.ReceiveFile: failures to create or write the local file, and the result 0 that `sync_recv` returns after a FAIL.
- `local_build_list`, progress output and local directory creation.
- SyncTree.RemoteBuildList: the tree does not change during the walk; entries other than files, links and directories are ignored as in the source.
- ZipDirectory.Zipfile.ReadCentralDir: a read outside the buffer is only reported as `Wild`; what the C code does then is undefined. Lookup by name and inflation are left out.
- KeyConversion.PublicKey.FromRsa: OpenSSL's big numbers are mathematical integers and its modular inverse is characterised, not implemented as there.
- Command line handling, fork/exec services, console and character set conversion: input, output or library calls.

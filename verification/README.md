# Model of the packet daemon, message queue, video buffers and pixel code

Dafny models of six components and proofs of what they promise. Each module says
which component it models.

- **Packet receiver of the PQ daemon** (`Framer`, `PqServer`, `Reconnect`): an
  incremental parser over a fixed buffer, proved to agree with a one-shot parse of
  the whole stream under every chunking.
- **PQ settings** (`PqStore`, `PqList`, `PqFile`, `PqCore`, `PqData`), **lists and command
  queue** (`IntrusiveList`, `CmdQueue`, `CmdQueueProtocol`): a grouped list on circular
  links as a keyed map, its file, the replay after a restart, and the queue between the daemon's two
  threads.
- **Message queue** (`MessageQueue`, `MessageQueueProtocol`): a pool of chained nodes
  as a bounded FIFO, and the semaphore and mutex under every interleaving.
- **Stream buffer of the video decoder** (`StreamRing`, `VideoStream`,
  `CostTimeList`): parts of frames filled into a ring, written back from the cache
  and handed on.
- **Pixel layouts** (`Raster`, `Detile`, `Mb32`, `Mb32Planar`, `Samples`,
  `Interleave`, `Rotation`, `Picture`, `PixelLayout`, `PixelBytes`, `PixelConvert`,
  `TileConvert`, `RotatePicture`, `VideoPicture`) and **rotation in NEON** (`NeonTranspose`,
  `YuvRotate`, `NeonTiles`, `NeonRotate`, `NeonRotate270`): tiles to lines,
  conversions and turns, with every picture read through format-independent luma and
  chroma samples, and the vector code compared with the scalar loops.
- **ION allocator** (`IonLedger`, `IonAlloc`): the buffers of a process, a ledger of
  kernel resources and the address translations.

`dafny verify dfyconfig.toml` checks everything.

Code that changes state is modelled by classes and methods on arrays and fields, each
proved against a specification on values; what the source promises is proved about
that specification. Where a function stands in both, laws beside it say in numbers and
fields what it comes to: wire and file formats, layouts, kinds of settings, addresses. Answers of the kernel, of read(), of malloc and of the stream
buffer manager are parameters. Machine words are little-endian.

## Where the code departs from the obvious claim

- The command queue adds and removes at the head: it serves the newest request first
  (`CmdQueueProtocol.InOrderIffNeverTwo`; `CmdQueueProtocol.NewestFirst` is a run).
- Loading the settings file reverses the list (`PqData.PqData.FromFile`,
  `PqFile.TwoStoreLoadCycles`).
- A header with a size field of 0 makes the receiver loop for ever: a read returns if
  the one-shot parse of the bytes so far does not end at such a header
  (`PqServer.Server.FrameAll`), and never returns if it does
  (`PqServer.Server.SpinOnRead`). Sizes from 1 to 9 are handled by the code and covered.
- A client dropped on an epoll error leaves its unframed bytes to the next one, which
  is served what it sends exactly when they hold no start of a header
  (`Reconnect.NextClientUnharmedIff`, `Reconnect.MisserveNextClient`).
- A getter past the semaphore need not find a message once there are flushes. It does
  in every run whose flushes end while no thread is between its mutex and its semaphore
  (`MessageQueueProtocol.GetterFindsAMessage`); a flush that ends while one is there can
  always be followed by a failure (`MessageQueueProtocol.FlushCanFailIff`).
- A decoder reset leaves time stamp 0 instead of "unknown"
  (`StreamRing.ResetStampIff` says for which runs that shows).
- The 270 degree rotation of `pixel_format.c` writes interleaved chroma where pData1
  of the output happens to point (`VideoPicture.RotatePicture270Degree`,
  `VideoPicture.WrongPointer`). Those of `yuv_rotate.c` put the turned chroma behind its
  place, the scalar loops by half a line or a line and the NEON code by two; where there
  is any, it is right only by chance (`YuvRotate.ScalarRotate270`,
  `NeonRotate270.NeonRotate270`, and for every size a run of each that goes wrong).
- vir2phy answers NULL both for "no buffer" and for physical address 0, and phy2vir
  refuses address 0 (`IonLedger.TranslationsInvert`).
- An allocation that fails after ION_IOC_ALLOC loses what it has taken, and closing a
  buffer's descriptor early twice can close somebody else's
  (`IonAlloc.IonAlloc.PallocExtend`, `IonAlloc.IonAlloc.CloseFdByVirAddr`,
  `IonAlloc.CloseEarlyTwice`).

## Model

| member | source | states |
|---|---|---|
| `Framer.ParseAppend` | allwinner/display/pqd/pqdaemon.c:290-393 | parsing is online: the one-shot parse of a longer stream is the parse of its beginning, followed by the parse of what that left over and the new bytes |
| `Framer.ParseOfWellFormedPackets` | allwinner/display/pqd/pqdaemon.c:306-388 | a client that sends well-formed packets back to back gets exactly those packets framed, with nothing left over |
| `Framer.CommandsAreFramed` | allwinner/display/pqd/sockets/protocol.h:32-40 | the wire format from the sender: magic, command, reserved byte, size of the whole packet with the low byte first, payload. Whatever commands are sent back to back come out one for one with nothing left over |
| `Framer.StuckStaysStuck` | allwinner/display/pqd/pqdaemon.c:325-345 | a parse that has met a header with a size below 1 never gets past it, whatever follows |
| `Framer.MagicWordIsMagicBytes` | allwinner/display/pqd/pqdaemon.c:312-329 | the bytewise test of the hunt and the word test of the next state accept the same bytes, so the corruption branch is dead |
| `PqServer.Server.ServeClient` | allwinner/display/pqd/pqdaemon.c:166-196 | chunking independence over a whole connection, from any state between two reads: however read() cuts the stream, the packets handed over are the one-shot parse of the bytes an earlier client has left pending followed by the bytes received, and the pending bytes are its rest |
| `PqServer.ServeCommands` | allwinner/display/pqd/pqdaemon.c:284-393 | run on the receiver: commands put on the wire byte by byte as protocol.h lays them out are handed over as sent, in whatever pieces read() delivers them |
| `PqServer.Server.SocketPacketHandle` | allwinner/display/pqd/pqdaemon.c:284-393 | every call keeps the agreement with the one-shot parse, ends with the read position 0 and fewer than 10 bytes buffered (so read() is never offered no room), and end of file forgets everything not framed |
| `PqServer.Server.FrameAll` | allwinner/display/pqd/pqdaemon.c:306-388 | the goto loop terminates by (bytes left, state) and queues exactly the packets of the one-shot parse |
| `PqServer.Server.ParseData` | allwinner/display/pqd/pqdaemon.c:307-385 | one turn of the switch keeps what is still to be framed on track with the parse of the input and makes progress whenever it will be repeated |
| `PqServer.Server.SearchHeader` | allwinner/display/pqd/pqdaemon.c:308-324 | the hunt skips exactly the bytes at which no magic begins and compacts the buffer when too little is left |
| `PqServer.Server.StartPacket` | allwinner/display/pqd/pqdaemon.c:325-356 | a packet that is all there is queued unchanged; of any other the bytes present are kept and the right number awaited |
| `PqServer.Server.ContinuePacket` | allwinner/display/pqd/pqdaemon.c:357-381 | bytes that arrive later are added at the right place until the packet is complete, then it is queued |
| `PqServer.Server.TrimRecvbuf` | allwinner/display/pqd/pqdaemon.c:225-234 | the overlapping in-place move brings the live bytes to the front unchanged |
| `PqServer.Server.RecvInfoReset` | allwinner/display/pqd/pqdaemon.c:241-250 | everything not framed is forgotten and nothing queued is touched |
| `PqServer.Server.SpinOnRead` | allwinner/display/pqd/pqdaemon.c:290-388 | a read after which the one-shot parse ends at a header with size 0 never returns: whatever the number of turns, what has been queued is the packets of that parse and then empty ones, and the live bytes still begin with that header; next to FrameAll this makes the size test of the parse the exact condition for a call to return, negative sizes aside |
| `PqServer.Server.SpinOnZeroSize` | allwinner/display/pqd/pqdaemon.c:325-350 | the cycle itself: at a header with size 0 every two turns queue one empty packet and leave the buffer as it was |
| `PqServer.SpinOnHeader` | allwinner/display/pqd/pqdaemon.c:325-350 | a run of it: a new receiver that reads one ten-byte header with size 0 |
| `PqServer.Server.FrameToZeroSize` | allwinner/display/pqd/pqdaemon.c:306-388 | the turns before it: the goto is taken every time, and they queue exactly the packets in front of the header |
| `Reconnect.NextClientUnharmedIff` | allwinner/display/pqd/pqdaemon.c:174-182 | in every state between two reads: whatever the next client sends, in whatever pieces read() may deliver it, its packets are those of its own bytes if and only if no suffix of the bytes a client dropped on an epoll error has left pending could begin a header |
| `Reconnect.ServeNextClient` | allwinner/display/pqd/pqdaemon.c:174-196 | run on the receiver: after harmless bytes the next client is served exactly what it sends |
| `Reconnect.MisserveNextClient` | allwinner/display/pqd/pqdaemon.c:174-196 | run on the receiver: after any other pending bytes there is a stream, built from them, for which what is handed over is not what was sent |
| `Reconnect.StaleBytesHarmlessIff` | allwinner/display/pqd/pqdaemon.c:306-388 | the fact about the parser behind this: p in front of a stream changes no packet of any stream if and only if no suffix of p could begin a header |
| `Reconnect.SkipToStart` | allwinner/display/pqd/pqdaemon.c:308-318 | bytes that cannot start a header in any continuation are skipped without changing what is framed after them |
| `Reconnect.RubbishIsSkipped` | allwinner/display/pqd/pqdaemon.c:308-318 | bytes without an A in front of commands are skipped and the commands framed as sent |
| `IntrusiveList.ListAdd` | allwinner/display/pqd/utils/list.h:50-58 | on well-formed circular links the new element ends up right behind the head and all others keep their order |
| `IntrusiveList.ListDel` | allwinner/display/pqd/utils/list.h:62-67 | the element is gone and the others keep their order; its own links are not needed afterwards |
| `IntrusiveList.ListSplice` | allwinner/display/pqd/utils/list.h:71-82 | the members of one list are put, in order, right behind the head of the other; an empty list changes nothing |
| `IntrusiveList.ListEmpty` | allwinner/display/pqd/utils/list.h:44-47 | true exactly for a head without members |
| `IntrusiveList.RingRotates` | allwinner/display/pqd/utils/list.h:41-67 | a ring has no first element: seen from any member it is as well-formed as from the head |
| `CmdQueue.CmdQueue.Queue` | allwinner/display/pqd/utils/cmdqueue.c:37-43 | a request goes to the head of the list, in front of all pending ones |
| `CmdQueue.CmdQueue.Dequeue` | allwinner/display/pqd/utils/cmdqueue.c:45-57 | the request queued last is taken, or none if none is pending |
| `CmdQueueProtocol.NeverAsleepOnWork` | allwinner/display/pqd/utils/cmdqueue.c:26-43 | in every interleaving of the two threads, with spurious wake-ups, the consumer is never blocked while a request is pending |
| `CmdQueueProtocol.NeverAwakeForNothing` | allwinner/display/pqd/utils/cmdqueue.c:26-35 | in every run without spurious wake-ups the consumer past its wait finds a request |
| `CmdQueueProtocol.MainThreadServesAll` | allwinner/display/pqd/utils/cmdqueue.c:26-57 | from any state the consumer by itself serves all that is pending, in list order, and then sleeps |
| `CmdQueueProtocol.ServedExactlyOnce` | allwinner/display/pqd/utils/cmdqueue.c:37-57 | in every run each queued request has been dequeued once or is pending once, never both, never twice |
| `CmdQueueProtocol.InOrderIffNeverTwo` | allwinner/display/pqd/utils/cmdqueue.c:37-57 | the queue is a stack: once drained, requests have been served in the order they came if and only if in no step of the run one was queued while another was pending |
| `CmdQueueProtocol.NewestFirst` | allwinner/display/pqd/utils/cmdqueue.c:37-57 | a run in which two requests are served newest first |
| `CmdQueueProtocol.InvHolds` | allwinner/display/pqd/pqdaemon.c:66-80 | what each step of the two threads keeps |
| `MessageQueue.MessageQueue.PostMessage` | allwinner/multimedia/libcedarc/base/CdcMessageQueue.c:125-181 | a bounded FIFO: refused exactly when full, otherwise the message is last |
| `MessageQueue.MessageQueue.TakeMessage` | allwinner/multimedia/libcedarc/base/CdcMessageQueue.c:211-230 | the oldest message is returned and removed; none exactly when the queue is empty |
| `MessageQueue.MessageQueue.FindFree` | allwinner/multimedia/libcedarc/base/CdcMessageQueue.c:144-158 | whenever the queue is not full there is a free slot, so the error branch for none is unreachable |
| `MessageQueue.MessageQueue.FindTail` | allwinner/multimedia/libcedarc/base/CdcMessageQueue.c:163-169 | the chain from the head is acyclic and its last node is the message posted last |
| `MessageQueue.MessageQueue.Link` | allwinner/multimedia/libcedarc/base/CdcMessageQueue.c:159-172 | the new node hangs behind the last one and no other node changes |
| `MessageQueue.MessageQueue.Clear` | allwinner/multimedia/libcedarc/base/CdcMessageQueue.c:243-250 | after a flush no message and no slot is in use |
| `MessageQueue.MessageQueue.CountIsValidSlots` | allwinner/multimedia/libcedarc/base/CdcMessageQueue.c:134-176 | the count, the number of valid slots and the length of the chain always agree |
| `MessageQueue.MessageQueue.constructor` | allwinner/multimedia/libcedarc/base/CdcMessageQueue.c:47-97 | a new queue is empty and has the given number of slots |
| `MessageQueueProtocol.InvHolds` | allwinner/multimedia/libcedarc/base/CdcMessageQueue.c:125-264 | every step of posters, getters, waiters and flushers keeps: semaphore value + posters before sem_post + getters and waiters holding a token >= messages queued |
| `MessageQueueProtocol.SurplusChange` | allwinner/multimedia/libcedarc/base/CdcMessageQueue.c:176-264 | how each step changes the difference between semaphore credit and messages: only a flush and an empty-handed getter do |
| `MessageQueueProtocol.NoMessageStranded` | allwinner/multimedia/libcedarc/base/CdcMessageQueue.c:125-264 | in every run a queued message is covered by a token or by a thread on its way; with all threads at rest the semaphore is at least the number of messages |
| `MessageQueueProtocol.PostAlone` | allwinner/multimedia/libcedarc/base/CdcMessageQueue.c:125-181 | a post that nobody interferes with: the message last and one more token, or nothing at all if the queue is full |
| `MessageQueueProtocol.GetAlone` | allwinner/multimedia/libcedarc/base/CdcMessageQueue.c:199-231 | a get: the first message and one token less |
| `MessageQueueProtocol.WaitAlone` | allwinner/multimedia/libcedarc/base/CdcMessageQueue.c:183-191 | a wait leaves everything as it was |
| `MessageQueueProtocol.FlushAlone` | allwinner/multimedia/libcedarc/base/CdcMessageQueue.c:233-264 | a flush: no messages and no tokens |
| `MessageQueueProtocol.BalanceOverRun` | allwinner/multimedia/libcedarc/base/CdcMessageQueue.c:125-231 | in every run without a flush credit and messages are equal |
| `MessageQueueProtocol.GetterFindsItsMessage` | allwinner/multimedia/libcedarc/base/CdcMessageQueue.c:199-231 | in every run without a flush a getter past the semaphore finds a message, and the k-th message taken is the k-th posted |
| `MessageQueueProtocol.FlushLeavesSurplus` | allwinner/multimedia/libcedarc/base/CdcMessageQueue.c:233-264 | a flush leaves behind exactly the credit of the threads it caught between mutex and semaphore |
| `MessageQueueProtocol.GetterFindsAMessage` | allwinner/multimedia/libcedarc/base/CdcMessageQueue.c:125-264 | in every run in which each flush ends while no thread is between its mutex and its semaphore, every getter past the semaphore finds a message |
| `MessageQueueProtocol.FlushCanFailIff` | allwinner/multimedia/libcedarc/base/CdcMessageQueue.c:233-264 | from any state that satisfies the invariant, the end of a flush makes it possible for a later getter to fail without another flush if and only if some thread was then between mutex and semaphore |
| `MessageQueueProtocol.CanFailIff` | allwinner/multimedia/libcedarc/base/CdcMessageQueue.c:125-264 | from any state that satisfies the invariant, with the mutex free and at least one thread, some run without a further flush ends in an empty-handed getter if and only if there is more semaphore credit than messages |
| `MessageQueueProtocol.SurplusCanFail` | allwinner/multimedia/libcedarc/base/CdcMessageQueue.c:125-231 | and such a run is constructed: token holders pay back, then getters take until the queue is empty and one more is let through |
| `MessageQueueProtocol.EmptyHandedTakesSurplus` | allwinner/multimedia/libcedarc/base/CdcMessageQueue.c:206-218 | one step of a getter: with no surplus credit it finds a message, and coming back empty-handed lowers the surplus by one |
| `MessageQueueProtocol.FlushCanLeaveAGetterEmptyHanded` | allwinner/multimedia/libcedarc/base/CdcMessageQueue.c:176-264 | a run in which a flush between unlock and sem_post makes the next getter fail |
| `PqStore.SaveKeeps` | allwinner/display/pqd/pqdata/pqdata.c:287-326 | saving keeps keys (port, type, index) unique and all entries of one port and type side by side |
| `PqStore.InvMeans` | allwinner/display/pqd/pqdata/pqdata.c:287-305 | in terms of the fields: no two entries with one port, type and index, and nothing else between two of one port and type |
| `PqStore.InsertMeans` | allwinner/display/pqd/pqdata/pqdata.c:287-305 | in terms of the fields: right behind the first entry of the port and type, or to the front |
| `PqStore.SaveIsMapUpdate` | allwinner/display/pqd/pqdata/pqdata.c:307-326 | saving is an update of the keyed map at one key |
| `PqStore.ItemsAreEntries` | allwinner/display/pqd/pqdata/pqdata.c:270-285 | with unique keys the map holds exactly the listed entries, wherever they stand |
| `PqStore.ReverseKeeps` | allwinner/display/pqd/pqdata/pqdata.c:96-99 | the reversed list has the same keyed map and keeps keys unique and groups together |
| `PqList.EntryList.AddBehind` | allwinner/display/pqd/pqdata/pqdata.c:304 | a new node linked in behind a member, or behind the head, is the next member of the list; the others keep their order |
| `PqList.EntryList.Remove` | allwinner/display/pqd/pqdata/pqdata.c:101-104 | a member unlinked where it stands is gone and the others keep their order |
| `PqList.EntryList.Next` | allwinner/display/pqd/pqdata/pqdata.c:275 | following next from a member leads to the member behind it, and from the last to the head |
| `PqData.PqData.FindNode` | allwinner/display/pqd/pqdata/pqdata.c:270-285 | walking the links ends at the first node under a key, or at the head if there is none |
| `PqData.PqData.InsertNode` | allwinner/display/pqd/pqdata/pqdata.c:287-305 | linked in right behind the first member of the same port and type, or behind the head |
| `PqData.PqData.DeleteNode` | allwinner/display/pqd/pqdata/pqdata.c:309-315 | the first node under the key is unlinked, wherever it stands |
| `PqData.PqData.SaveData` | allwinner/display/pqd/pqdata/pqdata.c:307-326 | on the links: the keyed map is updated at the key and the list invariants hold |
| `PqData.PqData.FindData` | allwinner/display/pqd/pqdata/pqdata.c:328-338 | a lookup in the keyed map |
| `PqFile.DecodeOfEncode` | allwinner/display/pqd/pqdata/pqdata.c:159-237 | reading what was written yields the entries in order and consumes exactly the bytes written, whatever follows them |
| `PqFile.ReadingEndsAtOtherWord` | allwinner/display/pqd/pqdata/pqdata.c:219-237 | with a count that is too large reading ends at the first word that does not begin an entry |
| `PqFile.EntryLayout` | allwinner/display/pqd/pqdata/pqdata.c:42-49 | a stored entry byte by byte, where its numbers are below 256 |
| `PqFile.OtherFiles` | allwinner/display/pqd/pqdata/pqdata.c:190-217 | files that are empty, too short, or have another first word, magic or version |
| `PqFile.LoadOfStore` | allwinner/display/pqd/pqdata/pqdata.c:143-238 | a stored file loads exactly if magic and version match, and then yields the stored entries |
| `PqFile.EntryFields` | allwinner/display/pqd/pqdata/pqdata.c:116-124 | the fields of a written entry are where the reader looks for them |
| `PqData.PqData.ToFile` | allwinner/display/pqd/pqdata/pqdata.c:143-175 | the file is the header with the entry count and the entries in list order |
| `PqData.PqData.FromFile` | allwinner/display/pqd/pqdata/pqdata.c:181-238 | every entry read goes to the front, so the list becomes the reverse of the file in front of what was there; on an error, an empty file included, nothing changes |
| `PqData.PqData.ReadEntries` | allwinner/display/pqd/pqdata/pqdata.c:219-237 | the loop stops at the count or at the first word that is no entry header, and prepends what it read |
| `PqData.PqData.Load` | allwinner/display/pqd/pqdata/pqdata.c:240-266 | the file is read only into an empty list; what is handed out is the list in order |
| `PqData.PqData.Recover` | allwinner/display/pqd/pq_core.c:451-496 | the calls made are the replay of the loaded list in list order, then the switch back to port 0 |
| `PqData.PqData.SaveConfig` | allwinner/display/pqd/pq_core.c:439-446 | the payload is filed under the port, type and index it names, and the stored file loads back to the list |
| `PqData.SaveAndRestart` | allwinner/display/pqd/pq_core.c:439-496 | run on the code: after a save, a store, a restart from the file and a recovery, the calls of the new daemon leave the hardware with every setting of a replayed type, the new one included, in the unit of its type |
| `PqData.SaveKindAndRestart` | allwinner/display/pqd/pq_core.c:439-496 | the same by the bytes of the payload: one that begins with the word 11, 14, 15, 16, 17 or 19 is sent, after the restart, to gamma, color enhance, color matrix (twice), FCM or CDC on the port it was saved for; one that begins with another word changes nothing in the hardware |
| `PqCore.FiledUnderFirstWord` | allwinner/display/pqd/pq_core.c:81 | the type a payload is filed under is its first word |
| `PqCore.OneCallPerEntry` | allwinner/display/pqd/pq_core.c:461-492 | recovery makes one set call for each entry of a replayed type, on the port of the entry, and no other |
| `PqCore.RecoveryInstallsMap` | allwinner/display/pqd/pq_core.c:451-496 | recovery leaves the hardware with the stored payload under every key of a replayed type, in the unit of that type, everything else untouched, and port 0 in effect |
| `PqCore.RecoveryIgnoresOrder` | allwinner/display/pqd/pq_core.c:451-496 | because keys are unique the resulting hardware does not depend on the order of the list |
| `PqCore.SaveAllKeeps` | allwinner/display/pqd/pqdata/pqdata.c:307-326 | after any sequence of saves, from any list a daemon may start with, the store is the map of the payloads saved last |
| `PqCore.NextLife` | allwinner/display/pqd/pqdata/pqdata.c:143-238 | saves, a store and the load of the next daemon: it starts with a list that satisfies all invariants again and holds the payloads saved last, so lives follow one another |
| `PqCore.SaveStoreRestartRecover` | allwinner/display/pqd/pq_core.c:439-496 | from any list, after any saves, a store and a restart, recovery from the list the loader leaves puts the last payload saved under every key of a replayed type into the unit of that type |
| `PqFile.StoreThenLoad` | allwinner/display/pqd/pqdata/pqdata.c:143-238 | the list a daemon without one is left with by loading a stored file is the stored list reversed |
| `PqFile.TwoStoreLoadCycles` | allwinner/display/pqd/pqdata/pqdata.c:143-238 | storing the list the loader has left and loading again gives the original list |
| `VideoStream.VideoStream.RequestVideoStreamBuffer` | allwinner/multimedia/libcedarc/vdecoder/vdecoder.c:1308-1394 | the two stretches returned lie inside the buffer, do not overlap each other, the partial frame or any queued frame, and together are the ring range right behind the partial data; on a refusal nothing is returned |
| `VideoStream.VideoStream.FlushSbmData` | allwinner/multimedia/libcedarc/vdecoder/vdecoder.c:1396-1420 | exactly the ring range of the partial frame is written back, split at the end of the buffer |
| `VideoStream.VideoStream.SubmitVideoStreamData` | allwinner/multimedia/libcedarc/vdecoder/vdecoder.c:1476-1590 | in every run the frames handed on are those the submitted parts stand for; the ring and, after the write-back, the video engine see their bytes |
| `VideoStream.VideoStream.BeginFrame` | allwinner/multimedia/libcedarc/vdecoder/vdecoder.c:1507-1537 | a first part cuts off an unfinished frame, which is handed on by itself |
| `VideoStream.VideoStream.ExtendFrame` | allwinner/multimedia/libcedarc/vdecoder/vdecoder.c:1538-1548 | a further part follows the bytes before it, and the first known time stamp stays |
| `VideoStream.VideoStream.EndFrame` | allwinner/multimedia/libcedarc/vdecoder/vdecoder.c:1550-1588 | the complete frame is visible to the video engine before it is handed on, and the status is cleared |
| `VideoStream.VideoStream.Fill` | allwinner/multimedia/libcedarc/vdecoder/vdecoder.c:1376-1391 | filling the stretches returned changes neither queued frames nor partial data |
| `VideoStream.VideoStream.Delivered` | allwinner/multimedia/libcedarc/vdecoder/vdecoder.c:1476-1590 | every byte submitted is once, in order, in a frame already read or in the ring between read position and end of the partial frame |
| `VideoStream.VideoStream.HandedOn` | allwinner/multimedia/libcedarc/vdecoder/vdecoder.c:1396-1420 | what is queued lies behind the read position, in the buffer and, where the cache has to be written back, in the memory the video engine reads |
| `VideoStream.VideoStream.Reset` | allwinner/multimedia/libcedarc/vdecoder/vdecoder.c:873-881 | queue and partial frame are dropped; the time stamp becomes 0 |
| `StreamRing.Conservation` | allwinner/multimedia/libcedarc/vdecoder/vdecoder.c:1505-1588 | no part is lost, doubled or reordered: bytes of the frames handed on plus pending bytes are the bytes of the parts |
| `StreamRing.AssembleFrames` | allwinner/multimedia/libcedarc/vdecoder/vdecoder.c:1505-1588 | a parser that marks first and last parts gets exactly its frames, each with the first time stamp given for it |
| `StreamRing.AssembleFrame` | allwinner/multimedia/libcedarc/vdecoder/vdecoder.c:1507-1537 | a frame that begins with a first part comes out whole whatever state the assembly is in |
| `StreamRing.ResetStampIff` | allwinner/multimedia/libcedarc/vdecoder/vdecoder.c:881 | for every run of parts: the outcome after a reset is the outcome after a finished frame if and only if the first time stamp among the parts that continue the frame under assembly is 0, or that frame is begun anew before any byte has come for it |
| `StreamRing.ResetLosesAStamp` | allwinner/multimedia/libcedarc/vdecoder/vdecoder.c:881 | a frame that loses its time stamp that way |
| `CostTimeList.UpdateCostTimeList` | allwinner/multimedia/libcedarc/vdecoder/vdecoder.c:931-947 | the in-place swaps insert the time into the sorted list in place of the smallest entry, if it is larger |
| `CostTimeList.TopSixteen` | allwinner/multimedia/libcedarc/vdecoder/vdecoder.c:931-947 | after any updates the list is sorted and holds the 16 largest of all times offered and the 16 initial zeros |
| `CostTimeList.LargestIsUnique` | allwinner/multimedia/libcedarc/vdecoder/vdecoder.c:931-947 | being sorted and holding the largest determines the list |
| `CostTimeList.OrderDoesNotMatter` | allwinner/multimedia/libcedarc/vdecoder/vdecoder.c:931-947 | the order in which the times come does not matter |
| `Raster.TileIsInjective` | allwinner/multimedia/libcedarc/vdecoder/pixel_format.c:78-146 | a tile line is stored apart from every other, so each picture byte has one source |
| `Mb32.ConvertMb32420ToNv21Y` | allwinner/multimedia/libcedarc/vdecoder/pixel_format.c:44-148 | every luma byte of every line, also of a clipped last column or row, is the tile byte ((y/32)*tiles + x/32)*1024 + (y%32)*32 + x%32, and nothing at or beyond height*stride is written |
| `Detile.DetiledAt` | allwinner/multimedia/libcedarc/vdecoder/pixel_format.c:44-148 | the same by line and column |
| `Mb32.ConvertMb32ToNv21C` | allwinner/multimedia/libcedarc/vdecoder/pixel_format.c:150-310 | the chroma pairs of every line come from their tile with U and V exchanged, for 32-line and for 16-line tiles, and nothing else is written |
| `Mb32Planar.ConvertMb32ToYv12C` | allwinner/multimedia/libcedarc/vdecoder/pixel_format.c:312-558 | even tile bytes go to the U plane and odd ones to the V plane, both clipped to the plane, and nothing outside the planes is written |
| `Mb32Planar.ChromaStrideIsLumaStride` | allwinner/multimedia/libcedarc/vdecoder/pixel_format.c:333-336 | for every width the interleaved chroma stride is the luma stride and the planar stride half of it |
| `TileConvert.EveryOtherLine` | allwinner/multimedia/libcedarc/vdecoder/pixel_format.c:263-295 | a 16-line tile is every other line of a 32-line one |
| `TileConvert.ConvertTilesToNv21` | allwinner/multimedia/libcedarc/vdecoder/pixel_format.c:653-673 | tiled pictures, 4:2:0 and 4:2:2, show the same samples as NV21 |
| `TileConvert.ConvertTilesToYv12` | allwinner/multimedia/libcedarc/vdecoder/pixel_format.c:593-617 | and as YV12 |
| `PixelConvert.ConvertNv21ToYv12` | allwinner/multimedia/libcedarc/vdecoder/pixel_format.c:619-638 | NV21 shows the same samples as YV12, for all widths and heights |
| `PixelConvert.ConvertPlanesToNv21` | allwinner/multimedia/libcedarc/vdecoder/pixel_format.c:675-714 | both planar orders show the same samples as NV21 |
| `PixelConvert.ConvertPlanar420ToYv12` | allwinner/multimedia/libcedarc/vdecoder/pixel_format.c:639-648 | the planar format with U first shows the same samples as YV12 |
| `VideoPicture.ConvertPixelFormat` | allwinner/multimedia/libcedarc/vdecoder/pixel_format.c:564-717 | every supported conversion keeps every visible luma and chroma sample; for any other pair of formats no pixel is written |
| `VideoPicture.ConvertBothWays` | allwinner/multimedia/libcedarc/vdecoder/pixel_format.c:593-673 | the diagram commutes on the code: converting tiles to YV12 directly, or to NV21 and then to YV12, leaves pictures with the same samples |
| `VideoPicture.ConvertPlanarBothWays` | allwinner/multimedia/libcedarc/vdecoder/pixel_format.c:593-714 | the same from the planar format: to YV12 directly, or to NV21 and then to YV12 |
| `VideoPicture.ConvertThereAndBack` | allwinner/multimedia/libcedarc/vdecoder/pixel_format.c:619-695 | NV21 to YV12 and back shows the same picture each time; the pointers to the chroma in numbers |
| `VideoPicture.ConvertNothing` | allwinner/multimedia/libcedarc/vdecoder/pixel_format.c:564-717 | for each of the other pairs of formats no pixel is written |
| `PixelBytes.Nv21Bytes` | allwinner/multimedia/libcedarc/vdecoder/pixel_format.c:619-638 | where the chroma bytes of NV21 are, in numbers: behind stride times the height rounded up to 16 |
| `PixelBytes.Nv12Bytes` | allwinner/multimedia/libcedarc/vdecoder/pixel_format.c:938-960 | and of NV12 |
| `PixelBytes.PlanarBytes` | allwinner/multimedia/libcedarc/vdecoder/pixel_format.c:639-648 | and of the planar formats, V first in YV12 |
| `PixelBytes.TiledChromaBytes` | allwinner/multimedia/libcedarc/vdecoder/pixel_format.c:150-310 | and of the tiled ones, every other line of 4:2:2 |
| `PixelBytes.TiledLumaByte` | allwinner/multimedia/libcedarc/vdecoder/pixel_format.c:44-148 | and the luma bytes of tiles |
| `PixelBytes.Alignments` | allwinner/multimedia/libcedarc/vdecoder/pixel_format.c:570-590 | the strides are the next multiples, not further ones |
| `TileConvert.RoomForTiles` | allwinner/multimedia/libcedarc/vdecoder/pixel_format.c:44-310 | a tiled picture takes 1024 bytes for each tile it touches |
| `VideoPicture.TurnAndTurnBack` | allwinner/multimedia/libcedarc/vdecoder/pixel_format.c:880-1165 | on the code: 90 degrees and then 270 give the picture back, every sample of a picture of even size |
| `VideoPicture.HalfTurnTwice` | allwinner/multimedia/libcedarc/vdecoder/pixel_format.c:976-1068 | and so do two half turns |
| `PixelBytes.TurnedLumaByte` | allwinner/multimedia/libcedarc/vdecoder/pixel_format.c:895-904 | where a luma byte goes, for each angle, in numbers |
| `PixelBytes.TurnedPairBytes` | allwinner/multimedia/libcedarc/vdecoder/pixel_format.c:948-958 | where both bytes of a pair go |
| `PixelBytes.TurnedPlaneBytes` | allwinner/multimedia/libcedarc/vdecoder/pixel_format.c:924-936 | where the bytes of both planes go |
| `VideoPicture.TurnAndConvert` | allwinner/multimedia/libcedarc/vdecoder/pixel_format.c:619-974 | on the code: turning and then converting to YV12, or converting and then turning, leaves pictures that show the same |
| `Interleave.SplitPair` | allwinner/multimedia/libcedarc/vdecoder/pixel_format.c:627-637 | the halved line offsets of the source are the positions of the two plane samples of a pair |
| `Interleave.PutPair` | allwinner/multimedia/libcedarc/vdecoder/pixel_format.c:683-693 | the same for putting a pair together |
| `Rotation.CopyByte` | allwinner/multimedia/libcedarc/vdecoder/pixel_format.c:895-904 | the luma and planar offsets of the source, for each angle, are the positions the angle asks for |
| `Rotation.CopyPair` | allwinner/multimedia/libcedarc/vdecoder/pixel_format.c:948-958 | the same for the offsets of pairs, in half strides |
| `Rotation.RotateArea` | allwinner/multimedia/libcedarc/vdecoder/pixel_format.c:895-904 | the double loop puts every sample of a plane where the angle says and writes nothing outside the plane |
| `VideoPicture.RotatePicture90Degree` | allwinner/multimedia/libcedarc/vdecoder/pixel_format.c:880-974 | luma of every size and chroma of whole two by two blocks are turned by 90 degrees, with any line stride that holds a line, for YV12, NV21 and NV12 |
| `VideoPicture.RotatePicture180Degree` | allwinner/multimedia/libcedarc/vdecoder/pixel_format.c:976-1068 | by 180 degrees |
| `VideoPicture.RotatePicture270Degree` | allwinner/multimedia/libcedarc/vdecoder/pixel_format.c:1070-1165 | by 270 degrees, in planar chroma always; in interleaved chroma if pData1 of the output, which the function does not set, points to the place of the chroma or there is none; otherwise not, unless the corner byte of that place held the right value before |
| `VideoPicture.WrongPointer` | allwinner/multimedia/libcedarc/vdecoder/pixel_format.c:1130-1150 | run on the code: for every size with chroma and every other pData1 there is a picture that does not come out turned |
| `Rotation.Misplaced` | allwinner/multimedia/libcedarc/vdecoder/pixel_format.c:1130-1150 | a plane turned into an area that begins elsewhere is not turned into its place, unless its first or last byte happened to be there before |
| `Picture.TurnsAdd` | allwinner/multimedia/libcedarc/vdecoder/pixel_format.c:880-1165 | two turns are one turn by the sum of the angles: 90 and 270 or 180 twice give the picture back, 90 twice is 180 |
| `Picture.NoTurnIsSame` | allwinner/multimedia/libcedarc/vdecoder/pixel_format.c:880-1165 | for even width and height a picture turned by nothing is the same picture |
| `Picture.TurnBack` | allwinner/multimedia/libcedarc/vdecoder/pixel_format.c:880-1165 | the opposite turn undoes a turn |
| `Picture.TurnThenConvert` | allwinner/multimedia/libcedarc/vdecoder/pixel_format.c:619-1165 | turning and then converting shows what converting and then turning shows |
| `NeonTranspose.LumaBytes` | allwinner/display/libuapi/src/yuv_rotate.c:65-86 | the vtrn.8/16/32 network turns a tile of 8 by 8 bytes: byte t of the register stored for column c is byte c of line 7-t |
| `NeonTranspose.ChromaBytes` | allwinner/display/libuapi/src/yuv_rotate.c:118-126 | the same for 4 by 4 byte pairs |
| `NeonTranspose.LumaBytes270` | allwinner/display/libuapi/src/yuv_rotate.c:220-243 | the network of the other rotation: byte t of the register stored for column 7-c is byte 7-c of line t |
| `NeonTranspose.ChromaBytes270` | allwinner/display/libuapi/src/yuv_rotate.c:272-281 | the same for 4 by 4 byte pairs |
| `NeonRotate.NeonRotate90` | allwinner/display/libuapi/src/yuv_rotate.c:19-161 | for width and height that are multiples of 8 the tiles and their stepping pointers turn luma and chroma by 90 degrees and write nothing else |
| `NeonTiles.StoreRegisters` | allwinner/display/libuapi/src/yuv_rotate.c:88-95 | the stores with post-increment complete the columns of a tile, from the left for 90 degrees and from the right for 270 |
| `NeonTiles.StepDown` | allwinner/display/libuapi/src/yuv_rotate.c:144-156 | after a tile row the source pointers are at the next eight lines |
| `NeonTiles.NextStores` | allwinner/display/libuapi/src/yuv_rotate.c:293-294 | after a tile the destination pointers are where the next one belongs: at once for 90 degrees, 16 and 8 lines up for 270 |
| `NeonRotate.NeonIsScalar` | allwinner/display/libuapi/src/yuv_rotate.c:19-395 | for 90 degrees the NEON code writes exactly the bytes the scalar loops write |
| `NeonRotate270.NeonRotate270` | allwinner/display/libuapi/src/yuv_rotate.c:163-315 | for width and height that are multiples of 8 luma is turned by 270 degrees, and chroma too, but two lines behind its place; nothing else is written. So chroma is right if there is none; otherwise not, unless the first byte of its place held the right value before |
| `NeonRotate270.ChromaGoesWrong` | allwinner/display/libuapi/src/yuv_rotate.c:192 | run on the code: for every such picture with chroma, zeros turned over ones leave the chroma wrong |
| `NeonRotate270.NeonIsNotScalar` | allwinner/display/libuapi/src/yuv_rotate.c:192 | for 270 degrees the NEON code and the scalar loops do not even write the same bytes |
| `YuvRotate.ScalarRotate90` | allwinner/display/libuapi/src/yuv_rotate.c:318-395 | the scalar loops turn luma and chroma by 90 degrees and write nothing else |
| `YuvRotate.LumaBytesOf90` | allwinner/display/libuapi/src/yuv_rotate.c:318-395 | the luma of that byte by byte |
| `YuvRotate.ChromaBytesOf90` | allwinner/display/libuapi/src/yuv_rotate.c:318-395 | and the chroma |
| `YuvRotate.ScalarRotate270` | allwinner/display/libuapi/src/yuv_rotate.c:397-456 | the scalar loops turn luma by 270 degrees, and chroma too, but half a line (for an odd width a whole line) behind its place; nothing else is written. So chroma is right if there is none; otherwise not, unless the first byte of its place held the right value before |
| `YuvRotate.LumaBytesOf270` | allwinner/display/libuapi/src/yuv_rotate.c:397-444 | the luma of that byte by byte |
| `YuvRotate.ChromaBytesOf270` | allwinner/display/libuapi/src/yuv_rotate.c:433-456 | and the chroma |
| `YuvRotate.ChromaGoesWrong` | allwinner/display/libuapi/src/yuv_rotate.c:433-456 | run on the code: for every picture with chroma, zeros turned over ones leave the chroma wrong |
| `YuvRotate.ChromaRightIff` | allwinner/display/libuapi/src/yuv_rotate.c:433-456 | whatever the gap in front of the turned chroma: right without a gap or without chroma; otherwise not, unless the first byte of its place held the right value before |
| `YuvRotate.ScalarRotate270Luma` | allwinner/display/libuapi/src/yuv_rotate.c:397-444 | the scalar luma loop turns by 270 degrees |
| `IonAlloc.IonAlloc.Open` | allwinner/common/libawion/src/ion_alloc.c:136-210 | opens are counted; a failing first open leaves nothing behind unless the kernel answers with descriptor 0, which is taken for a failure and not closed |
| `IonAlloc.IonAlloc.Close` | allwinner/common/libawion/src/ion_alloc.c:257-301 | the last close gives back every handle, descriptor, mapping, engine reference and device except those lost on error paths |
| `IonAlloc.IonAlloc.PallocExtend` | allwinner/common/libawion/src/ion_alloc.c:323-528 | the ledger holds in every run: success adds one buffer and exactly what it holds; a failing malloc gives everything back; a failing kernel call after the allocation loses exactly what was taken by then |
| `IonAlloc.AllocateAndTranslate` | allwinner/common/libawion/src/ion_alloc.c:323-715 | run on the code: an allocation succeeds exactly if each of its calls does, and then the addresses in the buffer translate to those the kernel gave, and back, with its descriptor |
| `IonAlloc.AllocateAndFree` | allwinner/common/libawion/src/ion_alloc.c:323-609 | freeing what has just been allocated, by calls that work, leaves list, handles, descriptors, mappings and engine references as they were |
| `IonAlloc.IonAlloc.Acquire` | allwinner/common/libawion/src/ion_alloc.c:382-449 | which resources are taken, and which are lost, at every point of failure |
| `IonAlloc.IonAlloc.Free` | allwinner/common/libawion/src/ion_alloc.c:546-609 | a listed buffer is dropped with exactly what it held; any other address changes nothing |
| `IonAlloc.IonAlloc.Drop` | allwinner/common/libawion/src/ion_alloc.c:212-255 | each of these was held before and is not held afterwards, so it is given back once |
| `IonAlloc.IonAlloc.CloseFdByVirAddr` | allwinner/common/libawion/src/ion_alloc.c:1020-1060 | an early close keeps the ledger if and only if the descriptor has not been closed before or its number is not in use again |
| `IonAlloc.CloseEarlyTwice` | allwinner/common/libawion/src/ion_alloc.c:1020-1060 | a run of the code in which the second early close of one buffer closes the descriptor of another |
| `IonLedger.DropGivesUp` | allwinner/common/libawion/src/ion_alloc.c:212-255 | dropping a buffer gives up exactly its own handle, mapping, descriptor and engine reference |
| `IonLedger.AddTakes` | allwinner/common/libawion/src/ion_alloc.c:495-506 | adding one takes exactly its own |
| `IonLedger.TranslationsInvert` | allwinner/common/libawion/src/ion_alloc.c:611-715 | inside every buffer vir2phy and phy2vir undo each other, except that physical address 0 reads as no address; the descriptor found is that of the owning buffer |
| `IonLedger.OutsideTranslatesToNull` | allwinner/common/libawion/src/ion_alloc.c:611-715 | an address in no buffer translates to NULL and has no descriptor, and phy2vir answers NULL for no other |
| `IonLedger.AddKeepsDisjoint` | allwinner/common/libawion/src/ion_alloc.c:495-506 | while the kernel hands out disjoint ranges, allocating keeps all virtual and all physical ranges disjoint |
| `IonLedger.DropKeepsDisjoint` | allwinner/common/libawion/src/ion_alloc.c:574-576 | so does freeing |
| `IonAlloc.IonAlloc.VirToPhyCpu` | allwinner/common/libawion/src/ion_alloc.c:611-642 | the scan finds the owning buffer and keeps the offset |
| `IonAlloc.IonAlloc.PhyToVirCpu` | allwinner/common/libawion/src/ion_alloc.c:644-675 | the same from the physical side |
| `IonAlloc.IonAlloc.GetBufferFd` | allwinner/common/libawion/src/ion_alloc.c:677-715 | the descriptor of the owning buffer, or -1 |

## Left out

- PqServer.Server.SocketPacketHandle: does not model headers with a negative size field, because what calloc and memcpy do with a negative size lies outside the C language; size 0 is the subject of SpinOnRead.
- PqData.PqData.FromFile: does not model what a read beyond the mapping returns, because the pages behind the file are the kernel's; such a file ends the modelled daemon.
- VideoStream.VideoStream.TakeFrame: is not taken from code; the stream buffer manager is not modelled itself, because its source is not part of this model; it is a ring with a write position and a queue that takes every frame and releases frames in order.
- VideoStream.VideoStream.SubmitVideoStreamData: does not carry nPcr, bValid, bVideoInfoFlag and pVideoInfo, because they are copied and never looked at; the debug sinks are left out.
- CostTimeList.UpdateCostTimeList: does not model NaN and rounding, because times are reals here and are only compared.
- VideoPicture.RotatePicture90Degree: does not model the crop offsets, because the code uses the top offset for the bottom edge; the same holds for 180 and 270 degrees.
- IonAlloc.IonAlloc.Release: does not model failing releases and the IOMMU mapping of a descriptor that was closed early, because the driver is not part of this model.
- IonAlloc.IonAlloc.Close: does not model more closes than opens, because the code then follows a NULL pointer.
- Sockets, epoll, threads and mutexes as such: critical sections are single steps and read() answers are parameters.
- calloc failing in the daemon, and CdcMessageQueueDestroy.
- The daemon's replies to clients and the other commands of pq_core: one call each.
- The hardware access layer: an abstract map from a unit and (port, type, index) to payloads; the function that computes an index is arbitrary.
- Short writes and write errors of the settings file: the code reports success for both.
- What free() makes of a node taken out of the settings list.
- 32-bit wrap-around of width times height in the pixel code.
- `RotatePicture0Degree` and the disabled vector code in `pixel_format.c`.
- Aliasing of input and output pictures: they are different buffers.
- Picture management, the video engine, the encoder, `videoOutPort.c` and the GPU conversions.
- The secure-memory, merge, unmerge and cache-flush calls of the ION allocator.

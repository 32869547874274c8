# A verified model of usbipd-libusb

The USB/IP host driver in `driver-libusb/` exports a USB device over TCP: a client sends CMD_SUBMIT and
CMD_UNLINK, libusb carries the transfers out, and the driver answers with RET_SUBMIT and RET_UNLINK. The
messages are USBIP_CMD_SUBMIT, USBIP_CMD_UNLINK, USBIP_RET_SUBMIT and USBIP_RET_UNLINK of the Linux kernel's
`Documentation/usb/usbip_protocol.rst`. This project models the driver and the parts of `src/` that serve the
device list and the index of USB ids, and proves what they promise. `dafny verify dfyconfig.toml` checks it.

## How the model is laid out

The life of a URB:

- `Lists.dfy`, `ListGroups.dfy`: the circular lists of `include/list.h` on the heap, and several of them that
  exchange entries.
- `UrbQueues.dfy`: the five queues of a device as values, and what each region of code under `priv_lock` does
  to them. `StubDevice.dfy` is the class with the queues on the heap; every method is proved against these
  functions.
- `UrbProtocol.dfy`: the rx thread, libusb's completions and the tx thread as a step machine that takes those
  functions as its steps, with a log of commands taken, entries queued and replies sent. A run is any
  interleaving.
- `UrbInvariant.dfy`: the invariant of every run. `UrbAccounts.dfy`, `UrbStatus.dfy`, `UrbOrder.dfy`,
  `UrbDrain.dfy`, `UrbStops.dfy`, `UrbWire.dfy` and `UrbCommands.dfy`: what follows from it for one command, for
  the result it is answered with, for the order of replies, for draining and for a run that fails to drain, for
  the bytes a client reads and for the bytes it writes.

The wire:

- `WireCodec.dfy`: byte order of a header. `IsoTransfers.dfy`: statuses, packet offsets, padding, descriptors.
- `ReplyStream.dfy`: replies as bytes and a client that decodes them. `ReplySend.dfy`: the I/O vector.
- `Sockets.dfy`, `CommandStream.dfy`, `StubRx.dfy`, `CommandClient.dfy`: receiving in any pieces, what the
  driver makes of a stream of bytes, the loops that do so, and a client whose commands come out as it meant.

Around it:

- `EventHandler.dfy`, `EventDevice.dfy`: events, the mutex used as a binary semaphore, shutdown.
- `NumberHash.dfy`, `NameTables.dfy`, `UsbIds.dfy`, `NamesIndex.dfy`, `UsbIdsText.dfy`: the hash, the chained
  tables, the parser of usb.ids, and what its lines and files mean.
- `DeviceTables.dfy`, `Devlist.dfy`: endpoint tables, the list of exported devices, the device list reply.
- `Usb.dfy`, `Bags.dfy`: shared types, and multisets over sequences.

## Assumptions

- The client numbers every command afresh and unlinks only numbers it has submitted.
- libusb completes every accepted transfer once, with the type and the number of packets it was given. When it
  does so, with what status and what data, is open.
- Whether an allocation, a send or a device reset fails is a parameter of the step or of the method. A reply
  that cannot be allocated is lost, and an event is raised with it. The step machine takes it that an event is
  raised whenever a submit is given up; the one place where the code raises none is named below.
- `ud.sock_fd` does not change during a run, and one device is exported.
- The move of an intercepted request (driver-libusb/stub_rx.c:473-474) is one step, as its author meant:
  line 472 unlocks where it should lock.
- The rx thread does not go on after an error of its own. The code leaves a window in which it could: the loop
  test (driver-libusb/stub_rx.c:558-560) passes when the handler has already taken the event
  (driver-libusb/stub_event.c:28-29) and not yet set `should_stop`. After an event that another thread raised,
  every thread may go on as long as it likes.
- `int` has 32 bits and wraps when an unsigned value is stored in it; `size_t` has 64.

## What turned out not to hold as documented

- stub_tx_loop's comment (driver-libusb/stub_tx.c:368-381) says that the result of a submit precedes the
  confirmation of an unlink that came too late. `UrbOrder.LateUnlinkOrder` gives the exact condition: it does,
  unless the tx thread was already past its submits when the unlink arrived and the victim was still in
  priv_tx. `UrbOrder.ResultBeforeLateUnlink` shows that this cannot happen to a submit that is not
  intercepted, when transfers complete only while tx polls libusb. `UrbOrder.InterceptedIsOvertaken` is a run
  where it happens to an intercepted SET_INTERFACE. The requests that are intercepted are those of sections
  9.4.1 (Clear Feature, endpoint halt), 9.4.10 (Set Interface) and 11.24.2 (port reset) of USB 2.0; that of
  section 9.4.7 (Set Configuration) is recognized and left to libusb (driver-libusb/stub_rx.c:150).
- stub_send_ret_submit and stub_send_ret_unlink return a `size_t` as an `int` (driver-libusb/stub_tx.c:271,
  driver-libusb/stub_tx.c:343). A pass whose byte count modulo 2^32 is 2^31 or more reads as a failure and
  ends the tx loop without an event. `UrbDrain.FullPass` and `UrbDrain.PassEnds` say that a pass, from its start
  or from anywhere in it, comes back to polling if and only if neither count reads so.
  `UrbStops.LoopEndsSilently` is a run in which two replies of a gigabyte each end the loop with the
  connection open, and a third submit is never answered.
- usbip_recv_iso returns without an event when it has no memory for the descriptors
  (driver-libusb/stub_common.c:623-627). The submit keeps its entry and never reaches libusb, and its
  descriptors are taken for the next commands: `CommandClient.DescriptorsUnread`. By
  `CommandClient.GivenUpSilently` this is exactly when a submit is given up without an event, and
  `CommandClient.OnePacketIsLost` is one to which it happens.
- parse opens a section even when its entry could not be stored, so children can be stored without their parent.
  `UsbIds.ParseKeepsIntegrity` says when they are not: if and only if no line that finds memory comes under a
  parent that no line before it has listed with memory. `UsbIds.OrphanedProduct` is a file of two lines where
  one does.
- A vendor whose id is written as the single letter C is not read as a vendor: its line begins like that of a
  class (src/names.c:355). By `UsbIdsText.VendorIsRead` every other spelling of every id is.
- A payload that is cut short by the end of the connection is submitted all the same
  (driver-libusb/stub_rx.c:455): `CommandClient.CutShort`.
- A status that goes through a packet descriptor keeps its meaning for four of the seven statuses:
  `IsoTransfers.StatusRoundTrip`.

## Model

| member | source | states |
|---|---|---|
| `Lists.ListHead.constructor` | include/list.h:31-35 | a new head is the ring of the empty list |
| `Lists.InsertBetween` | include/list.h:43-51 | the four pointer assignments of an insertion |
| `Lists.ListAdd` | include/list.h:61-64 | inserting behind any record of a ring gives the ring with the new entry at that place |
| `Lists.ListAddTail` | driver-libusb/stub_tx.c:36 | inserting behind the head's predecessor appends |
| `Lists.ListDel` | include/list.h:94-99 | deleting the entry at any position leaves the ring of the others, and the entry poisoned |
| `Lists.MoveToTail` | driver-libusb/stub_tx.c:90-91 | delete here and add there: both rings hold, one entry shorter and one longer, and share no record |
| `Lists.DrainList` | include/list.h:123-125 | the safe traversal with deletion ends, visits every entry once in order, and leaves an empty ring |
| `Lists.FindFirst` | include/list.h:114-115 | a traversal with a test finds the first entry that passes it, and nothing only if none does |
| `Lists.Traverse` | include/list.h:114-115 | a traversal meets every entry once, in order, and ends |
| `ListGroups.ListGroup.Move` | driver-libusb/stub_tx.c:132-138 | moving an entry between two of several lists changes these two as sequences and leaves the others as they were |
| `ListGroups.ListGroup.Append` | driver-libusb/stub_rx.c:337 | a new record becomes the last of one list; the others are as they were |
| `ListGroups.ListGroup.Delete` | driver-libusb/stub_tx.c:15 | one entry leaves one list; the others are as they were |
| `ListGroups.ListGroup.Drain` | driver-libusb/stub_tx.c:265-268 | one list is emptied in order; the others are as they were |
| `StubDevices.StubDevice.StubPrivAlloc` | driver-libusb/stub_rx.c:313-342 | a new pending entry at the end of priv_init; without memory null, an event, and no other change |
| `StubDevices.StubDevice.SetPrivTransfer` | driver-libusb/stub_rx.c:413-452 | the entry of this submit, and no other, gets the transfer |
| `StubDevices.StubDevice.InterceptRequest` | driver-libusb/stub_rx.c:469-478 | an intercepted request, completed without data, moves from priv_init to the end of priv_tx |
| `StubDevices.StubDevice.StubEnqueueRetUnlink` | driver-libusb/stub_tx.c:22-37 | a reply joins the end of unlink_tx, or an event is raised and nothing joins |
| `StubDevices.StubDevice.StubRecvCmdUnlink` | driver-libusb/stub_rx.c:209-287 | the first pending entry with the target's number takes the unlink's number, is marked and is returned to be cancelled; without one a reply is queued and there is nothing to cancel |
| `StubDevices.StubDevice.StubComplete` | driver-libusb/stub_tx.c:48-97 | a completed entry goes to priv_tx, or is replaced by a queued unlink reply that carries its number and status, or stays on a closed connection |
| `StubDevices.StubDevice.DequeueFromPrivTx` | driver-libusb/stub_tx.c:125-143 | the first entry of priv_tx goes to the end of priv_free and is returned; null exactly when there is none |
| `StubDevices.StubDevice.DequeueFromUnlinkTx` | driver-libusb/stub_tx.c:274-292 | the same for unlink_tx and unlink_free |
| `StubDevices.StubDevice.SendSubmits` | driver-libusb/stub_tx.c:161-268 | the loop sends the queue it finds in order; it frees all at the end, or stops at the send that fails and keeps that entry and those before |
| `StubDevices.StubDevice.StubSendRetSubmit` | driver-libusb/stub_tx.c:155-272 | all of it: what is on the wire, what the queues hold, the event, and the byte count as an int or -1 |
| `StubDevices.StubDevice.SendUnlinks` | driver-libusb/stub_tx.c:302-339 | the loop over the unlink replies, likewise |
| `StubDevices.StubDevice.StubSendRetUnlink` | driver-libusb/stub_tx.c:294-344 | all of it, for the unlink replies |
| `StubDevices.StubDevice.StubTxPass` | driver-libusb/stub_tx.c:365-388 | one turn of the tx loop: whether it goes on, the event, the queues and the replies, for any sends that fail and any byte counts |
| `UrbDrain.PassIsMachinePass` | driver-libusb/stub_tx.c:357-390 | when the sends succeed that turn is the pass of the machine: the same queues and the same replies, also when it ends the loop, and on to the next poll when that goes on |
| `StubDevices.StubDevice.StubPrivPop` | driver-libusb/stub_main.c:22-54 | it meets every entry of the three lists once, takes none away and returns null |
| `StubDevices.StubDevice.StubDeviceCleanupUnlinks` | driver-libusb/stub_main.c:78-96 | both unlink lists end up empty and the others are as they were |
| `UrbInvariant.StepInv` | driver-libusb/stub_rx.c:209-495 | each of the sixteen kinds of step keeps the invariant, whichever thread takes it |
| `UrbInvariant.RunInv` | driver-libusb/stub_tx.c:48-393 | the invariant holds after every run of rx, completions and tx, in any interleaving |
| `UrbAccounts.SubmitInOnePlace` | driver-libusb/stub_tx.c:82-93 | after any run, a submit that was taken is in exactly one of: pending, in priv_tx, dequeued and unsent, answered once, taken over by an unlink; a number that was not taken is in none |
| `UrbAccounts.UnlinkInOnePlace` | driver-libusb/stub_rx.c:233-284 | the same for an unlink: carried by the entry it hit, in unlink_tx, dequeued and unsent, answered once, or lost for lack of memory |
| `UrbAccounts.TakenOverByOne` | driver-libusb/stub_rx.c:233-241 | an unlink that changes the identity of an entry does so to a submit that was taken; no submit is taken over twice and no unlink takes two |
| `UrbAccounts.WireIsFifo` | driver-libusb/stub_tx.c:21-37 | the replies on the wire are those that entered their queue first, in that order, then the unsent one, then the queue |
| `UrbAccounts.OnOneListOrFreedOnce` | driver-libusb/stub_tx.c:10-19 | every stub_priv ever allocated is on exactly one list or was freed exactly once |
| `UrbAccounts.FreedOnlyWhenAnswered` | driver-libusb/stub_tx.c:248-269 | an entry is freed only after its reply went out whole, or when the reply that replaces it was queued or lost with an event; one whose send failed is held and not freed |
| `UrbAccounts.QueuedHaveTransfers` | driver-libusb/stub_tx.c:161-163 | the tx thread never meets an entry without a transfer: not queued, not in its hands, not on the wire |
| `UrbStatus.CompletionQueues` | driver-libusb/stub_tx.c:48-97 | on an open connection, what joins priv_tx is the completed entry with libusb's kind, length, data and packets; its status is libusb's own, except that an error is a completion when short reads count as errors. For an entry taken over, that status is queued as the confirmation of its unlink |
| `UrbStatus.ClosedQueues` | driver-libusb/stub_tx.c:82-84 | on a closed connection the entry stays in its place with that result |
| `UrbStatus.TakeoverQueues` | driver-libusb/stub_rx.c:218-262 | an unlink whose victim is pending changes the number and the mark of the first such entry, and nothing else |
| `UrbStatus.LateUnlinkQueues` | driver-libusb/stub_rx.c:278-284 | a late unlink is confirmed as completed |
| `UrbStatus.RunResults` | driver-libusb/stub_tx.c:48-97 | in every run each entry that was queued has the result of its own completion or interception, and each confirmation a reason |
| `UrbStatus.SubmitStatus` | driver-libusb/stub_tx.c:55-80 | after any run, the status of each RET_SUBMIT is 0 if and only if libusb completed this entry, failed it with an error while short reads count as errors, or the request was intercepted |
| `UrbStatus.UnlinkStatus` | driver-libusb/stub_tx.c:85-88 | each RET_UNLINK confirms a late unlink with 0, or an entry taken over, with 0 if and only if libusb completed that one with a success |
| `UrbOrder.LateUnlinkOrder` | driver-libusb/stub_tx.c:368-381 | in every run in which a late unlink is confirmed, the result of its submit precedes the confirmation if and only if not (still in priv_tx while tx is past its submits) |
| `UrbOrder.ResultBeforeLateUnlink` | driver-libusb/stub_tx.c:357-390 | it always does for a submit that is not intercepted, when completions come only while tx polls |
| `UrbOrder.InterceptedIsOvertaken` | driver-libusb/stub_rx.c:469-478 | a run in which an intercepted SET_INTERFACE is answered after its own late unlink |
| `UrbProtocol.SpecialRequests` | driver-libusb/stub_rx.c:12-63 | the requests that are intercepted, by the fields of their setup packets |
| `UrbDrain.PassIsRun` | driver-libusb/stub_tx.c:357-393 | the rest of a pass of the tx loop ends, and is a run of the machine |
| `UrbDrain.PassEnds` | driver-libusb/stub_tx.c:264-271 | from anywhere in a pass, it comes back to polling if and only if the bytes already counted with those still to be sent do not read negative |
| `UrbDrain.FullPass` | driver-libusb/stub_tx.c:362-390 | a pass sends what was queued, submits first, and frees it, stops before the unlinks when the submits' count reads negative, and comes back to polling if and only if neither count does |
| `UrbDrain.QuietPassDrains` | driver-libusb/stub_tx.c:155-344 | with nothing in flight, one such pass empties all five queues and leaves every command answered exactly once |
| `UrbDrain.Drain` | driver-libusb/stub_tx.c:346-393 | from any reachable state without an event, once libusb has completed everything and no command arrives: the pass under way comes back to polling if and only if PassContinues holds before it, and then one more pass drains, if and only if its own counts do not read negative |
| `UrbStops.EndedForGood` | driver-libusb/stub_tx.c:382-391 | a tx thread that has left its loop, by a send that failed or otherwise, sends nothing more and frees nothing more in any continuation |
| `UrbStops.LoopEndsSilently` | driver-libusb/stub_tx.c:271 | a run after which the tx loop has ended, no event was raised, the connection is open, and in no continuation is submit 3 answered |
| `WireCodec.NetIsOneToOne` | driver-libusb/stub_common.c:441-456 | four bytes and a word determine each other |
| `WireCodec.ByteOrder` | driver-libusb/stub_common.c:441-456 | on the wire the most significant byte comes first, on a little-endian host last |
| `WireCodec.EndianRoundTrip` | driver-libusb/stub_common.c:516-548 | converting for sending and after receiving are inverse on every 48 bytes, known command or not, on either kind of host |
| `WireCodec.WireIsHostIndependent` | driver-libusb/stub_common.c:516-548 | what a host sends is the words in network order, and what it receives from there is the words it sent |
| `WireCodec.SwapFive` | driver-libusb/stub_common.c:441-496 | five members in a row are converted and nothing else |
| `WireCodec.HeaderCorrectEndian` | driver-libusb/stub_common.c:516-548 | the conversion in place is CorrectEndian, with the command read before the swap or after it |
| `IsoTransfers.StatusRoundTrip` | driver-libusb/stub_common.c:382-419 | a status comes back as it was if and only if it is one of four; the other three come back as a stall, which is the same error |
| `IsoTransfers.ErrorRoundTrip` | driver-libusb/stub_common.c:382-419 | an error survives being stored as a status if and only if it is one of those that replies carry |
| `IsoTransfers.ErrorNumbers` | driver-libusb/stub_common.c:382-398 | a completion is 0, a cancellation -104, a lost device -108 and every other failure -32 |
| `IsoTransfers.StatusNumbers` | driver-libusb/stub_common.c:400-419 | the number that each status is read from; all others are read as an error |
| `IsoTransfers.FixupActualLength` | driver-libusb/stub_tx.c:145-153 | the sum of the actual lengths as the int it is added up in |
| `IsoTransfers.PacketsDisjoint` | driver-libusb/stub_tx.c:209-216 | the parts that are sent lie in the buffer and do not overlap |
| `IsoTransfers.AllocIsoDescPdu` | driver-libusb/stub_common.c:585-606 | the descriptors are those of the packets, with prefix sums as offsets and every word in network order |
| `IsoTransfers.DescriptorRoundTrip` | driver-libusb/stub_common.c:550-565 | descriptors are read back as they were written |
| `IsoTransfers.ScatterGather` | driver-libusb/stub_tx.c:200-216 | putting the gathered data back at the transmitted offsets restores every byte of every packet and touches no other |
| `IsoTransfers.DescriptorsAccepted` | driver-libusb/stub_common.c:609-657 | usbip_recv_iso accepts what usbip_alloc_iso_desc_pdu wrote, for any packets, and restores lengths exactly and statuses up to their error |
| `IsoTransfers.AcceptedBySum` | driver-libusb/stub_common.c:638-654 | descriptors are accepted if and only if there are none or their actual lengths add up, modulo 2^32, to the actual length of the transfer |
| `IsoTransfers.DescriptorOfPlace` | driver-libusb/stub_common.c:585-606 | a descriptor's offset is where the place of its packet begins in the buffer |
| `IsoTransfers.PayloadIsTransferred` | driver-libusb/stub_tx.c:200-216 | the payload is what was transferred into the place of each packet, in order, without the padding |
| `ReplySend.PackHeader` | driver-libusb/stub_tx.c:171-181 | the header in the memory of either kind of host becomes the words in network order |
| `ReplySend.SizeMismatch` | driver-libusb/stub_tx.c:218-229 | the sizes differ if and only if the actual lengths add up to 2^31 or more |
| `ReplySend.NoMismatch` | driver-libusb/stub_tx.c:218-229 | they never do when the packets fit into a buffer |
| `ReplySend.SlotsFit` | driver-libusb/stub_tx.c:166 | the vector of 2 + np slots is never too short, and an isochronous IN transfer fills it |
| `ReplySend.SlotsWritten` | driver-libusb/stub_tx.c:183-248 | every slot lies in the buffer, and together they write the reply |
| `ReplySend.GatherPackets` | driver-libusb/stub_tx.c:209-216 | the loop adds one slot a packet at its prefix-sum offset, and the size |
| `ReplySend.PackRetSubmit` | driver-libusb/stub_tx.c:162-246 | the vector and its size, and that it gives up if and only if there is no memory for the descriptors or the sizes differ |
| `ReplySend.PackRetUnlink` | driver-libusb/stub_tx.c:302-318 | one slot that writes the RET_UNLINK |
| `ReplyStream.Encode` | driver-libusb/stub_tx.c:99-123 | a reply takes the bytes that the tx loop counts for it |
| `ReplyStream.ReplyRoundTrip` | driver-libusb/stub_tx.c:171-262 | whatever follows it, a reply is read back as its header, payload and descriptors, and the reader stops at its end |
| `ReplyStream.StreamRoundTrip` | driver-libusb/stub_tx.c:171-331 | the concatenation of any list of replies decodes to exactly that list, for a client that knows direction, type and packet count by number |
| `ReplyStream.ReplyWords` | driver-libusb/stub_tx.c:99-123 | the twelve words of a header on the wire, by position |
| `ReplyStream.AnswerTells` | driver-libusb/stub_tx.c:99-116 | what the client reads: the number, the error of the status, the actual length and the packets of the transfer |
| `ReplyStream.PayloadIsData` | driver-libusb/stub_tx.c:189-197 | the payload of an IN reply that is not isochronous is the beginning of the data, without the 8 bytes in front of the data of a control transfer |
| `ReplyStream.PayloadIsPackets` | driver-libusb/stub_tx.c:200-216 | that of an isochronous one is what was transferred into the places of its packets |
| `UrbWire.WireNumbersDistinct` | driver-libusb/stub_tx.c:48-97 | in no run are two RET_SUBMITs sent for one number |
| `UrbWire.RunAgrees` | driver-libusb/stub_rx.c:406-452 | in every run, entries in libusb are set up, and with those past priv_init are what was noted under their number, unless an unlink took them over |
| `UrbWire.InFlightHaveTransfers` | driver-libusb/stub_rx.c:218-260 | an entry that libusb may complete, or an unlink may cancel, has its transfer |
| `UrbWire.RepliesExpected` | driver-libusb/stub_tx.c:99-116 | every RET_SUBMIT of a run has the number of a submit and is of the direction, type and packet count that were asked for under it |
| `UrbWire.RunIsDecodable` | driver-libusb/stub_tx.c:155-344 | after any run the bytes written so far decode to the replies sent so far, for a client that noted direction, type and packet count with each submit |
| `Sockets.UsbipRecv` | driver-libusb/stub_common.c:334-380 | it returns the size, 0 at the end of the connection or -1, and the data, as the bytes of the stream alone determine, for any pieces and interruptions |
| `Sockets.UsbipNetRecv` | src/usbip_network.c:62-75 | it gets all it asked for in any pieces unless the stream ends or a call is interrupted |
| `StubRx.UnpackIso` | driver-libusb/stub_common.c:638-643 | the loop restores the packets and adds up their actual lengths in an int |
| `StubRx.UsbipRecvIso` | driver-libusb/stub_common.c:609-657 | the descriptors are read and accepted as ReceiveIso says, with an event unless there was no memory for them |
| `StubRx.UsbipRecvXbuff` | driver-libusb/stub_common.c:659-682 | the payload, padded with zeros when the connection ends in it, and the event |
| `StubRx.StubRecvCmdSubmit` | driver-libusb/stub_rx.c:384-460 | what becomes of a submit and what is left of the stream: ignored, refused, abandoned or ready for libusb, with its buffer and packets, for any allocations that fail |
| `StubRx.ConvertedSubmit` | driver-libusb/stub_common.c:458-478 | the members of a converted header are those that were sent, setup packet included |
| `StubRx.StubRxPdu` | driver-libusb/stub_rx.c:498-551 | one PDU is handled as the bytes say, NOPs passed over |
| `StubRx.StubRxLoop` | driver-libusb/stub_rx.c:553-566 | the commands handled are a function of the bytes of the stream, whatever their pieces, the interruptions and the host, up to the test at which the loop is told to stop |
| `CommandClient.CommandRoundTrip` | driver-libusb/stub_rx.c:384-460 | whatever follows it, a well-formed command is taken as what it says, to its end; an event is raised exactly for a lack of memory and for packets whose actual lengths do not add up to 0 |
| `CommandClient.CommandWords` | driver-libusb/stub_common.h:150-229 | the words of a command on the wire, by position, with the setup packet behind those of a submit |
| `CommandClient.SubmitCarried` | driver-libusb/stub_rx.c:384-452 | a submit that reaches libusb has the number, flags, direction, endpoint with bit 0x80 for IN, type of the endpoint table, setup packet, data or zeroed room, and packets that the command says |
| `CommandClient.SubmitOutcome` | driver-libusb/stub_rx.c:384-460 | a submit is ignored, refused, abandoned or passed on, by its endpoint, its memory and the sum of its packets; an event goes exactly with those that are refused or abandoned |
| `CommandClient.DescriptorsUnread` | driver-libusb/stub_common.c:623-627 | without memory for the descriptors no event is raised and they are left in the stream as the next command |
| `CommandClient.GivenUpSilently` | driver-libusb/stub_rx.c:406-460 | a well-formed submit is given up without an event if and only if there is no room for its descriptors and memory for all else |
| `CommandClient.OnePacketIsLost` | driver-libusb/stub_common.c:623-627 | one submit of one packet to which this happens: given up without an event, its descriptor read as a header that never ends |
| `CommandClient.NopRoundTrip` | driver-libusb/stub_rx.c:525-528 | a NOP is as if it had not been sent |
| `CommandClient.CommandsRoundTrip` | driver-libusb/stub_rx.c:498-566 | any well-formed commands with NOPs anywhere are handled in order, up to one that ends the connection or the end of the stream |
| `CommandClient.CutShort` | driver-libusb/stub_rx.c:454-460 | a payload cut short is submitted padded with zeros if the connection was closed and no descriptors are due, and abandoned otherwise |
| `UrbCommands.OutcomesAreRun` | driver-libusb/stub_rx.c:384-495 | what the driver takes from an honest client is a legal run of the rx thread that logs every number where it belongs, up to a submit it gives up |
| `UrbCommands.RxAlone` | driver-libusb/stub_rx.c:553-566 | in any run the rx thread's own steps are a run, and take it and the numbers it logs to the same place |
| `UrbCommands.StreamIsRun` | driver-libusb/stub_rx.c:498-566 | from the bytes of any well-formed commands to every run that interleaves their steps with completions and the tx thread: all numbers are logged where they belong and the invariant holds |
| `UrbCommands.StreamHasRun` | driver-libusb/stub_rx.c:498-566 | for any such commands there is such a run |
| `UrbCommands.NotedIsKnown` | driver-libusb/stub_rx.c:406-452 | what is noted in such a run is what the driver made of the submits |
| `UrbCommands.ClientHas` | driver-libusb/stub_rx.c:384-452 | of every submit that reached libusb the dictionary that the client makes of its own commands has the request |
| `UrbCommands.StreamIsDecodable` | driver-libusb/stub_tx.c:155-344 | in every run for a client's commands, the bytes it reads decode to exactly the replies sent, with the dictionary it makes of its own commands: direction, whether the endpoint is isochronous, number of packets |
| `UrbCommands.ControlReply` | driver-libusb/stub_tx.c:192-195 | the reply to a control read brings what libusb put behind the setup packet that the client sent |
| `EventHandler.RunInv` | driver-libusb/stub_event.c:23-115 | the invariant of every interleaving of the handler and any number of threads that add events |
| `EventHandler.NothingIsLost` | driver-libusb/stub_event.c:96-115 | a pending event finds the semaphore free, about to be freed, or the handler past it; an event that was raised is shutting the connection down or in hand |
| `EventHandler.HandledOnce` | driver-libusb/stub_event.c:35-81 | the first batch that is not empty is the last; shutdown, reset and unusable are called in this order, once at most; a batch with UNUSABLE leaves the status at ERROR |
| `EventHandler.NeverStuck` | driver-libusb/stub_event.c:68-81 | with an event raised and every adder through, the handler can always go on |
| `EventHandler.ShutdownHappens` | driver-libusb/stub_event.c:35-101 | left alone it ends within 17 of its steps, having shut down |
| `EventDevices.BatchInOnePiece` | driver-libusb/stub_event.c:35-66 | event_handler in one piece is what its steps come to |
| `EventDevices.UsbipDevice.EventGet` | driver-libusb/stub_event.c:23-33 | it returns the pending events and clears them |
| `EventDevices.UsbipDevice.UsbipEventAdd` | driver-libusb/stub_event.c:109-115 | the event is added to those pending and the semaphore is free |
| `EventDevices.UsbipDevice.UsbipEventHappened` | driver-libusb/stub_event.c:117-127 | true if and only if an event is pending |
| `EventDevices.UsbipDevice.UsbipStopEh` | driver-libusb/stub_event.c:96-101 | the handler is to stop and the semaphore is free |
| `EventDevices.UsbipDevice.StubShutdown` | driver-libusb/usbip_host_driver.c:403-411 | both threads and the handler are to stop |
| `EventDevices.UsbipDevice.StubDeviceReset` | driver-libusb/usbip_host_driver.c:413-430 | AVAILABLE after a reset that succeeded, ERROR after one that failed |
| `EventDevices.UsbipDevice.StubDeviceUnusable` | driver-libusb/usbip_host_driver.c:432-437 | ERROR |
| `EventDevices.UsbipDevice.HandleEvents` | driver-libusb/stub_event.c:35-66 | the state after a batch, and -1 if and only if it held a BYE |
| `EventDevices.UsbipDevice.EventHandlerLoop` | driver-libusb/stub_event.c:68-81 | whatever other threads add before, during and after each batch, the first batch that holds events is handled and is the last; what came in meanwhile stays pending |
| `NumberHash.HashNum` | src/names.c:81-89 | the loop over the masks is the fold of the bits into four by strides of three, for any width |
| `NumberHash.HashIsLinear` | src/names.c:81-89 | the hash of an XOR is the XOR of the hashes |
| `NumberHash.HashBits` | src/names.c:81-89 | bit 0 of the hash of a number is its bit 0, and bits 1 to 3 are the XOR of every third of its other bits |
| `NumberHash.HashOf` | src/names.c:77-89 | a hash is below HASHSZ |
| `NameTables.NameTable.Lookup` | src/names.c:98-154 | a lookup returns exactly what the map has |
| `NameTables.NameTable.Insert` | src/names.c:203-304 | an insertion is that of a map that keeps the first name; a duplicate is rejected; every entry lies in its bucket and every number is there once |
| `NameTables.FirstNameWins` | src/names.c:203-304 | after any insertions a number is there if and only if it was inserted, with its first name |
| `UsbIds.NumbersAreOneToOne` | src/names.c:113-148 | comparing the packed numbers is comparing the ids, cut to their widths |
| `UsbIds.LineKeepsIntegrity` | src/names.c:306-487 | while what is open is stored, every kind of line keeps parents stored, memory or not |
| `UsbIds.LineOpensStored` | src/names.c:368-436 | what is open is stored after a line if and only if there was memory, or its entry is there already, or it opens nothing |
| `UsbIds.LineOrphans` | src/names.c:402-463 | a line breaks integrity if and only if it finds memory and its parent is not stored |
| `UsbIds.StoredIsListed` | src/names.c:368-436 | a vendor, class or subclass is stored if and only if some line with memory has listed it |
| `UsbIds.SectionIsOpen` | src/names.c:343-478 | which section is open depends on the lines alone; at most one is, and a subclass only in its class |
| `UsbIds.ParseKeepsIntegrity` | src/names.c:306-487 | for every file: after each line each product has its vendor, each subclass its class, each protocol its subclass, if and only if no line with memory comes under a parent that no line before it has listed with memory |
| `UsbIds.ParseKeepsGood` | src/names.c:306-487 | after each line integrity holds, at most one section is open, a subclass only in its class, and what is open is stored, if and only if memory runs out on harmless lines only |
| `UsbIds.MemoryKeepsIntegrity` | src/names.c:306-487 | when memory does not run out, that is so for every file |
| `UsbIds.OrphanedProduct` | src/names.c:394-413 | a file of two lines and a failed allocation that leave a product without its vendor |
| `UsbIds.ParseKeepsNames` | src/names.c:306-487 | a name that is stored is never changed or removed by later lines |
| `UsbIdsText.VendorIsRead` | src/names.c:386-401 | a number in hexadecimal, in either case and with any leading zeros, two spaces and a name are the line of that vendor, unless the number is written C |
| `UsbIdsText.ClassIsRead` | src/names.c:355-377 | the same with "C " in front for a class |
| `UsbIdsText.ItemIsRead` | src/names.c:402-412 | the same with one tab for a product or subclass |
| `UsbIdsText.ProtocolIsRead` | src/names.c:440-451 | the same with two tabs for a protocol |
| `UsbIdsText.TitleIsRead` | src/names.c:345-354 | an L line opens the languages and a HUT line the usages |
| `UsbIdsText.LastOpens` | src/names.c:343-401 | the open vendor or class is that of the last line that opens a section |
| `UsbIdsText.LastSubclass` | src/names.c:418-426 | the open subclass is that of the last item since the class began |
| `UsbIdsText.HoldsFirstListed` | src/names.c:306-487 | after any file each of the five tables holds exactly the numbers that some line with memory lists in the section open there, with the name of the first such line |
| `NamesIndex.Index.ParseOne` | src/names.c:317-486 | one turn of the loop on the five heap tables is that on five maps, for any allocation that fails |
| `NamesIndex.Index.Parse` | src/names.c:306-487 | the loop over any lines, likewise |
| `NamesIndex.Index.NamesProduct` | src/names.c:109-118 | a lookup by vendor and product id |
| `DeviceTables.CountEndpoints` | driver-libusb/usbip_host_driver.c:250-264 | the count is the number of endpoint descriptors |
| `DeviceTables.FillStubEndpoints` | driver-libusb/usbip_host_driver.c:210-228 | exactly so many places are written, in descriptor order, and no other |
| `DeviceTables.NewEndpoints` | driver-libusb/usbip_host_driver.c:282-305 | a table of the counted size is filled completely |
| `DeviceTables.GetEndpoint` | driver-libusb/usbip_host_driver.c:28-38 | the first endpoint with the number, or none |
| `DeviceTables.StubGetTransferType` | driver-libusb/usbip_host_driver.c:40-53 | 0 is control; else the first endpoint in the table with the number decides; 0xff without one |
| `DeviceTables.TypeIsUnique` | driver-libusb/usbip_host_driver.c:202-208 | the type is determined, never taken for unknown, and unknown if and only if no descriptor has the number |
| `DeviceTables.EndpointInTable` | driver-libusb/usbip_host_driver.c:202-228 | endpoint k of setting j of interface i is behind all those before it, with its number, direction and type |
| `DeviceTables.TypeOfDescriptor` | driver-libusb/usbip_host_driver.c:205-207 | the type is the low two bits of the attributes of the first descriptor with the number |
| `DeviceTables.ExportedAt` | driver-libusb/usbip_host_driver.c:344-363 | each usable device is exported, behind as many as are usable before it |
| `DeviceTables.ExportedIsUsable` | driver-libusb/usbip_host_driver.c:344-363 | a device is exported if and only if it is usable |
| `DeviceTables.ExportedCounted` | driver-libusb/usbip_host_driver.c:344-363 | as many devices are exported as are usable |
| `DeviceTables.ExportedDevices.Refresh` | driver-libusb/usbip_host_driver.c:327-366 | the list holds the devices that are no hubs and have a configuration, last first; the count is its length, on either failure too |
| `Devlist.ReplyRoundTrip` | src/usbipd_requests.c:132-172 | the reply decodes to the list that was sent: the count is the number of records and each record has its interfaces |
| `Devlist.RecordBytes` | include/usbip_network.h:43-61 | the members of a device record are at the places of the packed struct, numbers most significant byte first |
| `Devlist.InterfaceBytes` | include/usbip_network.h:36-41 | the four bytes of each interface record |
| `Devlist.ReplyBytes` | src/usbip_network.c:97-110 | a reply begins with version 1.1.1, code 5, status 0 and the number of devices |
| `Devlist.UsbipNetSend` | src/usbip_network.c:77-93 | in any pieces, all of the buffer goes out or -1 is returned and a beginning of it went out |
| `Devlist.SendInterfaces` | src/usbipd_requests.c:161-171 | the interface records of a device, all or a beginning of them |
| `Devlist.SendDevices` | src/usbipd_requests.c:149-172 | the device records, each followed by its interfaces, all or a beginning |
| `Devlist.SendReply` | src/usbipd_requests.c:135-172 | the header, the count and the records, all or a beginning of them |
| `Devlist.RecvRequestDevlist` | src/usbipd_requests.c:115-181 | nothing is sent when the devices cannot be listed; otherwise the reply for the refreshed list and its ndevs goes out whole, or a beginning of it |
| `Devlist.ReplyListsDevices` | src/usbipd_requests.c:126-172 | a reply that went out is read as exactly the usable devices, the last found first, and the reader stops at its end |

## Left out

- libusb, sockets, poll and threads themselves: statuses, interception, pieces, interruptions and failures are
  parameters.
- What libusb_cancel_transfer does to a transfer that completes meanwhile (driver-libusb/stub_rx.c:260).
- How the rx thread goes on after a failed submit or allocation of its own: its transfer may be freed while its
  entry is queued (driver-libusb/stub_rx.c:482-494).
- A negative packet count: libusb_alloc_transfer is taken to refuse it.
- Memory for a transfer of 2^27 or more packets: taken as not to be had; their descriptors have no size in an int.
- A control transfer whose length overflows an int together with its setup packet.
- Masking of transfer flags, and whether libusb carries a special request out: an oracle in UrbCommands.dfy.
- tx_waitq, which nobody waits on; the status race at the end of stub_start; several devices on one context.
- The write of fixup_actual_length to trx->actual_length shows in the encoded reply only, not in the queues.
- names_free, the pools of my_malloc, and files that cannot be opened.
- StubDevices.StubDevice.SendSubmits: other threads queue nothing while the loop runs; the interleavings are those of UrbProtocol.dfy.
- StubDevices.StubDevice.StubSendRetSubmit: nor do they here.
- StubDevices.StubDevice.SendUnlinks: nor here.
- StubDevices.StubDevice.StubSendRetUnlink: nor here.
- StubDevices.StubDevice.StubTxPass: nor here.
- UsbIds.ParseLine: characters above 127 and locales, because the source leaves them to the C library.
- src/usbipd.c, import requests, claiming and releasing of interfaces, debug output and string tables.
- A device list is a sequence in DeviceTables.dfy; its list_head links are those of Lists.dfy.

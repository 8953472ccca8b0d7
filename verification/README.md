# SRT: buffers, key rotation, cache and multiplexers

A model of the hard parts of the SRT library that the streaming tool carries in `srt/`, and proofs about it.

- **Receive buffer** (`CRcvBufferNew`): `RcvRing` is the ring of entries, updated in place. It is proved against the
  functions of `RcvWindow`, which work on the window of entries from the start position on; `RcvRingLayout` relates the
  two. `RcvWindowInvariant` holds what every operation keeps, `RcvMessages` and `RcvIndex` the index of messages readable
  out of order, `RcvFrontier` the in-order frontier, `RcvCounters` the counters. `RcvRun`, `RcvDelivery`, `RcvProgress`
  and `RcvStuck` are about whole runs in message mode, `RcvStream` about whole runs in stream mode; `RcvLaws` tells what
  each operation does by packet numbers alone.
- **Send buffer** (`CSndBuffer`): `SndRing` is the linked ring, proved against the functions of `SndQueue`;
  `SndMessages`, `SndRun` and `SndLaws` hold its properties. `EndToEnd` and `Transfer` join it with the receive buffer.
- **Key rotation** (HaiCrypt): `HaiCryptTx` and `HaiCryptRx` are the two sessions, proved against `KeyRotation`,
  `KmMessage` and `KeyAgreement`. `KeyWire` is about what a sender puts on the wire, `KeyAssertions` about the rates that
  keep the assertions, `KmLaws` about the answers to a message. `KeyWrap` is the key wrap in place, `RfcWrap` the
  definition of section 2.2.1 of RFC 3394 that it meets, `CtrStream` the counter stream.
- **Address cache** (`CCache`): `LruCache` is the list with its hash chains, proved against the plain list of
  `CacheRecency`.
- **Sockets and multiplexers** (`CUDTUnited`): `United` holds the calls, proved against the steps of `SocketTable`;
  `MuxCounts`, `MuxBindings`, `MuxChoice` and `SocketLaws` are about those steps and about whole runs.
- `SeqNo` is the arithmetic of circular sequence numbers, `Packets` what the buffers store.

What the code does not keep:

- After `readMessage` the frontier is not searched again. `RcvFrontier.ReadFirstFrontierIff` says exactly when it is left
  behind, `RcvProgress.ReadInTheEnd` what stays unread then, and `RcvStuck.MessageIsStuck` is a run where it happens.
- `readBufferTo` does not release fillers: `RcvWindowInvariant.ReadBufferKeepsInvIff` says exactly when the invariant is
  lost, `RcvWindowInvariant.ReaderStaysAtFiller` is an input. It takes one packet off the packet counter whatever it
  releases: `RcvCounters.ReadBufferExcess`, `RcvCounters.PacketCounterGoesWrong`.
- Dropped packets stay in the counters: `RcvCounters.RunExcess`.
- Without an announcement ahead the key rotation fails an assertion: `KeyAssertions.AssertionsHoldIff`.
- A socket that asks for the very address and settings of a multiplexer can be refused: `MuxChoice.MatchIsShared` says
  exactly when, `MuxChoice.MatchIsRefused` is a run where it happens.
- A repeated keying message is skipped even if one of its keys was replaced since: `KeyAgreement.RepeatIsSkipped`.
- The documentation of `dropMessage` includes the end of the range, the code stops before it; the model does as the code.

## Model

| member | source | states |
|---|---|---|
| `SeqNo.OffsetIsDistanceIff` | srt/srtcore/common.h:668-677 | the offset of two wrapped numbers is the distance of the unbounded ones exactly if it is below the threshold, or reaches it by at most two across zero |
| `SeqNo.ComparisonAgreesWithOffset` | srt/srtcore/common.h:639-677 | comparison, offset and length order any two numbers the same way; the offset is antisymmetric |
| `SeqNo.IncSeqWraps` | srt/srtcore/common.h:685-688 | adding to a wrapped number is adding to the unbounded one |
| `SeqNo.DecUndoesInc` | srt/srtcore/common.h:685-693 | adding and taking away undo each other |
| `SeqNo.IncFollowsOffset` | srt/srtcore/common.h:668-693 | adding or taking away the offset leads from one number to the other |
| `Transfer.ReadsWhatWasSubmitted` | srt/srtcore/buffer.cpp:231-336 | a whole transfer, any sender run, any losses, repeats and reordering, any receiver run: every read is one submitted message byte for byte as far as it fits, none twice, ordered ones before all later ones, and every packet stored was sent under its number |
| `Transfer.SubmittedIsRead` | srt/srtcore/buffer_rcv.cpp:308-413 | when every packet arrived inside the capacity, nothing was dropped and readMessage gives nothing more, every message that may be read out of order was read, and every message if the frontier is where a full scan would put it |
| `Transfer.OrderedIsRead` | srt/srtcore/buffer_rcv.cpp:308-413 | if all messages are to be read in order, every packet arrives inside the capacity and nothing is dropped, all of them were read once readMessage gives nothing more |
| `EndToEnd.ReadsAreSubmittedMessages` | srt/srtcore/buffer_rcv.cpp:308-413 | the same safety over any run of the receiver fed from the packets of the submitted messages |
| `RcvDelivery.AtMostOnce` | srt/srtcore/buffer_rcv.cpp:118-143 | over any run of arrivals, reads and drops, no packet is read twice, none is both read and given up, and what was read or given up is never stored again |
| `RcvDelivery.MessagesArriveWhole` | srt/srtcore/buffer_rcv.cpp:308-413 | every read delivers exactly one whole message, ordered ones before all later ones; the index of messages readable out of order is sound and complete in every reachable state |
| `RcvProgress.ReadInTheEnd` | srt/srtcore/buffer_rcv.cpp:308-413 | after any run in which every packet arrived inside the capacity and nothing was dropped, once readMessage gives nothing more: all unordered messages were read; everything was read if and only if the frontier is where a full scan would put it |
| `RcvProgress.OrderedAllRead` | srt/srtcore/buffer_rcv.cpp:308-413 | a stream of ordered messages is read to its end |
| `RcvStuck.MessageIsStuck` | srt/srtcore/buffer_rcv.cpp:389-402 | a run from the empty buffer after which a complete message stays at the start and cannot be read, because the frontier is not searched again after a read |
| `RcvIndex.InsertKeepsIndex` | srt/srtcore/buffer_rcv.cpp:775-817 | storing a packet keeps the index sound and complete |
| `RcvIndex.ReadAtKeepsIndex` | srt/srtcore/buffer_rcv.cpp:387-402 | so does a read |
| `RcvIndex.DropUpToKeepsIndex` | srt/srtcore/buffer_rcv.cpp:165-202 | so does a drop up to a number |
| `RcvIndex.DropMessageKeepsIndex` | srt/srtcore/buffer_rcv.cpp:247-258 | so does a drop of a message |
| `RcvMessages.UpdateCorrect` | srt/srtcore/buffer_rcv.cpp:847-908 | a search that finds something finds a complete unordered message, and finds one if there is any |
| `RcvMessages.OooOnInsertCorrect` | srt/srtcore/buffer_rcv.cpp:775-817 | the index after an insert points at the message completed by the packet, if it was completed |
| `RcvWindowInvariant.InsertKeepsInv` | srt/srtcore/buffer_rcv.cpp:107-163 | the ring invariant holds after every insert; after a successful one the frontier, searched from its old place only, is where a full scan would put it; a refused one changes nothing |
| `RcvWindowInvariant.DropUpToKeepsInv` | srt/srtcore/buffer_rcv.cpp:165-202 | the invariant holds after every drop up to a number, and the frontier is that of a full scan |
| `RcvWindowInvariant.DropMessageKeepsInv` | srt/srtcore/buffer_rcv.cpp:213-306 | the invariant holds after dropping a message, and a frontier that was that of a full scan still is |
| `RcvWindowInvariant.ReadAtKeepsInv` | srt/srtcore/buffer_rcv.cpp:308-413 | the invariant holds after every read: the frontier stays sound |
| `RcvWindowInvariant.ReadBufferKeepsInvIff` | srt/srtcore/buffer_rcv.cpp:443-517 | reading bytes keeps the invariant if and only if the read does not come to a filler, which is told from frontier, due times, lengths and room before the call |
| `RcvWindowInvariant.ReaderStaysAtFiller` | srt/srtcore/buffer_rcv.cpp:443-517 | an input where it does: the reader finds nothing more though a packet is stored, and an arrival does not help |
| `RcvFrontier.ReadFirstFrontierIff` | srt/srtcore/buffer_rcv.cpp:391-397 | after a read from the start the frontier is that of a full scan exactly unless fillers follow the message and a complete message follows them |
| `RcvFrontier.ReadMiddleFrontier` | srt/srtcore/buffer_rcv.cpp:360-397 | after a read out of order it always is |
| `RcvCounters.RunExcess` | srt/srtcore/buffer_rcv.cpp:674-681 | over runs of inserts and message reads the counters equal number and bytes of the packets stored; what was dropped is the only excess |
| `RcvCounters.InsertKeepsExcess` | srt/srtcore/buffer_rcv.cpp:107-163 | an insert counts exactly what it stores |
| `RcvCounters.ReadKeepsExcess` | srt/srtcore/buffer_rcv.cpp:345-389 | a message read takes off exactly what it removes |
| `RcvCounters.DropUpToAddsExcess` | srt/srtcore/buffer_rcv.cpp:165-202 | a drop leaves what it removed in the counters |
| `RcvCounters.DropMessageAddsExcess` | srt/srtcore/buffer_rcv.cpp:213-306 | so does a drop of a message |
| `RcvCounters.ReadBufferExcess` | srt/srtcore/buffer_rcv.cpp:443-517 | a byte read keeps the byte counter right, and the packet counter if and only if it takes exactly one packet to its end, told from the state before |
| `RcvCounters.PacketCounterGoesWrong` | srt/srtcore/buffer_rcv.cpp:443-517 | two inputs where the packet counter is wrong after a byte read |
| `RcvStream.BytesInOrder` | srt/srtcore/buffer_rcv.cpp:443-517 | in stream mode whatever arrives in whatever order is read as the bytes of the stream, from the first on, without gap or repetition |
| `RcvRingLayout.IsInRangeIffOffset` | srt/srtcore/buffer_rcv.cpp:37-50 | the range test of positions is a test of offsets |
| `RcvRing.RcvBuffer.constructor` | srt/srtcore/buffer_rcv.cpp:76-92 | an empty window |
| `RcvRing.RcvBuffer.Insert` | srt/srtcore/buffer_rcv.cpp:107-163 | the new window, frontier, index and counters and the result code for every packet |
| `RcvRing.RcvBuffer.DropUpTo` | srt/srtcore/buffer_rcv.cpp:165-202 | what a drop up to a number leaves, and how many positions it passed |
| `RcvRing.RcvBuffer.DropAll` | srt/srtcore/buffer_rcv.cpp:204-211 | the same for the whole window |
| `RcvRing.RcvBuffer.DropMessageByMsgno` | srt/srtcore/buffer_rcv.cpp:213-258 | every stored packet with the number becomes a filler; frontier and index follow |
| `RcvRing.RcvBuffer.DropMessageByRange` | srt/srtcore/buffer_rcv.cpp:260-306 | the same for positions of a range, its end excluded, solo packets spared |
| `RcvRing.RcvBuffer.ReadMessage` | srt/srtcore/buffer_rcv.cpp:308-413 | the message that is copied out, what becomes of its entries, and the state after it |
| `RcvRing.RcvBuffer.ReadBufferTo` | srt/srtcore/buffer_rcv.cpp:443-517 | the bytes read and the state after them, and exactly when the invariant is lost |
| `RcvRing.RcvBuffer.Destroy` | srt/srtcore/buffer_rcv.cpp:94-105 | every unit still held is freed |
| `RcvRing.RcvBuffer.ReleaseUnitInPos` | srt/srtcore/buffer_rcv.cpp:683-689 | the unit is freed exactly once |
| `RcvRing.RcvBuffer.DropUnitInPos` | srt/srtcore/buffer_rcv.cpp:691-707 | the unit is freed, the count of unordered packets and the index follow |
| `RcvRing.RcvBuffer.ReleaseNextFillerEntries` | srt/srtcore/buffer_rcv.cpp:709-722 | the leading fillers are released |
| `RcvRing.RcvBuffer.UpdateNonreadPos` | srt/srtcore/buffer_rcv.cpp:725-758 | the frontier a scan from the old one finds |
| `RcvRing.RcvBuffer.OnInsertNotInOrderPacket` | srt/srtcore/buffer_rcv.cpp:775-817 | the index after an unordered packet was stored |
| `RcvRing.RcvBuffer.CheckFirstReadableOutOfOrder` | srt/srtcore/buffer_rcv.cpp:819-845 | whether the index still points at a stored message |
| `RcvRing.RcvBuffer.UpdateFirstReadableOutOfOrder` | srt/srtcore/buffer_rcv.cpp:847-908 | the first unordered message complete in the window, if any |
| `RcvRing.RcvBuffer.SearchReadableOutOfOrder` | srt/srtcore/buffer_rcv.cpp:866-905 | the search alone; it ends because the unordered packets are counted |
| `RcvRing.RcvBuffer.ScanNotInOrderMessageRight` | srt/srtcore/buffer_rcv.cpp:910-939 | the last packet of the message to the right, if it is complete on that side |
| `RcvRing.RcvBuffer.ScanNotInOrderMessageLeft` | srt/srtcore/buffer_rcv.cpp:941-970 | the first packet of the message to the left |
| `RcvLaws.InsertIs` | srt/srtcore/buffer_rcv.cpp:107-163 | for every state and packet: it is stored if and only if its offset lies inside the capacity and its entry is free, in that entry and changing no other; each of the three refusals has its code and changes nothing |
| `RcvLaws.EventLaw` | srt/srtcore/buffer_rcv.cpp:107-413 | what every event does, by packet numbers: which packets are gone after it, and that those stored after it are exactly those stored before and the one that arrived inside the capacity, less what is gone |
| `RcvLaws.ReadMessageLaw` | srt/srtcore/buffer_rcv.cpp:308-413 | the bytes and the state that a call returns: one whole message of the stream as far as it fits, the first one if any is readable in order, all of whose packets were stored and are gone; or nothing, when nothing is readable |
| `RcvLaws.DropUpToReturns` | srt/srtcore/buffer_rcv.cpp:165-202 | a drop up to a number returns how many positions it passed |
| `RcvLaws.DropMessageReturns` | srt/srtcore/buffer_rcv.cpp:213-258 | dropping a message returns how many of its packets were stored |
| `RcvLaws.DropRangeReturns` | srt/srtcore/buffer_rcv.cpp:260-306 | dropping a range returns how many positions were not spared |
| `RcvProgress.TakenStays` | srt/srtcore/buffer_rcv.cpp:107-163 | a packet that arrives inside the capacity at any time of a run is stored or gone ever after |
| `RcvWindowInvariant.ReadsWhatIsDue` | srt/srtcore/buffer_rcv.cpp:452-500 | reading bytes reads no packet that is not due |
| `RcvWindowInvariant.ReadingStops` | srt/srtcore/buffer_rcv.cpp:452-500 | it stops only when nothing more is in order, no room is left, or the next packet is not due |
| `SndRun.WireCarriesTheStream` | srt/srtcore/buffer.cpp:231-336 | over any run of submitting, acknowledging, dropping and sending, what is handed out under a number is the packet of that number in the stream of all messages, new packets in their order and once each; length and bytes of the queue are right |
| `SndRun.LateDropsWholeMessages` | srt/srtcore/buffer.cpp:706-742 | after any run, dropping late packets removes exactly the longest late prefix and leaves whole messages, and reports the number of the first message left |
| `SndRun.StaleDropsWholeMessage` | srt/srtcore/buffer.cpp:560-588 | after any run, a stale packet asked for again gives up all that follows of its message, and the current pointer becomes the later of itself and that boundary |
| `SndMessages.ReadAgainIs` | srt/srtcore/buffer.cpp:521-612 | offset k is packet k: stale if and only if its time to live is over, else handed out with nothing changed but its time of sending; beyond the queue there is none |
| `SndLaws.NothingIsSkipped` | srt/srtcore/buffer.cpp:408-464 | after any run every packet that sending came past was acknowledged or dropped, handed out, or passed |
| `SndLaws.PassedWithReason` | srt/srtcore/buffer.cpp:431-456 | a step passes a packet only because its time to live was over, it could not be encrypted, or its message was given up as stale |
| `SndLaws.SendsTheNext` | srt/srtcore/buffer.cpp:408-464 | the current packet is handed out under its number with the key flags given, unless its time to live is over |
| `SndLaws.SentAgainAsFirst` | srt/srtcore/buffer.cpp:422-441 | after any run a packet sent again carries the key flags it was first sent with |
| `SndLaws.AddReplyIs` | srt/srtcore/buffer.cpp:231-336 | the control data handed back: message number, next sequence number and time of the packets submitted |
| `SndLaws.GrownJustEnough` | srt/srtcore/buffer.cpp:247-253 | the ring grows by whole units and no more than it needs |
| `EndToEnd.NumberAtIs` | srt/srtcore/buffer.cpp:326-335 | message numbers count from 1 and start again after the highest |
| `SndMessages.FragmentsRejoin` | srt/srtcore/buffer.cpp:284-319 | the payloads of the packets of a message are the message |
| `SndMessages.FragmentsOrderly` | srt/srtcore/buffer.cpp:284-319 | the packets of a message follow each other: numbers, boundary bits, one message number and flag |
| `SndMessages.AddKeepsOrderly` | srt/srtcore/buffer.cpp:231-336 | submitting keeps the queue a row of whole messages numbered in turn |
| `SndMessages.ReadNewShape` | srt/srtcore/buffer.cpp:408-464 | what is handed out first: the packets passed, the one handed out, and that packets only get their key flags |
| `SndMessages.ReadNewSkips` | srt/srtcore/buffer.cpp:412-464 | skipped are exactly the packets before the first whose time to live was not over when the clock was read for it |
| `SndMessages.ExpiredIff` | srt/srtcore/buffer.cpp:450-460 | a time to live is over once one more than its milliseconds has passed |
| `SndQueue.FragmentAt` | srt/srtcore/buffer.cpp:284-319 | what packet i of a message is |
| `SndQueue.PieceCountIs` | srt/srtcore/buffer.cpp:237-240 | how many packets a message takes |
| `SndQueue.AddKeeps` | srt/srtcore/buffer.cpp:247-330 | submitting keeps the counters right and room for the end marker |
| `SndRing.SndBuffer.constructor` | srt/srtcore/buffer.cpp:165-207 | an empty ring of linked blocks |
| `SndRing.SndBuffer.Increase` | srt/srtcore/buffer.cpp:744-806 | new blocks are linked in wherever the ring wraps; contents and order stay, and so do first, current and last |
| `SndRing.SndBuffer.MakeRoom` | srt/srtcore/buffer.cpp:247-253 | the ring grows until there is room; the loop ends |
| `SndRing.SndBuffer.AddBuffer` | srt/srtcore/buffer.cpp:231-336 | the queue with the packets of the message appended, and the control data handed back |
| `SndRing.SndBuffer.ReadData` | srt/srtcore/buffer.cpp:408-464 | the next packet whose time to live is not over, stamped, and the skipped ones |
| `SndRing.SndBuffer.ReadDataAgain` | srt/srtcore/buffer.cpp:521-612 | the packet at an offset, or its whole message reported as stale |
| `SndRing.SndBuffer.AckData` | srt/srtcore/buffer.cpp:631-649 | the first packets are removed; the current pointer becomes the later of itself and the new first |
| `SndRing.SndBuffer.DropLateData` | srt/srtcore/buffer.cpp:706-742 | the late packets are removed, with their number, bytes and the next message number |
| `SndRing.Rotate` | srt/srtcore/buffer.cpp:631-649 | a ring seen from another of its blocks is a ring |
| `SndRing.Join` | srt/srtcore/buffer.cpp:780-806 | three rows of blocks linked to one another make a ring |
| `KeyWrap.UnwrapWrap` | srt/haicrypt/cryspr.c:144-231 | for every permutation of blocks and every key of a length that is a multiple of eight, unwrapping a wrapped key gives the key |
| `KeyWrap.WrapUnwrap` | srt/haicrypt/cryspr.c:186-231 | whatever is accepted is what its key wraps to |
| `RfcWrap.WrapIsStandard` | srt/haicrypt/cryspr.c:144-184 | for every block cipher the indexed loops compute what section 2.2.1 of RFC 3394 defines with shifting registers, initial value included |
| `KeyWrap.WrapInjective` | srt/haicrypt/cryspr.c:144-184 | different keys wrap differently |
| `KeyWrap.PassesUndone` | srt/haicrypt/cryspr.c:144-231 | six passes counted up are undone by six passes counted down |
| `KeyWrap.MaskIsCounter` | srt/haicrypt/cryspr.c:172-178 | the bytes xored in are the counter, most significant first |
| `KeyWrap.WrapKey` | srt/haicrypt/cryspr.c:144-184 | the nested loops over the buffers in place give the wrapped key; which lengths are refused |
| `KeyWrap.UnwrapKey` | srt/haicrypt/cryspr.c:186-231 | the loops in place give the key or refuse, and the output is cleared then |
| `KmMessage.AssembledParses` | srt/haicrypt/hcrypt_ctx_rx.c:55-197 | a keying message assembled with the even key, the odd key or both is accepted, and each key is installed in the context of its own parity, whichever context was used last |
| `KmMessage.ParsedAgain` | srt/haicrypt/hcrypt_ctx_rx.c:69-197 | processing the same message once more changes nothing |
| `KmLaws.ParseKMLaw` | srt/haicrypt/hcrypt_ctx_rx.c:55-197 | each answer to a message has its condition: refused if and only if lengths or options are wrong, accepted if and only if it holds keys wrapped with the key it selects, which are set then, and of another secret otherwise, changing no key |
| `KmLaws.ReceiveKMLaw` | srt/haicrypt/hcrypt_rx.c:64-144 | the same for whatever arrives as a message, with the cached ones, the packets and the refused ones |
| `KmMessage.AssembledShows` | srt/haicrypt/hcrypt_ctx_tx.c:276-332 | every field of an assembled message is found where the receiver looks for it |
| `KeyWire.RotationIsSafe` | srt/haicrypt/hcrypt_ctx_tx.c:334-380 | over every run of packets: the current context is the only active one, the next packet meets the assertions, no key encrypts more than the refresh rate and one packets, and every key is announced for exactly as many packets as configured before its first one |
| `KeyWire.AnnouncedWhenDue` | srt/haicrypt/hcrypt_ctx_tx.c:382-420 | when the announcing period is over the announced message goes out again, before the packet |
| `KeyWire.SilentOtherwise` | srt/haicrypt/hcrypt_ctx_tx.c:382-420 | otherwise only packets go out, but for the message that announces a new key |
| `KeyAssertions.AssertionsHoldIff` | srt/haicrypt/hcrypt_ctx_tx.c:245-257 | for any rates with the announcement not above the refresh rate: the assertions hold in every run if and only if a key is announced at least one packet ahead |
| `KeyAssertions.NoAnnouncementFails` | srt/haicrypt/hcrypt_ctx_tx.c:245-257 | the run from a new session whose next packet fails the assertion of the switch, without any announcement ahead |
| `KeyAssertions.ManagingTwiceSwitchesBack` | srt/haicrypt/hcrypt_ctx_tx.c:334-350 | managing the keys twice before a packet switches back to the replaced key |
| `KeyAgreement.KeysAgree` | srt/haicrypt/hcrypt_ctx_rx.c:120-197 | whatever arrives of what any sender run sent, in any order and any number of times: if a message with its key was received, and since the first such message none that replaces it, a packet is decrypted with its key and salt |
| `KeyAgreement.DecryptsWhatIsHeld` | srt/haicrypt/hcrypt_ctx_rx.c:120-197 | exactly which packets decrypt then: those of the keys of the messages that were not skipped |
| `KeyAgreement.KeysAgreeInOrder` | srt/haicrypt/hcrypt_rx.c:64-144 | with messages in their order, a packet decrypts if and only if a message with its key arrived and none with a later key for the same context |
| `KeyAgreement.InOrderAllDecrypt` | srt/haicrypt/hcrypt_rx.c:25-62 | over a channel that keeps the order and loses packets but no messages, every packet that arrives decrypts |
| `KeyAgreement.KmInjective` | srt/haicrypt/hcrypt_ctx_tx.c:276-332 | messages with the same bytes introduce the same keys |
| `KeyAgreement.RepeatIsSkipped` | srt/haicrypt/hcrypt_rx.c:116-134 | a late repeat of a message is skipped and does not bring back the key it introduced |
| `KeyAgreement.CreateHas` | srt/haicrypt/hcrypt.c:110-179 | a new receiver holds no key |
| `HaiCryptTx.TxSession.constructor` | srt/haicrypt/hcrypt.c:110-179 | the even context keyed, active and announced, the odd one ready |
| `HaiCryptTx.TxSession.TxRefresh` | srt/haicrypt/hcrypt_ctx_tx.c:172-221 | a new key in the other context, in a message with both keys |
| `HaiCryptTx.TxSession.TxPreSwitch` | srt/haicrypt/hcrypt_ctx_tx.c:227-243 | the new key is announced, by the message with both keys alone |
| `HaiCryptTx.TxSession.TxSwitch` | srt/haicrypt/hcrypt_ctx_tx.c:245-257 | the other context becomes active and current |
| `HaiCryptTx.TxSession.TxPostSwitch` | srt/haicrypt/hcrypt_ctx_tx.c:259-273 | the replaced context is released, the message is assembled anew with one key |
| `HaiCryptTx.TxSession.TxManageKM` | srt/haicrypt/hcrypt_ctx_tx.c:334-395 | which of these steps a packet count leads to, and what the timer makes due |
| `HaiCryptTx.TxSession.TxInjectKM` | srt/haicrypt/hcrypt_ctx_tx.c:397-420 | the messages that are due, once each |
| `HaiCryptTx.TxSession.TxProcess` | srt/haicrypt/hcrypt_tx.c:128-176 | manage, inject, encrypt, count |
| `HaiCryptTx.Context.AsmKM` | srt/haicrypt/hcrypt_ctx_tx.c:276-332 | the bytes of the message |
| `HaiCryptRx.RxSession.constructor` | srt/haicrypt/hcrypt.c:110-179 | two contexts without a key |
| `HaiCryptRx.RxSession.RxParseKM` | srt/haicrypt/hcrypt_ctx_rx.c:55-197 | refused, unmatched or installed, with the contexts as they are then |
| `HaiCryptRx.RxSession.RxProcess` | srt/haicrypt/hcrypt_rx.c:64-144 | what is taken for a packet, what is refused, and which messages are parsed or skipped |
| `HaiCryptRx.RxSession.RxData` | srt/haicrypt/hcrypt_rx.c:25-62 | the context that the key flag names is used |
| `CtrStream.NoBlockRepeats` | srt/haicrypt/hcrypt.h:136-149 | over any sender run and from any first sequence number, no two packets and no two blocks of one packet meet in a counter block under one key (section 6.5 of NIST SP 800-38A) |
| `CtrStream.CounterBlockInjective` | srt/haicrypt/cryspr.c:358-370 | under one nonce a counter block names its packet index and block number |
| `CtrStream.IvInjective` | srt/haicrypt/hcrypt.h:136-140 | different packet indexes give different initial vectors |
| `CtrStream.BlockParts` | srt/haicrypt/cryspr.c:364-370 | the counter counts in two bytes and leaves the others |
| `CtrStream.PacketsCounted` | srt/srtcore/common.h:679-688 | two packets under one key are no further apart than that key has packets |
| `CtrStream.BlocksAt` | srt/haicrypt/cryspr.c:358-370 | sixteen bytes of the stream are one counter block, each the next one |
| `CtrStream.IvBytes` | srt/haicrypt/hcrypt.h:136-149 | the bytes of the initial vector: nonce, packet index and a counter from zero |
| `CtrStream.BuildStream` | srt/haicrypt/cryspr.c:329-376 | the counter blocks in a row, and which packets are too long |
| `CtrStream.SetCtrIv` | srt/haicrypt/hcrypt.h:136-149 | the initial vector, built in place |
| `CacheRecency.LeastRecentlyUsed` | srt/srtcore/cache.h:103-193 | after any updates a lookup gives the block last stored for the host if and only if fewer than the size less one other hosts were updated since |
| `CacheRecency.CacheIsPrefix` | srt/srtcore/cache.h:131-193 | a cache that evicts holds what one that never forgets has in front |
| `CacheRecency.SameKeyIff` | srt/srtcore/cache.cpp:65-105 | blocks are equal exactly if they are of one host, and then have one hash key |
| `CacheRecency.GetKeyIs` | srt/srtcore/cache.cpp:99-105 | the hash key is the sum of the address words in 32 bits with a sign, and which IPv4 addresses are refused |
| `LruCache.Removed` | srt/srtcore/cache.h:152-160 | taking an entry out of list and chain keeps them in agreement |
| `LruCache.Pushed` | srt/srtcore/cache.h:164-167 | putting an entry in front of both does, too |
| `LruCache.Cache.constructor` | srt/srtcore/cache.h:83-91 | an empty list and empty chains |
| `LruCache.Cache.Lookup` | srt/srtcore/cache.h:103-125 | the block that the list alone has for the key |
| `LruCache.Cache.Update` | srt/srtcore/cache.h:131-193 | list and chains hold the same entries, once each and where their key leads to; the list is updated as the plain one |
| `LruCache.Cache.EvictOldest` | srt/srtcore/cache.h:169-190 | the last entry leaves both; the two ways to reduce the key agree |
| `LruCache.Cache.MoveToFront` | srt/srtcore/cache.h:146-160 | an entry found is replaced and moved in both |
| `LruCache.Cache.Clear` | srt/srtcore/cache.h:207-218 | nothing is left |
| `MuxCounts.CountsAreExact` | srt/srtcore/api.cpp:2688-2801 | in every reachable state each multiplexer counts exactly the open and closed sockets that name it and has at least one, the multiplexer a socket names exists, every live socket names one, and no socket is both open and closed |
| `MuxCounts.GoesWithLast` | srt/srtcore/api.cpp:2772-2800 | removing a socket removes a multiplexer if and only if no other socket names it; it is never missing |
| `MuxCounts.ExitReleasesAll` | srt/srtcore/api.cpp:3092-3169 | after the global exit, once all closed sockets were collected, nothing is left |
| `MuxCounts.ConnectedKeeps` | srt/srtcore/api.cpp:595-840 | however a connection request ends the counts are exact, and an accepted socket shares the multiplexer of its listener |
| `MuxCounts.ExactDrop` | srt/srtcore/api.cpp:2772-2800 | dropping one user keeps the counts exact, and the multiplexer goes exactly with its last one |
| `MuxBindings.BindingsStayApart` | srt/srtcore/api.cpp:2827-3005 | as long as sockets are bound by address, no two multiplexers are ever bound where they would be in each other's way |
| `MuxBindings.FoundedApart` | srt/srtcore/api.cpp:2827-3005 | a multiplexer is founded only where none is in the way |
| `MuxChoice.ChoiceMeans` | srt/srtcore/api.cpp:2834-2948 | a socket shares a multiplexer only with the same port, address and settings and where reuse is allowed; it is refused only if one overlaps that cannot be shared; it gets its own only if none overlaps |
| `MuxChoice.SharedIff` | srt/srtcore/api.cpp:2834-2948 | a multiplexer that could be shared is, if and only if none before it overlaps |
| `MuxChoice.MatchIsShared` | srt/srtcore/api.cpp:2834-2948 | in every reachable state a socket that asks for the address and settings of a multiplexer shares it, unless a wildcard of the other family comes before it on the port: exactly then it is refused |
| `MuxChoice.MatchIsRefused` | srt/srtcore/api.cpp:2868-2878 | a run after which such a socket is refused |
| `SocketLaws.BacklogHolds` | srt/srtcore/api.cpp:534-540 | in every reachable state no more sockets wait at a listener than its backlog |
| `SocketLaws.RequestMakes` | srt/srtcore/api.cpp:471-840 | what a connection request makes: an open socket in the queue that shares the multiplexer of its listener, a closed one, or none, and when |
| `SocketLaws.CollectMoves` | srt/srtcore/api.cpp:2575-2633 | a round of the collector closes exactly the broken sockets that nothing keeps open, and takes them from the queues |
| `SocketLaws.RemoveClosesQueue` | srt/srtcore/api.cpp:2720-2745 | the sockets that wait at a listener are closed with it; the others stay |
| `SocketLaws.CloseIs` | srt/srtcore/api.cpp:1945-2104 | what closing does to the socket and to all others |
| `SocketLaws.StepMoves` | srt/srtcore/api.cpp:904-1877 | statuses move only along the allowed ways, and a bound socket never gets another multiplexer |
| `United.CUDTUnited.UpdateMux` | srt/srtcore/api.cpp:2803-3005 | shared, refused or founded: the first multiplexer in order that decides, and the books after it |
| `United.CUDTUnited.FindMux` | srt/srtcore/api.cpp:2834-2948 | the first multiplexer in the order of identifiers that may be shared or is in conflict |
| `United.CUDTUnited.Bind` | srt/srtcore/api.cpp:904-920 | which sockets can be bound, and the books after it |
| `United.CUDTUnited.Attach` | srt/srtcore/api.cpp:922-949 | the same with a channel of the caller |
| `United.CUDTUnited.ConnectIn` | srt/srtcore/api.cpp:1815-1877 | a socket not bound yet is bound first |
| `United.CUDTUnited.UpdateListenerMux` | srt/srtcore/api.cpp:3012-3090 | one user more for the multiplexer of the listener |
| `United.CUDTUnited.NewConnection` | srt/srtcore/api.cpp:471-840 | repeated, refused, failed and accepted requests |
| `United.CUDTUnited.Close` | srt/srtcore/api.cpp:1945-2104 | listeners are only marked, other sockets go to the closed ones |
| `United.CUDTUnited.RemoveSocket` | srt/srtcore/api.cpp:2688-2801 | the waiting sockets of a listener are closed, the socket is deleted, its multiplexer released |
| `United.CUDTUnited.CheckBrokenSockets` | srt/srtcore/api.cpp:2544-2685 | broken sockets leave the queues of their listeners and are closed; closed ones whose time is over are removed |
| `United.CUDTUnited.MoveAll` | srt/srtcore/api.cpp:3112-3145 | at the exit every open socket is broken and moved |

## Left out

Contracts that say less than one might want:

- RcvRing.RcvBuffer.DropMessageByRange: requires the low number inside the window and the high one below the size; beyond that the code marks entries outside the window.
- RcvRing.RcvBuffer.ReadBufferTo: requires the read offset to lie inside the first stored packet, since a drop does not reset it; the destination is returned as a sequence instead of being handed to a copying function.
- RcvRing.RcvBuffer.ReadMessage: the destination is returned as a sequence, and the control data copied along with it is not modelled.
- RcvDelivery.MessagesArriveWhole: is about message mode without play times; with them messages are not read out of order, and only RcvDelivery.AtMostOnce and the invariants apply.
- RcvProgress.ReadInTheEnd: is about runs in which nothing was dropped.
- SndRing.SndBuffer.AddBuffer: the bytes of a block are a sequence, not a part of a shared physical buffer; boundary bits, order flag and message number are separate fields instead of one word.
- SndRun.LateDropsWholeMessages: the sender numbers its messages itself; a number given by the caller is taken by SndQueue.Add but not followed over runs.
- SndRing.SndBuffer.ReadData: encryption of the payload when a packet is first handed out is not modelled, only the key flags.
- KeyWrap.UnwrapKey: the length 0 is not passed, since 8 is taken from an unsigned length before it is checked.
- KeyAgreement.ReceiveKM: the key flags of what is not a keying message are those of a little-endian host; a message too short for a header is refused before it is read.
- KeyWire.RotationIsSafe: follows HaiCrypt_Tx_Process, with encryption that succeeds; fresh keys are assumed to differ, and the rates to be those of the configuration checks (the announcement at least one packet and less than half the refresh rate).
- HaiCryptRx.RxSession.RxData: decryption is abstract: it succeeds when the context holds the key and salt of the packet.
- United.CUDTUnited.UpdateListenerMux: the search by port for a listener without a multiplexer is left out; MuxCounts.CountsAreExact shows that it is never reached.
- United.CUDTUnited.UpdateMux: addresses of two families are never taken for equal; what the system binds to is a parameter.
- United.CUDTUnited.CheckBrokenSockets: clocks, unread data and the lists of the workers are parameters; sockets are values in the two maps rather than shared objects, and the marked ones are moved after the first loop instead of during it.
- United.CUDTUnited.NewConnection: the record of peers is a parameter.
- MuxBindings.BindingsStayApart: does not cover sockets bound to a channel of the caller, for which the library makes no check.
- LruCache.Cache.Update: a node of the list is its entry; list iterators as such are not modelled.

Not modelled at all:

- Play time and drift are a function of the packet; `getTimespan_ms`, average sizes and rate estimators are left out.
- The file variants `readBufferToFile` and `addBufferFromFile`, and the accessors `getMsgNoAt`, `peekNextOriginal` and `getPacketRexmitTime`.
- The older receive buffer of `buffer.cpp`, which is not compiled in.
- The counters are unbounded numbers, except for the packet count of a key and sequence and message numbers.
- Random numbers, key derivation and the block cipher are parameters; the crypto libraries are left out.
- `HaiCrypt_Clone`, and decryption outside the libraries.
- `HaiCrypt_Tx_ManageKeys` followed by `HaiCrypt_Tx_Data` takes the same steps as `HaiCrypt_Tx_Process` if called once per packet; KeyAssertions.ManagingTwiceSwitchesBack shows what happens otherwise.
- `CCache::setSizeLimit`, which resizes the table without moving the entries.
- Groups of sockets, the epoll sets, the peer records, and the handshake.
- Threads: every call is one step.

# Verified models of a collection of C++ study projects

The repository collects study projects. This project models the ones that are state
machines, codecs or concurrent structures, and proves what they are for:

- **sigslot** (`Signal.dfy`, `SlotGroups.dfy`, `SignalThreads.dfy`, `SignalRuns.dfy`,
  `SignalEvents.dfy`, `SignalExamples.dfy`): the slot list of a signal, once as an object changed in place,
  once as a machine of atomic steps over reference-counted, copy-on-write payloads in
  which any number of threads and re-entrant callbacks interleave, with what its runs
  mean for one slot.
- **The SMB2 client** (`Smb2Engine.dfy`, `Smb2Header.dfy`, `Smb2Compound.dfy`,
  `Smb2Receive.dfy`, `SocketRead.dfy`, `SocketWrite.dfy`, `Smb2Examples.dfy`, `ReadWrite.dfy`, `Smb2Signing.dfy`, `Cmac.dfy`): message ids, queues
  and credits over whole runs; compound chains on the wire; the receive machine over a
  byte stream; request sizes and charges; signatures.
- **Wire codecs** (`Bytes.dfy`, `SecurityDescriptor.dfy`, `Utf.dfy`, `Ntlm.dfy`): security
  descriptors, UTF-8 and UCS-2, the NTLM AUTHENTICATE message.
- **A coroutine scheduler** (`Coroutine.dfy`) and **a JSON-RPC 2.0 server with its batch
  client** (`JsonRpc.dfy`).

`dafny verify dfyconfig.toml` checks everything. Code that works in place is a method,
proved equal to a specification function; the properties are lemmas about that function
or about all runs of the machine.

## Where the code does less than it promises

Each line names the lemma with a concrete input or run, then the lemma with the exact
condition.

- An emission can call a slot that at no moment of its turn was both connected and
  unblocked, because it reads the two flags one after the other
  (`SignalExamples.CalledThoughNeverBoth`; `SignalRuns.CalledAtNoMoment`).
- `disconnect_if`, `disconnect(gid)` and `disconnect_all` take slots off the list but leave
  them connected, so an emission under way still calls them
  (`SignalExamples.CalledAfterRemoval`; `SignalRuns.RemovalStopsNoCall`).
- An interim PENDING reply erases its request, so the final reply finds none
  (`Smb2Engine.PendingThenFinal`; `Smb2Engine.MatchedOnce`).
- `sendPdu` returns success at an empty vector, leaves the rest of the frame unsent and
  notices no failing `writev` before it (`Smb2Compound.EmptyVectorCutsFrame`,
  `NothingSentSucceeds`; `SuccessMeansSentIff`, `SentWholeIff`).
- `writeIovec` and `readIovec` return their counts as an `int`: a vector of 2^31 bytes is
  sent whole and reported as a failure, a buffer of that size is never read with success
  (`Smb2Compound.BigVectorFails`, `SocketRead.LongReadFails`; `SendSucceedsIff`,
  `NoErrorSends`, `Smb2Receive.Connection.ReceivePdus`).
- A failing `readv` in the middle of a buffer makes `readIovec` lose a byte of the stream
  and still succeed (`SocketRead.ErrorLosesAByte`; `ReadInStepIff`).
- The descriptor decoder skips a part of exactly eight bytes at the end of the buffer
  (`SecurityDescriptor.BareOwnerIsLost`; `DecodeEncoded`), and leaves the buffer at an
  offset near 2^32 (`OffsetPastTheEnd`; `DecodeWildIff`).
- An ACL whose size field does not cover its own header is decoded with no limit on its
  entries, and never encoded again (`SecurityDescriptor.ShortAclIsDecoded`,
  `ShortAclNeedsMore`; `DecodeWildIff`, `EntriesWildIff`, `HonestEncodes`).
- The descriptor encoder checks the size fields of callback and unknown entries, not what
  it writes for them (`SecurityDescriptor.DecodedEscapes`; `EscapesIff`, `EncodesIff`).
- The UTF-8 reader accepts overlong forms (`Utf.OverlongSlash`; `Utf.EncodeDecode`).
- `ntlmssp_generate_blob` reports a length of 16 bits (`Ntlm.LongLoginIsCut`;
  `Ntlm.LoginReadsBackIff`).
- A read or write of more than 1008 x 65536 bytes, or of none, discards the server's size
  limit (`ReadWrite.LimitDiscarded`, `ZeroCountAsksForAll`; `WithinLimitIff`,
  `ProperPartIff`).
- A notification whose handler throws something other than a `std::exception` is answered
  (`JsonRpc.NotificationAnswered`; `OneResponsePerCallIff`, and for all batches
  `AlwaysOneResponsePerCallIff`).

## Model

| member | source | states |
|---|---|---|
| Signals.Signal.NoSlotTwice | cpp/sigslot/palacaze/include/sigslot/signal.hpp:1576-1596 | groups in order and stored indices equal to positions leave no room for a slot listed twice |
| Signals.Signal.FindGroup | cpp/sigslot/palacaze/include/sigslot/signal.hpp:1582-1586 | the scan stops at the first group whose id is not smaller |
| Signals.Signal.AddSlot | cpp/sigslot/palacaze/include/sigslot/signal.hpp:1576-1596 | the slot is appended to the group of its id, made in its place if missing; exactly one slot is added and order and indices are kept |
| Signals.Signal.EnsureGroup | cpp/sigslot/palacaze/include/sigslot/signal.hpp:1588-1591 | inserts a missing group in order, changes no other |
| Signals.Signal.DropAt | cpp/sigslot/palacaze/include/sigslot/signal.hpp:1552-1554 | swap with last, re-index, pop: the group loses that position only, and every index stays right |
| Signals.Signal.Clean | cpp/sigslot/palacaze/include/sigslot/signal.hpp:1540-1560 | takes out exactly the given slot if it is still listed, nothing otherwise, and touches no other group |
| Signals.Signal.NotListed | cpp/sigslot/palacaze/include/sigslot/signal.hpp:1550-1555 | a slot that is not where its group and index say is not listed anywhere |
| Signals.Signal.Disconnect | cpp/sigslot/palacaze/include/sigslot/signal.hpp:560-566 | reports success exactly when the flag was set, clears it, and removes the slot only then |
| Signals.Signal.PruneGroup | cpp/sigslot/palacaze/include/sigslot/signal.hpp:1606-1619 | the swap-and-pop loop keeps the multiset of slots that fail the condition and counts the others |
| Signals.Signal.DisconnectIf | cpp/sigslot/palacaze/include/sigslot/signal.hpp:1599-1622 | every group keeps exactly the slots that fail the condition, re-indexed; the count is by how much the list shrank |
| Signals.Signal.DisconnectGroup | cpp/sigslot/palacaze/include/sigslot/signal.hpp:1479-1489 | empties the group of that id, returns its former size, leaves the others and all flags alone |
| Signals.Signal.SlotCount | cpp/sigslot/palacaze/include/sigslot/signal.hpp:1527-1534 | the number of listed slots |
| Signals.Signal.Emit | cpp/sigslot/palacaze/include/sigslot/signal.hpp:1214-1229 | with callbacks that leave the signal alone, calls the connected and unblocked slots in list order, none when blocked |
| Signals.LiveInOrder | cpp/sigslot/palacaze/include/sigslot/signal.hpp:1214-1229 | what an emission calls are the connected and unblocked slots, all of them, in the order in which they are listed |
| SlotGroups.AddAddsOne | cpp/sigslot/palacaze/include/sigslot/signal.hpp:1576-1596 | adding a slot adds it once and loses none |
| SlotGroups.RemoveAtRemovesOne | cpp/sigslot/palacaze/include/sigslot/signal.hpp:1550-1555 | removal by swap and pop removes one occurrence of that slot |
| SlotGroups.SwapPopMultiset | cpp/sigslot/palacaze/include/sigslot/signal.hpp:1611-1613 | swapping with the last and popping removes the element at the position, as a multiset |
| SlotGroups.VisitsAscending | cpp/sigslot/palacaze/include/sigslot/signal.hpp:1224-1228 | the nested loops visit groups in ascending order of id |
| SignalThreads.RunKeepsInv | cpp/sigslot/palacaze/include/sigslot/signal.hpp:406-487 | in every interleaving: no access to freed memory, each payload's count equals its live handles, a payload is freed once and at zero, writers hold the mutex, list and indices agree |
| SignalThreads.StepKeepsInv | cpp/sigslot/palacaze/include/sigslot/signal.hpp:464-469 | every atomic step of a writer or an emission, such as the uniqueness test, the copy and the swap of `write`, keeps that invariant |
| SignalThreads.SnapshotNeverChanges | cpp/sigslot/palacaze/include/sigslot/signal.hpp:1220-1228 | the list an emission walks is at every moment the one it took, not freed, with a count of all its handles |
| SignalThreads.NothingLeaks | cpp/sigslot/palacaze/include/sigslot/signal.hpp:445-449 | when no activity is left, only the signal's payload lives and every other one was freed exactly once |
| SignalThreads.DisconnectWinsOnce | cpp/sigslot/palacaze/include/sigslot/signal.hpp:560-566 | however many threads race, disconnecting one slot succeeds at most once, and exactly when it is no longer connected |
| SignalThreads.ListAlwaysIndexed | cpp/sigslot/palacaze/include/sigslot/signal.hpp:1540-1560 | in every reachable state the list is in order, indexed and free of duplicates |
| SignalThreads.ApplyOpOk | cpp/sigslot/palacaze/include/sigslot/signal.hpp:1576-1622 | every change of the list keeps order and indices and lists exactly the survivors |
| SignalThreads.RunRefines | cpp/sigslot/palacaze/include/sigslot/signal.hpp:820-825 | every run refines the specification in which an emission walks the list it started with, passes over a slot not connected at the first load of its turn and calls another exactly when it is unblocked at the second, and in which every change asked for by an activity takes effect in one step, once |
| SignalThreads.EmissionIsOneOrderedPass | cpp/sigslot/palacaze/include/sigslot/signal.hpp:1214-1229 | a finished emission took one turn per slot of its starting list, in ascending group order, none twice |
| SignalRuns.EmissionKept | cpp/sigslot/palacaze/include/sigslot/signal.hpp:1564-1567 | whatever runs meanwhile, an emission keeps its starting list and its turns |
| SignalRuns.AddedLaterNeverCalled | cpp/sigslot/palacaze/include/sigslot/signal.hpp:1220-1228 | a slot added after an emission began is never called by it |
| SignalRuns.CalledBySecondLoad | cpp/sigslot/palacaze/include/sigslot/signal.hpp:820-825 | a slot connected at the first load of its turn is called exactly when it is unblocked at the second, whatever runs between |
| SignalRuns.CalledAtNoMoment | cpp/sigslot/palacaze/include/sigslot/signal.hpp:820-825 | a slot is called without ever having been connected and unblocked at once during its turn if and only if it was blocked at the first load, unblocked at the second, and disconnected before it was first unblocked |
| SignalRuns.OneMomentWithoutUnblock | cpp/sigslot/palacaze/include/sigslot/signal.hpp:820-825 | with no unblock between the loads, a call means connected and unblocked at the first |
| SignalRuns.RemovalStopsNoCall | cpp/sigslot/palacaze/include/sigslot/signal.hpp:1479-1489 | whatever changes of the list take effect meanwhile, a slot of an emission's list is called at its turn exactly when its own flags, if left alone, say so |
| SignalRuns.ChangeList | cpp/sigslot/palacaze/include/sigslot/signal.hpp:1576-1622 | a change of the list touches no flag and lists exactly its survivors |
| SignalRuns.ConnectedIsSeen | cpp/sigslot/palacaze/include/sigslot/signal.hpp:1576-1596 | from the step that carries out a connect, every emission that begins has the slot in its list unless an event took it off before |
| SignalRuns.DisconnectedIsNeverSeen | cpp/sigslot/palacaze/include/sigslot/signal.hpp:1540-1560 | from the step that carries out a disconnect, no emission that begins has the slot in its list, ever |
| SignalRuns.DoneWasCarriedOut | cpp/sigslot/palacaze/include/sigslot/signal.hpp:1576-1596 | a connect or disconnect that has returned was carried out by one step of the run |
| SignalEvents.EmitsOnlyUnblocked | cpp/sigslot/palacaze/include/sigslot/signal.hpp:1214-1218 | every emission there is was begun by an event before which the signal was not blocked, or unblocked last |
| SignalEvents.EmissionBeginsIff | cpp/sigslot/palacaze/include/sigslot/signal.hpp:1214-1218 | an emission that is asked for begins if and only if the signal was not blocked last; otherwise nothing changes at all |
| SignalEvents.ChangeWasAskedFor | cpp/sigslot/palacaze/include/sigslot/signal.hpp:1479-1489 | every change there is, at whatever point, is the one that some event asked for |
| SignalEvents.RemovalBegins | cpp/sigslot/palacaze/include/sigslot/signal.hpp:1479-1489 | a removal that is asked for begins, as it is |
| SignalEvents.ConnectBegins | cpp/sigslot/palacaze/include/sigslot/signal.hpp:1576-1596 | a connect makes its slot in its group, connected and unblocked, and asks to list it |
| SignalEvents.GroupFromConnect | cpp/sigslot/palacaze/include/sigslot/signal.hpp:1576-1596 | a slot has the group it was connected with, in every run |
| SignalEvents.DisconnectSucceeds | cpp/sigslot/palacaze/include/sigslot/signal.hpp:560-566 | a disconnect of a slot that a finished connect made, and that nobody disconnected, succeeds |
| SignalEvents.ListAfterChange | cpp/sigslot/palacaze/include/sigslot/signal.hpp:1599-1622 | who is on the list after the step that carries out a change, for each kind of change |
| SignalEvents.NoDeadlock | cpp/sigslot/palacaze/include/sigslot/signal.hpp:406-487 | whenever an emission or a change is under way, some activity can take a step |
| SignalEvents.FinishesAlone | cpp/sigslot/palacaze/include/sigslot/signal.hpp:406-487 | every activity finishes by its own steps, in a bounded number of them, whenever nobody else holds the mutex |
| SignalExamples.CalledThoughNeverBoth | cpp/sigslot/palacaze/include/sigslot/signal.hpp:820-825 | a run in which a slot is disconnected and then unblocked between the two loads, and called |
| SignalExamples.CalledAfterRemoval | cpp/sigslot/palacaze/include/sigslot/signal.hpp:1479-1489 | a run in which a slot is called after its group was emptied |
| Smb2Engine.RunKeepsInv | cpp/samba/client/OpenSmbC/src/Smb2Context.cpp:284-345 | in every run each request owns its window of ids below the counter, windows are disjoint, every request is in exactly one place, and the balance is the ledger's |
| Smb2Engine.QueueKeepsInv | cpp/samba/client/OpenSmbC/src/Smb2Pdu.cpp:194-203 | numbering a chain, and a failed signature part way, keeps that; no other request is overwritten |
| Smb2Engine.NumberApart | cpp/samba/client/OpenSmbC/src/Smb2Pdu.cpp:194-203 | the windows of a chain's members follow each other without overlap |
| Smb2Engine.IdsByCharge | cpp/samba/client/OpenSmbC/src/Smb2Pdu.cpp:194-203 | charges 0, 1, 5 and 2 take 1, 1, 5 and 2 ids |
| Smb2Engine.SendKeepsInv | cpp/samba/client/OpenSmbC/src/Smb2Socket.cpp:179-200 | a run of `sendPdus`, wherever it stops, conserves the outstanding requests; success leaves the out queue empty |
| Smb2Engine.MoveKeepsInv | cpp/samba/client/OpenSmbC/src/Smb2Context.cpp:331-345 | moving a sent chain to the wait queue conserves the outstanding requests and pays exactly its charge |
| Smb2Engine.RollBack | cpp/samba/client/OpenSmbC/src/Smb2Socket.cpp:190-196 | a failed send leaves the state as it was |
| Smb2Engine.ReplyKeepsInv | cpp/samba/client/OpenSmbC/src/Smb2Context.cpp:319-329 | a reply takes out exactly the request with its id, an unknown id changes nothing |
| Smb2Engine.CreditsAreTheLedger | cpp/samba/client/OpenSmbC/src/Smb2Socket.cpp:137-147 | the balance is what the replies of the run granted less the charges of the chains that left the out queue, both read off the events, modulo 2^32: it never underflows, and is exact if and only if that fits; the id counter is the number of ids taken |
| Smb2Engine.SendFirstIff | cpp/samba/client/OpenSmbC/src/Smb2Socket.cpp:137-147 | the chain of the lowest id is sent if and only if the balance covers its charge, or the dialect is at most 0x0202, and the socket takes it |
| Smb2Engine.AllIsSent | cpp/samba/client/OpenSmbC/src/Smb2Socket.cpp:179-200 | when the balance covers the out queue and the socket takes it, everything is sent and waits, and the balance pays all charges |
| Smb2Engine.ReplyFindsItsRequest | cpp/samba/client/OpenSmbC/src/Smb2Socket.cpp:291-303 | a waiting id names one request, not answered before, and lies in no other request's window |
| Smb2Engine.MatchedOnce | cpp/samba/client/OpenSmbC/src/Smb2Context.cpp:319-329 | whatever else happens, a waiting request is found under its id, itself, exactly as long as no reply with that id has come, final or interim |
| Smb2Engine.InterimReplyDropsRequest | cpp/samba/client/OpenSmbC/src/Smb2Socket.cpp:305-318 | so after a PENDING reply no later reply of any run finds the request |
| Smb2Engine.PendingThenFinal | cpp/samba/client/OpenSmbC/src/Smb2Socket.cpp:305-318 | queue, send, PENDING, final reply: the final reply finds nothing and its grant is not added |
| Smb2Engine.Context.NumberChain | cpp/samba/client/OpenSmbC/src/Smb2Context.cpp:289-304 | the loop numbers the chain consecutively from the counter, up to a failed signature |
| Smb2Engine.Context.QueuePdu | cpp/samba/client/OpenSmbC/src/Smb2Context.cpp:284-309 | the whole new state of queuing |
| Smb2Engine.Context.AddToWaitqueue | cpp/samba/client/OpenSmbC/src/Smb2Context.cpp:331-345 | the whole new state of taking a chain apart |
| Smb2Engine.Context.CreditTest | cpp/samba/client/OpenSmbC/src/Smb2Pdu.cpp:123-134 | the 32-bit sum over the chain decides as the total charge does |
| Smb2Engine.Context.SendPdus | cpp/samba/client/OpenSmbC/src/Smb2Socket.cpp:179-200 | the loop over the out queue, with erasing and putting back, is the send of the engine |
| Smb2Engine.Context.Receive | cpp/samba/client/OpenSmbC/src/Smb2Context.cpp:319-329 | finding a request erases it; its grant is added |
| Smb2Header.DecodeLayout | cpp/samba/client/OpenSmbC/src/Smb2Pdu.cpp:230-262 | decoding an encoded header gives it back, in the sync and the async form |
| Smb2Header.FieldsStand | cpp/samba/client/OpenSmbC/src/Smb2Pdu.cpp:194-228 | every field stands where section 2.2.1 of MS-SMB2 puts it |
| Smb2Header.FlagBits | cpp/samba/client/OpenSmbC/src/Smb2Pdu.cpp:194-228 | byte 16 holds the bits for reply, async, related and signed |
| Smb2Header.EncodeHeader | cpp/samba/client/OpenSmbC/src/Smb2Pdu.cpp:194-228 | the writes in place leave exactly the 64 bytes of the header, whatever was there |
| Smb2Compound.IoVectors.Add | cpp/samba/client/OpenSmbC/src/DataTypes.cpp:285-301 | one more vector, and the total stays the sum of the lengths |
| Smb2Compound.IoVectors.Append | cpp/samba/client/OpenSmbC/src/DataTypes.cpp:303-307 | all vectors of the other, and the total stays the sum of the lengths |
| Smb2Compound.IoVectors.Pad | cpp/samba/client/OpenSmbC/src/DataTypes.cpp:309-324 | adds fewer than eight zero bytes, to a total divisible by eight |
| Smb2Compound.BuildLinks | cpp/samba/client/OpenSmbC/src/Smb2Pdu.cpp:176-192 | every member's next_command is its own padded size, a multiple of eight, the last one's is zero, and all but the first are marked RELATED |
| Smb2Compound.WalkGivesHeaders | cpp/samba/client/OpenSmbC/src/Smb2Pdu.cpp:136-149 | walking the sent bytes from link to link and decoding gives the headers of the chain, in order |
| Smb2Compound.LinkBytes | cpp/samba/client/OpenSmbC/src/Smb2Pdu.cpp:176-192 | in the sent bytes, at the place of each member: the link leads to the next header, the last one nowhere, and behind the first member the related bit is set |
| Smb2Compound.MemberStandsAtOffset | cpp/samba/client/OpenSmbC/src/Smb2Pdu.cpp:176-192 | the links add up to where each member's bytes start |
| Smb2Compound.OffsetsAligned | cpp/samba/client/OpenSmbC/src/DataTypes.cpp:309-324 | and each of these places is a multiple of eight |
| Smb2Compound.NetbiosLength | cpp/samba/client/OpenSmbC/src/Smb2Pdu.cpp:110-121 | the 32-bit sum over the chain is its size modulo 2^32 |
| Smb2Compound.WireLength | cpp/samba/client/OpenSmbC/src/Smb2Pdu.cpp:110-121 | which is the number of bytes on the wire |
| Smb2Compound.VectorsAreWire | cpp/samba/client/OpenSmbC/src/Smb2Pdu.cpp:136-149 | the vectors one after the other are the chain's bytes |
| Smb2Compound.PrefixValue | cpp/samba/client/OpenSmbC/src/Smb2Socket.cpp:149-151 | the four bytes of the length prefix, most significant first, are the length |
| Smb2Compound.FrameCountsItself | cpp/samba/client/OpenSmbC/src/Smb2Socket.cpp:149-151 | so the first four bytes of a frame are the number of bytes behind them |
| SocketWrite.WriteIovec | cpp/samba/client/OpenSmbC/src/Smb2Socket.cpp:100-131 | the loop is `Push`, for all results of the calls: bytes sent, the count as an `int`, or -1 at an error |
| SocketWrite.WriteVectors | cpp/samba/client/OpenSmbC/src/Smb2Socket.cpp:159-168 | the loop over the vectors is `PushAll`, for all results of the calls: it ends at a count of zero and at no error |
| SocketWrite.PushGives | cpp/samba/client/OpenSmbC/src/Smb2Socket.cpp:113-130 | a vector is written whole and its length returned as an `int`, or only a part of it and -1 returned; without an error the former, however the bytes are taken |
| SocketWrite.TotalFallsShort | cpp/samba/client/OpenSmbC/src/Smb2Socket.cpp:159-168 | the total is short, modulo 2^64, by what the counts of the vectors fall short of their lengths |
| SocketWrite.NoError | cpp/samba/client/OpenSmbC/src/Smb2Socket.cpp:159-168 | without an error what is sent, and whether the loop ends early, does not depend on how the bytes are taken |
| Smb2Compound.SendPdu | cpp/samba/client/OpenSmbC/src/Smb2Socket.cpp:133-177 | the prefix, the vectors and the comparison of the totals are `SendFrame`, for all results of `writev` |
| Smb2Compound.SendSucceedsIff | cpp/samba/client/OpenSmbC/src/Smb2Socket.cpp:159-176 | whatever `writev` does, success is reported if and only if a count came back as zero, or the counts fall short by exactly the multiples of 2^32 that the length prefix loses, modulo 2^64 |
| Smb2Compound.SuccessMeansSentIff | cpp/samba/client/OpenSmbC/src/Smb2Socket.cpp:133-177 | whatever `writev` does, with vectors below 2^31 bytes and a frame below 2^32, success means exactly that the whole frame was sent or that a vector is empty |
| Smb2Compound.NoErrorSends | cpp/samba/client/OpenSmbC/src/Smb2Socket.cpp:133-177 | without an error the frame goes out up to the first vector whose length is a multiple of 2^32; success if and only if there is one, or the lengths rounded to multiples of 2^32 add up to the frame's, modulo 2^64 |
| Smb2Compound.SentWholeIff | cpp/samba/client/OpenSmbC/src/Smb2Socket.cpp:159-168 | without an error the frame goes out whole if and only if nothing stands behind a vector that is empty or of a multiple of 2^32 bytes |
| Smb2Compound.EmptyVectorCutsFrame | cpp/samba/client/OpenSmbC/src/Smb2SetInfo.cpp:184-195 | CREATE, SET_INFO of an empty security descriptor and CLOSE, as the client builds them: whatever `writev` does, fewer bytes go out than the frame has, and success is reported |
| Smb2Compound.LostBehindEmpty | cpp/samba/client/OpenSmbC/src/Smb2Socket.cpp:161-168 | in every chain, whatever `writev` does: a non-empty vector behind an empty one is lost with success reported |
| Smb2Compound.NothingSentSucceeds | cpp/samba/client/OpenSmbC/src/Smb2Socket.cpp:149-168 | every call fails, not a byte goes out, and an empty vector makes it a success |
| Smb2Compound.BigVectorFails | cpp/samba/client/OpenSmbC/src/Smb2Socket.cpp:130-176 | one vector of 2^31 bytes: the whole frame goes out and failure is reported |
| Smb2Receive.CutIsUnique | cpp/samba/client/OpenSmbC/src/Smb2Socket.cpp:351-357 | replies linked one to the next, the last taking the rest, are the only way to cut their frame |
| SocketRead.ReadIovec | cpp/samba/client/OpenSmbC/src/Smb2Socket.cpp:202-232 | the loop, with its counts in unsigned 64-bit variables and its result an `int`, is `Fill`, for all results of the calls |
| SocketRead.FillTakes | cpp/samba/client/OpenSmbC/src/Smb2Socket.cpp:207-229 | a filled buffer took one byte more off the stream for every error after its first byte |
| SocketRead.ReadInStepIff | cpp/samba/client/OpenSmbC/src/Smb2Socket.cpp:207-229 | a read that succeeds keeps its place in the stream if and only if no error came after its first byte; then it holds exactly the next bytes |
| SocketRead.ErrorLosesAByte | cpp/samba/client/OpenSmbC/src/Smb2Socket.cpp:213-224 | a read that succeeds and has lost a byte |
| SocketRead.LongReadFails | cpp/samba/client/OpenSmbC/src/Smb2Socket.cpp:231-231 | a buffer of 2^31 bytes or more is never read with success |
| Smb2Receive.Advance | cpp/samba/client/OpenSmbC/src/Smb2Socket.cpp:331-412 | one state of the machine: it fails exactly when the reply can no longer be completed, otherwise goes to an earlier rank and asks for the right number of bytes |
| Smb2Receive.Connection.Read | cpp/samba/client/OpenSmbC/src/Smb2Socket.cpp:202-232 | all bytes asked for, or failure; a count of 2^31 or more is a failure |
| Smb2Receive.Connection.TakeHeader | cpp/samba/client/OpenSmbC/src/Smb2Socket.cpp:269-303 | succeeds exactly on an SMB2 reply somebody waits for; takes out that request, adds the grant |
| Smb2Receive.HeaderOkBytes | cpp/samba/client/OpenSmbC/src/Smb2Socket.cpp:281-300 | a header is taken if and only if it starts with FE 53 4D 42, the lowest bit of byte 16 is set, and bytes 24 to 31 are an awaited id |
| Smb2Receive.ReplyBytes | cpp/samba/client/OpenSmbC/src/Smb2Socket.cpp:291-318 | the bytes in which a reply carries id, grant, link and the interim status |
| Smb2Receive.ReplyFits | cpp/samba/client/OpenSmbC/src/Smb2Socket.cpp:320-412 | an awaited reply with the parts its class asks for is taken, with padding or without, last in its frame or linked |
| Smb2Receive.InterimFits | cpp/samba/client/OpenSmbC/src/Smb2Socket.cpp:305-318 | and so is an interim reply, whatever fills its frame |
| Smb2Receive.LastIsAccepted | cpp/samba/client/OpenSmbC/src/Smb2Socket.cpp:416-446 | a frame that is such a reply is accepted |
| Smb2Receive.LinkIsAccepted | cpp/samba/client/OpenSmbC/src/Smb2Socket.cpp:416-446 | and one in which such a reply is linked to an accepted rest |
| Smb2Examples.SampleReceived | cpp/samba/client/OpenSmbC/src/Smb2Socket.cpp:235-446 | a frame of 260 bytes: one delivery, to the request that waited, with its 31 credits, and nothing left |
| Smb2Receive.Connection.ReceiveBody | cpp/samba/client/OpenSmbC/src/Smb2Socket.cpp:331-412 | the saved buffers are exactly the bytes read, up to the reply's end: header, fixed part, variable part if any, padding; success exactly when the parts parse, fit, are there and each is shorter than 2^31 |
| Smb2Receive.Connection.ReceiveOne | cpp/samba/client/OpenSmbC/src/Smb2Socket.cpp:269-412 | one reply: its slice of the stream, its request, its grant; success exactly when a whole awaited reply stands there, with no part of 2^31 bytes or more |
| Smb2Receive.Connection.TakeReply | cpp/samba/client/OpenSmbC/src/Smb2Socket.cpp:416-443 | and its delivery to its own request, unless it is an interim one |
| Smb2Receive.Connection.ReceiveChain | cpp/samba/client/OpenSmbC/src/Smb2Socket.cpp:416-446 | the replies taken form a linked trail; it stops at the frame's end or where no reply stands |
| Smb2Receive.Connection.ReceivePdus | cpp/samba/client/OpenSmbC/src/Smb2Socket.cpp:235-446 | success consumed exactly 4 + spl bytes, cut them into the frame's replies, delivered each whole to its own request, with parts of the sizes its class asks for and that parse, and paid the ledger; it succeeds if and only if the frame is a chain of whole awaited replies, no part of them of 2^31 bytes or more; after a failure the replies before it were delivered and paid for, and at most one further request was taken |
| Smb2Receive.TrailAccepts | cpp/samba/client/OpenSmbC/src/Smb2Socket.cpp:423-443 | a frame is accepted from its first reply on exactly when it is from the reply the loop has come to |
| Smb2Receive.Verdict | cpp/samba/client/OpenSmbC/src/Smb2Socket.cpp:414-446 | a finished walk has cut the frame, taken off every request and added every grant, and delivered every reply but an interim one |
| Smb2Receive.GivenUp | cpp/samba/client/OpenSmbC/src/Smb2Socket.cpp:250-260 | a walk given up has delivered and paid for the linked replies before it |
| Smb2Receive.WholeFrame | cpp/samba/client/OpenSmbC/src/Smb2Socket.cpp:312-312 | the 32-bit sum of length and prefix cannot have wrapped in a frame that was accepted |
| ReadWrite.Needed | cpp/samba/client/OpenSmbC/src/Smb2RequestBuilder.cpp:364-364 | the 32-bit expression is the number of 64 KiB chunks, and 65536 for zero |
| ReadWrite.BuildLength | cpp/samba/client/OpenSmbC/src/Smb2RequestBuilder.cpp:364-386 | the branches compute the closed form `Built`, for all inputs |
| ReadWrite.Request.Create | cpp/samba/client/OpenSmbC/src/Smb2Read.cpp:38-99 | the 60 KiB clamp and the 16-bit charge |
| ReadWrite.Build | cpp/samba/client/OpenSmbC/src/Smb2RequestBuilder.cpp:354-386 | length and charge of the request that is queued |
| ReadWrite.BuiltIsMin | cpp/samba/client/OpenSmbC/src/Smb2RequestBuilder.cpp:364-381 | nothing wraps: the length is the least of count, server limit or ceiling, and credits, in plain integers |
| ReadWrite.RequestCovered | cpp/samba/client/OpenSmbC/src/Smb2Read.cpp:96-99 | between one byte and the caller's count, covered by a charge that is exact and within the credits |
| ReadWrite.WithoutMultiCredit | cpp/samba/client/OpenSmbC/src/Smb2Read.cpp:38-42 | without multi-credit support at most 61440 bytes, for one credit |
| ReadWrite.WithinLimitIff | cpp/samba/client/OpenSmbC/src/Smb2RequestBuilder.cpp:366-381 | within the server's limit if and only if the count is at most 1008 x 65536 or something else holds it down |
| ReadWrite.LimitDiscarded | cpp/samba/client/OpenSmbC/src/Smb2RequestBuilder.cpp:366-375 | a request for 1008 chunks to a server that allows one |
| ReadWrite.ProperPartIff | cpp/samba/client/OpenSmbC/src/Smb2RequestBuilder.cpp:364-381 | between one and the caller's count if and only if there is something to ask for, a credit, and a limit that is not zero or without effect |
| ReadWrite.ZeroCountAsksForAll | cpp/samba/client/OpenSmbC/src/Smb2RequestBuilder.cpp:364-381 | a count of zero asks for the ceiling or for all credits |
| ReadWrite.NoCredits | cpp/samba/client/OpenSmbC/src/Smb2Write.cpp:84-87 | without credits the charge comes out as zero |
| ReadWrite.OldDialect | cpp/samba/client/OpenSmbC/src/Smb2RequestBuilder.cpp:382-386 | up to dialect 0x0202 count, limit and one chunk all bound the length |
| Bytes.GetPut | cpp/samba/client/OpenSmbC/src/DataTypes.cpp:164-251 | a field that fits its width is read back as written |
| Bytes.PutElsewhere | cpp/samba/client/OpenSmbC/src/DataTypes.cpp:164-202 | and nothing outside it changes |
| Bytes.FromToLE | cpp/samba/client/OpenSmbC/src/DataTypes.cpp:174-251 | a field of n bytes holds its value modulo 256^n |
| Bytes.ToFromLE | cpp/samba/client/OpenSmbC/src/DataTypes.cpp:214-251 | and every n bytes are the field of some value |
| Bytes.ByteAt | cpp/samba/client/OpenSmbC/src/DataTypes.cpp:160-202 | the bytes of a field, the lowest first |
| Bytes.WriteLE | cpp/samba/client/OpenSmbC/src/DataTypes.cpp:174-202 | the write in place is `Put`, and does nothing outside the buffer |
| SecurityDescriptor.DecodeEncoded | cpp/samba/client/OpenSmbC/src/Smb2DataSecurity.cpp:405-478 | decoding an encoded descriptor gives it back if and only if its last part is longer than eight bytes |
| SecurityDescriptor.PartsStand | cpp/samba/client/OpenSmbC/src/Smb2DataSecurity.cpp:405-478 | control, owner, group and ACL of a decoded descriptor stand where bytes 2, 4, 8 and 16 say |
| SecurityDescriptor.AceParts | cpp/samba/client/OpenSmbC/src/Smb2DataSecurity.cpp:172-325 | by the number of its type, which parts a decoded entry has and where they stand |
| SecurityDescriptor.BareOwnerIsLost | cpp/samba/client/OpenSmbC/src/Smb2DataSecurity.cpp:430-470 | a descriptor that does not come back |
| SecurityDescriptor.DecodeWildIff | cpp/samba/client/OpenSmbC/src/Smb2DataSecurity.cpp:327-475 | the decoder reads outside the buffer if and only if the first part that is not absent or well-formed has an offset whose 32-bit bound test wraps, or is an ACL that does not cover its own header and whose first entry that is not whole ends behind the buffer, or has contents to copy and 2^31 bytes before them |
| SecurityDescriptor.EntriesWildIff | cpp/samba/client/OpenSmbC/src/Smb2DataSecurity.cpp:376-400 | the entries of such an ACL are decoded if and only if each stands whole in the buffer, where the size fields of the earlier ones lead |
| SecurityDescriptor.OffsetPastTheEnd | cpp/samba/client/OpenSmbC/src/Smb2DataSecurity.cpp:432-437 | twenty bytes that make it do so |
| SecurityDescriptor.ShortAclIsDecoded | cpp/samba/client/OpenSmbC/src/Smb2DataSecurity.cpp:361-400 | 44 bytes with an ACL of size 4 and one entry that are decoded, and that no buffer is large enough to encode |
| SecurityDescriptor.ShortAclNeedsMore | cpp/samba/client/OpenSmbC/src/Smb2DataSecurity.cpp:361-400 | 131092 bytes with such an ACL and two entries: decoded, and in need of as many bytes |
| SecurityDescriptor.DecodedShape | cpp/samba/client/OpenSmbC/src/Smb2DataSecurity.cpp:405-478 | every decoded descriptor has the field widths the encoder takes; its sizes add up if and only if its ACL is absent, has no entries or covers its own header |
| SecurityDescriptor.SidBack | cpp/samba/client/OpenSmbC/src/Smb2DataSecurity.cpp:124-170 | a SID comes back, whatever follows it |
| SecurityDescriptor.AceBack | cpp/samba/client/OpenSmbC/src/Smb2DataSecurity.cpp:172-325 | an ACE of a basic or object type comes back, whatever follows it, also when its size field is not what it takes |
| SecurityDescriptor.AclBack | cpp/samba/client/OpenSmbC/src/Smb2DataSecurity.cpp:327-403 | an ACL of such entries comes back |
| SecurityDescriptor.EncodeSid | cpp/samba/client/OpenSmbC/src/Smb2DataSecurity.cpp:511-550 | writes exactly the SID's bytes at the offset, or refuses and changes nothing |
| SecurityDescriptor.EncodeAce | cpp/samba/client/OpenSmbC/src/Smb2DataSecurity.cpp:552-681 | for every entry, of any kind and with any size field: the exact bytes, or -1, or a write outside the room it was given, by an exact condition on the room |
| SecurityDescriptor.SumAces | cpp/samba/client/OpenSmbC/src/Smb2DataSecurity.cpp:693-710 | the size check passes exactly when there is no entry or the sizes fit the ACL's size field |
| SecurityDescriptor.EncodeAcl | cpp/samba/client/OpenSmbC/src/Smb2DataSecurity.cpp:683-744 | the same for every ACL: refused when the sizes do not add up or do not fit the room, otherwise entry by entry |
| SecurityDescriptor.Encode | cpp/samba/client/OpenSmbC/src/Smb2DataSecurity.cpp:746-819 | for every descriptor: -9 exactly when the buffer is smaller than the computed size, otherwise the exact bytes, patched offsets included, or -1, or a write outside, as `SecDescFate` says |
| SecurityDescriptor.EncodesIff | cpp/samba/client/OpenSmbC/src/Smb2DataSecurity.cpp:683-744 | the whole descriptor is written inside the buffer if and only if its sizes add up and the buffer has the bytes its entries really take |
| SecurityDescriptor.EscapesIff | cpp/samba/client/OpenSmbC/src/Smb2DataSecurity.cpp:629-675 | a write goes outside if and only if, behind entries that find room for their size field and for what they take, one has room for its size field and then not for its fixed part, or for everything up to its SID but not for the data behind; an entry begins where the bytes of the earlier ones end |
| SecurityDescriptor.HonestEncodes | cpp/samba/client/OpenSmbC/src/Smb2DataSecurity.cpp:683-744 | a decoded descriptor whose entries claim what they take goes into every buffer that passes the size test if its ACL covers its own header, and is refused by every one otherwise |
| SecurityDescriptor.ExactEncodes | cpp/samba/client/OpenSmbC/src/Smb2DataSecurity.cpp:746-819 | a descriptor with exact sizes goes in, and the reported length is the computed size |
| SecurityDescriptor.DecodedEscapes | cpp/samba/client/OpenSmbC/src/Smb2DataSecurity.cpp:302-321 | 536 bytes that are decoded, pass the size test for 1024 bytes, and are written past them |
| SecurityDescriptor.DecodedAclSize | cpp/samba/client/OpenSmbC/src/Smb2DataSecurity.cpp:89-122 | the sizes of a decoded ACL add up if and only if its size field covers its header or it has no entries; then they are below 2^16, otherwise at most 65535 more than the bytes it was decoded from |
| SecurityDescriptor.DecodedSize | cpp/samba/client/OpenSmbC/src/Smb2DataSecurity.cpp:103-122 | a decoded descriptor needs at most 67611 bytes when its ACL covers its own header, otherwise at most 67610 more than it was decoded from; the 32-bit size never wraps |
| SecurityDescriptor.RetryDoubling | cpp/samba/client/OpenSmbC/src/Smb2Api.cpp:1226-1252 | the retry with the encoder itself: it ends at a buffer that passes the size test, less than twice what is needed, with the encoder's outcome there, after at most seven doublings when 67611 bytes are enough; it gives up if and only if more than 2^31 are needed |
| Cmac.ShiftDoubles | cpp/samba/client/OpenSmbC/src/Smb2Signing.cpp:34-48 | shifting byte by byte with a carry is doubling the number, the carry out its top bit |
| Cmac.DoubleIsStandard | cpp/samba/client/OpenSmbC/src/Smb2Signing.cpp:63-86 | shift and conditional xor with 0x87 is the doubling of section 2.3 of RFC 4493 |
| Cmac.ShiftLeft | cpp/samba/client/OpenSmbC/src/Smb2Signing.cpp:34-48 | the loop in place is that shift |
| Cmac.SubKeys | cpp/samba/client/OpenSmbC/src/Smb2Signing.cpp:63-86 | the two subkeys of the standard |
| Cmac.SubkeyExample | cpp/samba/client/OpenSmbC/src/Smb2Signing.cpp:63-86 | the subkeys of the example in section 4 of RFC 4493 |
| Cmac.BlockCount | cpp/samba/client/OpenSmbC/src/Smb2Signing.cpp:98-105 | the number of blocks and whether the last one is complete, for every length |
| Cmac.ComputeMac | cpp/samba/client/OpenSmbC/src/Smb2Signing.cpp:88-132 | the in-place computation is the recursive definition of section 2.4 of RFC 4493, for every message, the empty one included |
| Cmac.MacOfOneBlock | cpp/samba/client/OpenSmbC/src/Smb2Signing.cpp:119-131 | a message of one block is combined with the first subkey, a shorter one, with a one bit and zeros behind it, with the second |
| Cmac.MacOfTwoBlocks | cpp/samba/client/OpenSmbC/src/Smb2Signing.cpp:119-131 | a block in front of that goes through the cipher and into it |
| Smb2Signing.ComputeSignature | cpp/samba/client/OpenSmbC/src/Smb2Signing.cpp:160-219 | CMAC above dialect 0x0210, otherwise the first sixteen bytes of the HMAC |
| Smb2Signing.AddSignature | cpp/samba/client/OpenSmbC/src/Smb2Signing.cpp:134-224 | offset 48 holds the MAC over the whole message with the SIGNED flag set and the signature field as it stood, which is the standard's when that was zero, and nothing else changes; the cases that skip or refuse leave the header alone |
| Utf.LeadingOnes | cpp/samba/client/OpenSmbC/src/util.cpp:219-228 | the loop counts the leading one bits |
| Utf.StepBack | cpp/samba/client/OpenSmbC/src/util.cpp:236-270 | decoding an encoded unit gives it back, whatever follows |
| Utf.StepForward | cpp/samba/client/OpenSmbC/src/util.cpp:236-270 | encoding a decoded unit gives its bytes back when they were in shortest form, fewer otherwise |
| Utf.DecodeEncode | cpp/samba/client/OpenSmbC/src/util.cpp:294-381 | every UCS-2 string survives the way to UTF-8 and back |
| Utf.EncodeIsCString | cpp/samba/client/OpenSmbC/src/util.cpp:340-381 | and is a C string on the way when it has no zero unit |
| Utf.EncodeDecode | cpp/samba/client/OpenSmbC/src/util.cpp:294-381 | the other way round is the identity if and only if the accepted string is in shortest form; otherwise it comes back shorter |
| Utf.OverlongSlash | cpp/samba/client/OpenSmbC/src/util.cpp:247-267 | an overlong form that is accepted |
| Utf.Samples | cpp/samba/client/OpenSmbC/src/util.cpp:358-378 | the letter A, e acute and the euro sign in UTF-8 |
| Utf.ValidateCp | cpp/samba/client/OpenSmbC/src/util.cpp:236-270 | the pointer loop accepts, joins and advances as the decoding step does |
| Utf.ValidateStr | cpp/samba/client/OpenSmbC/src/util.cpp:275-291 | the number of units the string decodes to, or -1 exactly when it does not |
| Utf.Fill | cpp/samba/client/OpenSmbC/src/util.cpp:312-317 | the second pass never fails and fills exactly the units the first pass counted |
| Utf.Utf8ToUcs2 | cpp/samba/client/OpenSmbC/src/util.cpp:294-320 | both passes together decode the string |
| Utf.Utf8Length | cpp/samba/client/OpenSmbC/src/util.cpp:345-350 | the sizing pass |
| Utf.FillUtf8 | cpp/samba/client/OpenSmbC/src/util.cpp:358-378 | the fill pass writes exactly the bytes that were counted and leaves the NUL |
| Utf.Ucs2ToUtf8 | cpp/samba/client/OpenSmbC/src/util.cpp:340-381 | the encoded string and its NUL |
| Ntlm.FieldReads | cpp/samba/client/OpenSmbC/src/NtlmAuthProvider.cpp:336-404 | reading any of the five pairs gives its own payload, cut to its length modulo 2^16 |
| Ntlm.FieldExact | cpp/samba/client/OpenSmbC/src/NtlmAuthProvider.cpp:345-404 | so a pair reads back its payload if and only if that is shorter than 2^16 |
| Ntlm.PayloadsTile | cpp/samba/client/OpenSmbC/src/NtlmAuthProvider.cpp:421-451 | the payloads follow each other without gap or overlap from byte 64 to the end |
| Ntlm.BlobReadsBackIff | cpp/samba/client/OpenSmbC/src/NtlmAuthProvider.cpp:463-497 | all five payloads can be read from the reported blob if and only if the message is shorter than 2^16 |
| Ntlm.LoginReadsBackIff | cpp/samba/client/OpenSmbC/src/NtlmAuthProvider.cpp:463-497 | for a login: if and only if 136 bytes, the names in UCS-2 and the target information together are shorter than 2^16 |
| Ntlm.LongLoginIsCut | cpp/samba/client/OpenSmbC/src/NtlmAuthProvider.cpp:463-497 | a login whose reported blob is empty |
| Ntlm.PatchHead | cpp/samba/client/OpenSmbC/src/NtlmAuthProvider.cpp:421-450 | patching an offset changes that offset and nothing else |
| Ntlm.LengthLow | cpp/samba/client/OpenSmbC/src/NtlmAuthProvider.cpp:345-364 | the doubled length word holds the length modulo 2^16 below, and also above when it fits |
| Ntlm.UnitStands | cpp/samba/client/OpenSmbC/src/NtlmAuthProvider.cpp:345-364 | unit i of a name stands at bytes 2i and 2i + 1, low byte first |
| Ntlm.FixedHead | cpp/samba/client/OpenSmbC/src/NtlmAuthProvider.cpp:329-419 | the signature, message type 3 and the flags stand at bytes 0, 8 and 60 |
| Ntlm.ServerReads | cpp/samba/client/OpenSmbC/src/NtlmAuthProvider.cpp:336-451 | for a login whose message is shorter than 2^16: the pairs at 12, 20, 28, 36 and 44 give LM response, NT response, domain, user and workstation |
| Ntlm.PartsSay | cpp/samba/client/OpenSmbC/src/NtlmAuthProvider.cpp:223-327 | these are the names in UCS-2; the LM response is the HMAC over server and client challenge, before the client challenge; the NT response is the HMAC over server challenge and client part, before the client part, whose fields stand in the standard's order |
| Ntlm.Encoder.Append | cpp/samba/client/OpenSmbC/src/NtlmAuthProvider.cpp:150-174 | the growth rule always makes room: the contents are extended exactly, and the buffer stays within four times their length and 512 bytes |
| Ntlm.Encoder.AppendPayload | cpp/samba/client/OpenSmbC/src/NtlmAuthProvider.cpp:421-451 | one offset patched, one payload appended |
| Ntlm.Encoder.BuildNtResponse | cpp/samba/client/OpenSmbC/src/NtlmAuthProvider.cpp:223-327 | the proof over server challenge and blob, in front of the blob; the session key from the proof |
| Ntlm.Encoder.BuildHead | cpp/samba/client/OpenSmbC/src/NtlmAuthProvider.cpp:329-419 | the 64-byte header with open offsets, or failure at a name that is no UTF-8 |
| Ntlm.Encoder.Authenticate | cpp/samba/client/OpenSmbC/src/NtlmAuthProvider.cpp:260-461 | the appends and patches build exactly the specified message; it fails exactly when the key or a name cannot be made |
| Ntlm.Encoder.GenerateBlob | cpp/samba/client/OpenSmbC/src/NtlmAuthProvider.cpp:463-497 | the reported part of that message |
| Coroutines.OwnOrder | cpp/cppcoro/01.coroutine_ucontext.cpp:113-124 | in a fair run every coroutine runs its segments in its own order, none left out |
| Coroutines.NeverTwoAhead | cpp/cppcoro/01.coroutine_ucontext.cpp:113-124 | at no moment is one coroutine two segments ahead of another that is not at its end |
| Coroutines.PrefixFair | cpp/cppcoro/01.coroutine_ucontext.cpp:113-124 | every prefix of a fair run is a fair run to the positions reached |
| Coroutines.TurnTaken | cpp/cppcoro/01.coroutine_ucontext.cpp:116-121 | a turn runs the one segment that is due, or none exactly when the coroutine is at its end |
| Coroutines.RoundsLeft | cpp/cppcoro/01.coroutine_ucontext.cpp:114-123 | a round without work ends the run at the longest coroutine's end, any other brings it closer |
| Coroutines.Scheduler.Create | cpp/cppcoro/01.coroutine_ucontext.cpp:69-74 | a new ready coroutine; the 32-bit counter makes an unusable id exactly when it has wrapped to 0 |
| Coroutines.Scheduler.RunSegment | cpp/cppcoro/01.coroutine_ucontext.cpp:53-58 | while a body runs it is the only one running and `running_id` names it |
| Coroutines.Scheduler.Yield | cpp/cppcoro/01.coroutine_ucontext.cpp:99-107 | suspends the running coroutine, does nothing outside one |
| Coroutines.Scheduler.SwapIn | cpp/cppcoro/01.coroutine_ucontext.cpp:80-96 | one segment, then suspended or dead, and nothing runs |
| Coroutines.Scheduler.Resume | cpp/cppcoro/01.coroutine_ucontext.cpp:76-97 | runs the next segment; dead is final |
| Coroutines.Scheduler.Pass | cpp/cppcoro/01.coroutine_ucontext.cpp:115-121 | a round, in any order of the map, moves everyone one segment on, or to the end |
| Coroutines.Scheduler.Schedule | cpp/cppcoro/01.coroutine_ucontext.cpp:113-124 | terminates after as many rounds as the longest coroutine has segments left, with all dead, nothing running, and a fair trace |
| JsonRpc.BatchAnswersEveryCall | cpp/jsonrpc/json-rpc-cxx/include/jsonrpccxx/batchclient.hpp:49-74 | in a batch with distinct ids every method call finds under its id what its own handler, called with its values on the state at its turn, returned or raised: a type error as -32602, what is no `JsonRpcException` as -32603, and -32601 when there is no such method |
| JsonRpc.WorldMoves | cpp/jsonrpc/json-rpc-cxx/include/jsonrpccxx/server.hpp:37-45 | every call finds the application's state as the handlers of the earlier calls left it |
| JsonRpc.CallComesTo | cpp/jsonrpc/json-rpc-cxx/include/jsonrpccxx/dispatcher.hpp:53-65 | a method called with positional parameters: its handler decides state and outcome, or -32601 and the state unchanged |
| JsonRpc.NoteComesTo | cpp/jsonrpc/json-rpc-cxx/include/jsonrpccxx/dispatcher.hpp:67-79 | the same for notifications |
| JsonRpc.BadParameters | cpp/jsonrpc/json-rpc-cxx/include/jsonrpccxx/dispatcher.hpp:87-104 | parameters that reach no handler: -32600 for neither array nor object, -32602 for names without a mapping or a missing name |
| JsonRpc.MalformedIff | cpp/jsonrpc/json-rpc-cxx/include/jsonrpccxx/server.hpp:82-96 | for every JSON value, in terms of its fields, when it is answered with -32600, and how |
| JsonRpc.Answered | cpp/jsonrpc/json-rpc-cxx/include/jsonrpccxx/server.hpp:98-108 | every other request, field by field of its response; a notification has none, unless its handler throws what is not a `std::exception` |
| JsonRpc.AddsUp | cpp/jsonrpc/json-rpc-cxx/include/jsonrpccxx/server.hpp:62-108 | a request to add 1 and 2, and its response |
| JsonRpc.OneResponsePerCallIff | cpp/jsonrpc/json-rpc-cxx/include/jsonrpccxx/server.hpp:37-45 | one response per method call in request order and no invalid index, if and only if no notification handler throws what is not a `std::exception` |
| JsonRpc.AlwaysOneResponsePerCallIff | cpp/jsonrpc/json-rpc-cxx/include/jsonrpccxx/server.hpp:98-104 | so for every batch in every state if and only if no registered notification handler can throw such a thing |
| JsonRpc.NotificationAnswered | cpp/jsonrpc/json-rpc-cxx/include/jsonrpccxx/server.hpp:62-80 | a batch of one notification that is answered, with a null id |
| JsonRpc.ServePlays | cpp/jsonrpc/json-rpc-cxx/include/jsonrpccxx/server.hpp:37-45 | the answer to a batch is the calls made one after the other in request order, on the application's state as it then is |
| JsonRpc.OneReplyEach | cpp/jsonrpc/json-rpc-cxx/include/jsonrpccxx/server.hpp:98-107 | the ids of the answers, nulls aside, are those of the method calls in order |
| JsonRpc.FoundUnderId | cpp/jsonrpc/json-rpc-cxx/include/jsonrpccxx/batchclient.hpp:49-74 | the index finds a response under its id when no other response has it |
| JsonRpc.IndexPoints | cpp/jsonrpc/json-rpc-cxx/include/jsonrpccxx/batchclient.hpp:49-59 | every entry of the index points at a response of its kind and id |
| JsonRpc.ErrorSurvives | cpp/jsonrpc/json-rpc-cxx/include/jsonrpccxx/common.hpp:48-61 | an exception comes back with its code, message and data, one that is no `JsonRpcException` as an internal error |
| JsonRpc.NamedIsPositional | cpp/jsonrpc/json-rpc-cxx/include/jsonrpccxx/dispatcher.hpp:87-103 | named parameters that agree with positional ones under the mapping make the same call |
| JsonRpc.CollectPicks | cpp/jsonrpc/json-rpc-cxx/include/jsonrpccxx/dispatcher.hpp:94-101 | the mapped values in the mapping's order, or an error that names the first missing one |
| JsonRpc.Dispatcher.AddMethod | cpp/jsonrpc/json-rpc-cxx/include/jsonrpccxx/dispatcher.hpp:20-28 | a name is taken once, by either kind, and no other name changes |
| JsonRpc.Dispatcher.AddNotification | cpp/jsonrpc/json-rpc-cxx/include/jsonrpccxx/dispatcher.hpp:30-38 | the same for notifications |
| JsonRpc.Dispatcher.NormalizeParameter | cpp/jsonrpc/json-rpc-cxx/include/jsonrpccxx/dispatcher.hpp:87-104 | the loop collects the named values, or fails as specified |
| JsonRpc.Dispatcher.InvokeMethod | cpp/jsonrpc/json-rpc-cxx/include/jsonrpccxx/dispatcher.hpp:53-65 | lookup, parameters, call and translation of exceptions |
| JsonRpc.Dispatcher.InvokeNotification | cpp/jsonrpc/json-rpc-cxx/include/jsonrpccxx/dispatcher.hpp:67-79 | the same for notifications |
| JsonRpc.Server.AddMethod | cpp/jsonrpc/json-rpc-cxx/include/jsonrpccxx/server.hpp:14-18 | names that begin with "rpc." are refused |
| JsonRpc.Server.HandleSingleRequest | cpp/jsonrpc/json-rpc-cxx/include/jsonrpccxx/server.hpp:62-108 | one request and its response, or none |
| JsonRpc.Server.HandleRequest | cpp/jsonrpc/json-rpc-cxx/include/jsonrpccxx/server.hpp:34-59 | a batch, a single request, something else, or no JSON |
| JsonRpc.BatchRequest.AddMethodCall | cpp/jsonrpc/json-rpc-cxx/include/jsonrpccxx/batchclient.hpp:9-29 | appends exactly the call's request |
| JsonRpc.BatchResponse.constructor | cpp/jsonrpc/json-rpc-cxx/include/jsonrpccxx/batchclient.hpp:49-59 | the loop builds the three indices |
| JsonRpc.BatchResponse.Get | cpp/jsonrpc/json-rpc-cxx/include/jsonrpccxx/batchclient.hpp:61-74 | the indexed result or error, or a parse error |
| JsonRpc.BatchCall | cpp/jsonrpc/json-rpc-cxx/include/jsonrpccxx/batchclient.hpp:89-99 | client and server together: the indexed answer to the batch |

## Left out

- Sockets, poll, allocation failure (but for a size that is negative as an `int`, which always fails), OpenSSL, Kerberos, printing and the wording of error strings; AES, HMAC and the NTLM key are parameters, the network is a byte sequence that delivers what is asked or ends.
- sigslot: the lifetime of slot objects, tracked objects, RTTI comparison, moving a signal, and `signal_st`; `disconnect_all` is a step of the machine but not a method of the object.
- Signals.Signal.Emit: callbacks leave the signal alone; emissions with re-entrant callbacks are those of `SignalThreads`.
- SignalThreads: steps are sequentially consistent; weaker memory orders of the atomics are not part of this model.
- Smb2Engine: chains are sequences instead of linked lists, and a run is one connection, because `close` resets the message ids but not the credits and queues; grants are counted without bound beside the 32-bit field.
- Smb2Engine.Context.QueuePdu: signing is represented by how many members get their signature.
- Smb2Receive.Connection.ReceivePdus: the sizes and checks of the reply classes are parameters.
- Smb2Receive.Connection.Read: no call of `readv` fails; what a failure does is `SocketRead`.
- Smb2Compound.SendPdu: the socket is open; of an error of `writev` only whether the call is tried again is kept.
- SecurityDescriptor: decoding is a function on values, not on pointers; callback and unknown ACE types are not in the round trip, because the decoder stores the rest of the ACL for them; after `Wild`, and where the encoder would write outside, nothing is said; the sum of the entry sizes of a descriptor that was not decoded does not reach 2^32.
- SecurityDescriptor.Encode: after -1 nothing is said about the contents of the buffer.
- Smb2RequestBuilder: requests other than read and write; the compound create, query and close is an instance of `Smb2Compound.Build`.
- Extended attributes: the two sides of the codec disagree on the NUL and on the offsets, so there is no round trip.
- Utf: big-endian hosts.
- Ntlm.Encoder.Append: `size_t` does not wrap; with the proved bound on the capacity that takes contents of 2^60 bytes.
- Ntlm: the NEGOTIATE message, and the derivation of the key by NTOWFv2.
- Coroutines: a context switch runs a whole segment, bodies do not create or resume coroutines, coroutine objects are records in the scheduler's table, and the assembly version is left out.
- JsonRpc.BatchResponse.Get: the conversion of a result to a C++ type, and its error, are left out.
- JsonRpc: the text parser and printer, and an integer and a floating-point id that compare equal; for an error index behind a method's mapping, where the source reads outside the vector, the index itself is named.
- JsonRpc.BatchAnswersEveryCall: ids are distinct; with repeated ids the last response of a kind wins, and a result hides an error.
- The Asio connector, task threads, DCE/RPC, and the Qt, FTXUI, gRPC, Go and Python demos.

# Verified models of the tunnel's core protocols

A Dafny model of the protocol logic that this VPN client is built on, and proofs about it:

- **FragmentProto** (`FragmentWire`, `FragmentAssembler`, `FragmentDisassembler`, `FragmentEndToEnd`,
  `FragmentLimits`, `FragmentChunks`, `FragmentTiming`, `FragmentMixing`, `FragmentCancel`; the programs in
  `FragmentSlots` and `FragmentWriter`): frames cut into chunks, packed into packets, and put together again
  from a fixed pool of slots with a 32-bit packet clock.
- **Route exclusion** (`BitMath`, `Cidr`, `Routes`, `IpText`): subtracting CIDR blocks from 0.0.0.0/0.
- **FrameDecider** (`FrameMacs`, `FrameSignatures`, `FrameGroups`, `FrameDecision`): learned MAC addresses,
  multicast membership, and where each frame goes.
- **BProto** (`BProtoWire`, `BProto`, `BProtoMessage`): the emitted writers and parsers, for any schema.
- **The client's peers** (`Relays`, `Offers`, `Negotiation`, `DataFlows`, `RelayFlows`, `PeerLinks`): relay
  assignment, who connects to whom, who owns which buffer, and which flows are attached to which link.
- **The DHCP client** (`Dhcp`), the **job list** (`JobStack`) and **SPProto** (`SecurePackets`);
  `DatagramPeer` puts FragmentProto and SPProto on top of each other.

Each component has a model on values with its theorems. Where the source updates objects in place there is
also a class with the same fields, whose methods are proved to do what the model on values does. Linked
lists are sequences, search trees are maps, timers are deadlines or events, objects are numbers. `Lists` and
`Bytes` hold what several components use. `dafny verify dfyconfig.toml` checks everything.

Four places where the code does something one would not expect from its comments:

- A cancel of a partly sent frame does not advance the frame id, so that two frames can be delivered as a
  mixture (`FragmentCancel.CancelMixesFrames`). The end-to-end theorems are about runs without such cancels;
  for datagram peers, which set no chunk size limit, `FragmentCancel.CancelSafeExactlyWhen` says exactly when
  one is harmless.
- A connect offer that is too big for a message would be dropped without any other step, and the negotiation
  would stall. With the limits that the program puts on its configuration no offer is too big
  (`Offers.ConfiguredFits`, `Negotiation.Settles`).
- In `DataProtoFlow_Attach` and `DataProtoFlow_Free` the branches for a buffer that has a sink but is not
  busy cannot be reached.
- `FrameDecider_AnalyzeAndDecide` called with a multicast decision still under way frees the iterator and
  returns without a decision, in a state that cannot be gone through any more. Its one caller never does this.

## Model

| member | source | states |
|---|---|---|
| `FragmentWire.PacketRoundTrip` | app/src/main/jni/badvpn/client/FragmentProtoAssembler.c:299-302 | the chunks read back from a packet are exactly the chunks packed into it, for all chunks whose fields fit 16 bits |
| `FragmentWire.ReadsPrefix` | app/src/main/jni/badvpn/client/FragmentProtoAssembler.c:289-314 | of any packet, well formed or not, exactly the chunks of its longest prefix made of encoded chunks are read |
| `FragmentWire.ChunkBytes` | app/src/main/jni/badvpn/protocol/fragmentproto.h:54-80 | the header fields in order, each with its low byte first, then the flag and the data |
| `FragmentAssembler.Tiling` | app/src/main/jni/badvpn/client/FragmentProtoAssembler.c:195-278 | disjoint pieces inside [0,length) with lengths summing to length cover every offset, each by exactly one piece |
| `FragmentAssembler.ProcessChunkInv` | app/src/main/jni/badvpn/client/FragmentProtoAssembler.c:154-283 | any chunk, well formed or not, keeps every used frame's pieces disjoint, within its bound and fewer than num_chunks, the slot count, distinct ids, and the clock |
| `FragmentAssembler.DeliveryTiles` | app/src/main/jni/badvpn/client/FragmentProtoAssembler.c:230-278 | a delivered frame is assembled from pieces of one frame id that are disjoint, within its length and sum to it |
| `FragmentAssembler.AssembleSlices` | app/src/main/jni/badvpn/client/FragmentProtoAssembler.c:230-278 | if the tiling pieces are slices of one frame, what is delivered is that frame, byte for byte |
| `FragmentAssembler.ReduceTimesCorrect` | app/src/main/jni/badvpn/client/FragmentProtoAssembler.c:110-152 | rebasing drops exactly the timed-out frames, keeps each survivor with its age and contents, and leaves the clock below its maximum |
| `FragmentAssembler.TickInv` | app/src/main/jni/badvpn/client/FragmentProtoAssembler.c:322-346 | the end of a packet ages every survivor by exactly one and never wraps the 32-bit clock |
| `FragmentAssembler.PacketTicksOnce` | app/src/main/jni/badvpn/client/FragmentProtoAssembler.c:285-346 | any packet, any bytes: the clock moves by one step at most, however many frames complete, and stays within 32 bits |
| `FragmentAssembler.Run` | app/src/main/jni/badvpn/client/FragmentProtoAssembler.c:285-368 | the assembler invariant holds after every sequence of input packets, of any bytes |
| `FragmentChunks.ChunkEffect` | app/src/main/jni/badvpn/client/FragmentProtoAssembler.c:154-283 | what a chunk does, from the chunks of its frame that came before: one that does not fit changes nothing, one that contradicts them ends the frame, one that completes them delivers the frame all of them are parts of, any other is kept if there is room |
| `FragmentTiming.Delivered` | app/src/main/jni/badvpn/client/FragmentProtoAssembler.c:110-283 | a frame is delivered, once, if each chunk of its cut arrives once, in any order among other packets, at most num_frames packets after the one before, with fewer than num_frames other frames begun meanwhile and its id not in use |
| `FragmentTiming.SilenceForgets` | app/src/main/jni/badvpn/client/FragmentProtoAssembler.c:110-193 | after more than num_frames packets without a chunk of an id, nothing received under it before takes part: only the frame whose chunks come then is delivered |
| `FragmentDisassembler.NewChunksCut` | app/src/main/jni/badvpn/client/FragmentProtoDisassembler.c:48-82 | the chunks written for a frame cut it into consecutive slices, the last one flagged, empty frames included |
| `FragmentDisassembler.StepValid` | app/src/main/jni/badvpn/client/FragmentProtoDisassembler.c:39-162 | every handler keeps the disassembler state valid: positions within the frame, the packet within the output MTU |
| `FragmentDisassembler.RunKeeps` | app/src/main/jni/badvpn/client/FragmentProtoDisassembler.c:39-162 | over every run without a cancel of a partly written frame, the packets sent plus the open one are exactly the cuts of the frames accepted, with consecutive 16-bit ids |
| `FragmentDisassembler.GivesOut` | app/src/main/jni/badvpn/client/FragmentProtoDisassembler.c:84-101 | with a latency a packet goes out when no other chunk fits and until then stays open with the timer running; without one it goes out at once; the timer gives it out as it is |
| `FragmentDisassembler.RoomMeansTimer` | app/src/main/jni/badvpn/client/FragmentProtoDisassembler.c:84-162 | over clean runs, a packet with room for another chunk was given out by the timer, unless the latency is negative |
| `FragmentDisassembler.RunPacked` | app/src/main/jni/badvpn/client/FragmentProtoDisassembler.c:48-70 | over clean runs, every chunk is within the chunk limit, and is the end of its frame, as long as the limit, or the end of a full packet |
| `FragmentEndToEnd.Safety` | app/src/main/jni/badvpn/client/FragmentProtoAssembler.c:154-346 | any loss, duplication or reordering of the packets of a clean run without reused ids: every delivered frame is one of the frames sent |
| `FragmentEndToEnd.RoundTrip` | app/src/main/jni/badvpn/client/FragmentProtoDisassembler.c:39-162 | packets fed in order to a big enough assembler give the same frames in the same order: a prefix always, all of them once nothing waits in the open packet; ids may wrap |
| `FragmentLimits.SlotsEnough` | app/src/main/jni/badvpn/protocol/fragmentproto.h:92-98 | with no chunk size limit a frame is never cut into more chunks than fragmentproto_max_chunks_for_frame computes |
| `FragmentLimits.MaxChunksIs` | app/src/main/jni/badvpn/protocol/fragmentproto.h:92-98 | one chunk more than the smallest number of packets that hold the frame |
| `FragmentLimits.DatagramRoundTrip` | app/src/main/jni/badvpn/client/DatagramPeerIO.c:190-200 | the round trip with the chunk slots that the datagram I/O object configures: no capacity assumption is left |
| `FragmentCancel.CancelMixesFrames` | app/src/main/jni/badvpn/client/FragmentProtoDisassembler.c:122-132 | safety is false of runs with a cancel of a partly sent frame: six events, two arriving packets, and the one frame delivered is neither of the two sent |
| `FragmentCancel.CancelSafeExactlyWhen` | app/src/main/jni/badvpn/client/FragmentProtoDisassembler.c:122-132 | any latency and timing, no chunk size limit: f is cancelled with u bytes written, then g sent whole; whatever arrives, only g is delivered under their id if and only if the first chunk of f was shorter than a packet, or f and g agree on the first min(u, payload * (chunks of g - 1)) bytes |
| `FragmentCancel.CancelSends` | app/src/main/jni/badvpn/client/FragmentProtoDisassembler.c:39-149 | what every such run sends: the first chunks of f, of which the first may go into the packet that was open, and all chunks of g, under one id; g alone is finished |
| `FragmentMixing.SafeExactlyWhen` | app/src/main/jni/badvpn/client/FragmentProtoAssembler.c:154-346 | of chunks of two frames under one id, in any selection, order and repetition and among chunks of other ids, only g comes out if and only if the first chunk of f is short or the frames agree where f can stand in for g |
| `FragmentMixing.AllOnGrid` | app/src/main/jni/badvpn/client/FragmentProtoAssembler.c:230-278 | in a complete frame no piece before the last ends off the packet grid: pieces off the grid would have to follow up to the last one, which starts on it |
| `FragmentMixing.GoodStep` | app/src/main/jni/badvpn/client/FragmentProtoAssembler.c:154-283 | with harmless chunks any chunk keeps the pending frame such that only g can come out |
| `DatagramPeer.PeerRoundTrip` | app/src/main/jni/badvpn/client/DatagramPeerIO.c:163-233 | both layers: every datagram fits the socket, and frames cut, secured, decoded and assembled come out the same, in order |
| `DatagramPeer.PeerSafety` | app/src/main/jni/badvpn/client/DatagramPeerIO.c:163-233 | both layers: whatever arrives that is a sent datagram or cannot be decoded, every frame delivered was sent |
| `DatagramPeer.PeerDelivers` | app/src/main/jni/badvpn/client/DatagramPeerIO.c:163-233 | both layers: a frame of the run is delivered although its datagrams are late, out of order and mixed with others, within the number of frames configured |
| `FragmentSlots.FragmentProtoAssembler.FreeFrame` | app/src/main/jni/badvpn/client/FragmentProtoAssembler.c:46-68 | the slot goes to the free list and out of the tree; the frame it stood for is gone from the view |
| `FragmentSlots.FragmentProtoAssembler.AllocateNewFrame` | app/src/main/jni/badvpn/client/FragmentProtoAssembler.c:70-103 | a free slot, or the oldest one evicted, becomes an empty frame with this id at the end of the used list |
| `FragmentSlots.FragmentProtoAssembler.OverlapsStored` | app/src/main/jni/badvpn/client/FragmentProtoAssembler.c:195-203 | the loop over stored chunks finds an overlap exactly when there is one |
| `FragmentSlots.FragmentProtoAssembler.ProcessChunk` | app/src/main/jni/badvpn/client/FragmentProtoAssembler.c:154-283 | slots, chunk arrays, reused buffers, lists and tree together do exactly what the value model does, including the bytes delivered |
| `FragmentSlots.FragmentProtoAssembler.ReduceTimes` | app/src/main/jni/badvpn/client/FragmentProtoAssembler.c:117-152 | the two loops over the used list compute the rebased state of the value model |
| `FragmentSlots.FragmentProtoAssembler.ProcessInput` | app/src/main/jni/badvpn/client/FragmentProtoAssembler.c:285-346 | reads chunks until a frame completes, the input is malformed or ends; what is left then gives the rest of the packet's frames |
| `FragmentSlots.FragmentProtoAssembler.Submit` | app/src/main/jni/badvpn/client/FragmentProtoAssembler.c:348-368 | a whole packet, with the output accepting each frame: frames and new state are those of ProcessPacket |
| `FragmentSlots.BufferIsFrame` | app/src/main/jni/badvpn/client/FragmentProtoAssembler.c:255-278 | the bytes of a reused, never cleared buffer are the assembled frame once its chunks tile it |
| `FragmentWriter.FragmentProtoDisassembler.FillPacket` | app/src/main/jni/badvpn/client/FragmentProtoDisassembler.c:48-82 | the do-while loop writes, at the right offsets of the output buffer, the bytes of exactly the chunks of the value model |
| `FragmentWriter.FragmentProtoDisassembler.WriteChunks` | app/src/main/jni/badvpn/client/FragmentProtoDisassembler.c:39-102 | packet submitted, timer, input finished and frame id afterwards are those of the value model |
| `FragmentWriter.FragmentProtoDisassembler.RequestCancel` | app/src/main/jni/badvpn/client/FragmentProtoDisassembler.c:122-132 | the frame is dropped, the frame id is not advanced |
| `FragmentWriter.FragmentProtoDisassembler.InputSend` | app/src/main/jni/badvpn/client/FragmentProtoDisassembler.c:104-120 | the frame is taken in, and written at once if a packet is open |
| `FragmentWriter.FragmentProtoDisassembler.OutputRecv` | app/src/main/jni/badvpn/client/FragmentProtoDisassembler.c:134-149 | the packet buffer is taken, and filled at once if a frame is there |
| `FragmentWriter.FragmentProtoDisassembler.TimerHandler` | app/src/main/jni/badvpn/client/FragmentProtoDisassembler.c:151-162 | the waiting packet is given out as it is |
| `Routes.MaskedBlock` | app/src/main/java/com/psiphon3/VpnManager.java:405-409 | masking with prefixToMask and or-ing its complement give the first and last address of the aligned block around the address |
| `Routes.SplitPieces` | app/src/main/java/com/psiphon3/VpnManager.java:373-403 | every block of a split is aligned, inside the split block, apart from the excluded one, with its sibling meeting it; in address order |
| `Routes.SplitCovers` | app/src/main/java/com/psiphon3/VpnManager.java:373-403 | no address outside the excluded block is lost, so the early return at prefix 32 never loses one |
| `Routes.SplitCount` | app/src/main/java/com/psiphon3/VpnManager.java:373-403 | splitting a /r by a /s strictly inside gives s-r blocks, one of each length r+1..s |
| `Routes.SplitExcluding` | app/src/main/java/com/psiphon3/VpnManager.java:373-403 | the recursion ends and appends exactly the split |
| `Routes.SubtractCidr` | app/src/main/java/com/psiphon3/VpnManager.java:345-367 | the loop computes the subtraction of the aligned block around the given address from every route |
| `Routes.SubtractApart` | app/src/main/java/com/psiphon3/VpnManager.java:345-403 | aligned, pairwise disjoint routes stay aligned and pairwise disjoint |
| `Routes.SubtractExact` | app/src/main/java/com/psiphon3/VpnManager.java:345-403 | the result covers precisely the old addresses that the subtracted block does not have |
| `Routes.Canonical` | app/src/main/java/com/psiphon3/VpnManager.java:295-308 | after any list of exclusions the routes are exactly the maximal aligned blocks disjoint from all of them, in address order |
| `Routes.OrderIndependent` | app/src/main/java/com/psiphon3/VpnManager.java:295-308 | the routes depend only on the set of exclusions, not on order or repetition |
| `Routes.ExcludeExact` | app/src/main/java/com/psiphon3/VpnManager.java:295-308 | an address is routed if and only if no exclusion has it |
| `Routes.Minimal` | app/src/main/java/com/psiphon3/VpnManager.java:295-308 | no other list of aligned blocks that covers the same addresses is shorter |
| `Routes.ApplyVpnRoutes` | app/src/main/java/com/psiphon3/VpnManager.java:295-308 | the two loops, with the LAN subnets when sharing, end with exactly the maximal blocks that avoid all exclusions: an address is routed if and only if it is not private while sharing and shares no excluded network part |
| `Routes.LanIsPrivate` | app/src/main/java/com/psiphon3/VpnManager.java:259-265 | the subnets left out when sharing are exactly 10.x, 172.16.x to 172.31.x and 192.168.x |
| `IpText.QuadRoundTrip` | app/src/main/java/com/psiphon3/VpnManager.java:411-426 | longToIp undoes ipToLong on every quad of octets |
| `IpText.LongRoundTrip` | app/src/main/java/com/psiphon3/VpnManager.java:411-426 | ipToLong undoes longToIp on every 32-bit address |
| `FrameMacs.LearnInv` | app/src/main/jni/badvpn/client/FrameDecider.c:69-118 | learning keeps owner map and recency queues consistent, each queue without duplicates and bounded |
| `FrameMacs.LearnEffect` | app/src/main/jni/badvpn/client/FrameDecider.c:69-118 | the learned MAC belongs to the learning peer and is its most recent; every other MAC keeps its owner, except that peer's oldest when its pool was full; other queues are untouched |
| `FrameMacs.DropPeerEffect` | app/src/main/jni/badvpn/client/FrameDecider.c:650-656 | exactly the MACs of the freed peer are forgotten |
| `FrameMacs.RecentStays` | app/src/main/jni/badvpn/client/FrameDecider.c:69-118 | over any run, a MAC stays with its peer while nobody else uses it and the peer used fewer than the maximum of other addresses since |
| `FrameMacs.MacTable.AddMacToPeer` | app/src/main/jni/badvpn/client/FrameDecider.c:69-118 | free and used lists, entries and tree implement Learn; free plus used entries stay a partition of each fixed pool |
| `FrameMacs.MacTable.Lookup` | app/src/main/jni/badvpn/client/FrameDecider.c:498-504 | the tree lookup is the owner map |
| `FrameMacs.MacTable.FreePeer` | app/src/main/jni/badvpn/client/FrameDecider.c:650-656 | exactly the peer's MACs leave the table |
| `FrameSignatures.SignatureAgrees` | app/src/main/jni/badvpn/client/FrameDecider.c:120-131 | the signature of a group's Ethernet address (section 6.4 of RFC 1112) is the group's, and groups share an address exactly when they share the signature |
| `FrameSignatures.MembersExact` | app/src/main/jni/badvpn/client/FrameDecider.c:481-496 | the list of a signature holds exactly the used entries with it, once each; no list if there is none |
| `FrameSignatures.AddInv` | app/src/main/jni/badvpn/client/FrameDecider.c:133-164 | adding an entry keeps one master per signature in use, and every list exact |
| `FrameSignatures.RemoveInv` | app/src/main/jni/badvpn/client/FrameDecider.c:166-197 | removing an entry, a master included, keeps that: a neighbour takes over or the signature leaves the tree |
| `FrameGroups.JoinEffect` | app/src/main/jni/badvpn/client/FrameDecider.c:199-252 | the joined group is the most recent; other memberships stay, except the oldest when the pool was full |
| `FrameGroups.LeaveEffect` | app/src/main/jni/badvpn/client/FrameDecider.c:254-279 | exactly the left group is gone |
| `FrameGroups.GroupTable.AddGroupToPeer` | app/src/main/jni/badvpn/client/FrameDecider.c:199-252 | entries, lists, per-peer tree and signature index implement Join, eviction included |
| `FrameGroups.GroupTable.RemoveGroupEntry` | app/src/main/jni/badvpn/client/FrameDecider.c:254-321 | a timeout implements Leave |
| `FrameGroups.GroupTable.LowerGroupTimersToLmqt` | app/src/main/jni/badvpn/client/FrameDecider.c:281-314 | the loop over the signature list lowers exactly the timers of that group that are later than the limit, for all peers (section 6.6.1 of RFC 3376) |
| `FrameGroups.GroupTable.LookupSig` | app/src/main/jni/badvpn/client/FrameDecider.c:481-496 | the list found holds exactly the used entries with the signature, once each |
| `FrameGroups.GroupTable.FreePeer` | app/src/main/jni/badvpn/client/FrameDecider.c:626-648 | the loop takes exactly the peer's entries out of the index |
| `FrameDecision.ReturnsPerEntry` | app/src/main/jni/badvpn/client/FrameDecider.c:541-550 | going through a signature list returns each peer once for each group it joined with that signature |
| `FrameDecision.WhereFramesGo` | app/src/main/jni/badvpn/client/FrameDecider.c:469-510 | IGMP and broadcast frames go to all peers, frames to the Ethernet address of a group to the peers that joined a group with that address, others to the owner of the address or to all |
| `FrameDecision.JoinAllEffect` | app/src/main/jni/badvpn/client/FrameDecider.c:714-780 | of the last max groups reported each is a membership until the new end, and every other membership was there before |
| `FrameDecision.FrameDecider.AnalyzeAndDecide` | app/src/main/jni/badvpn/client/FrameDecider.c:361-510 | the destinations still to come are the right ones: everyone, the members, the owner, or nobody; after a group-specific query each membership of the group has the smaller of its old end and now plus the query time, and all else is unchanged; a call during a multicast decision does none of this |
| `FrameDecision.FrameDecider.NextDestination` | app/src/main/jni/badvpn/client/FrameDecider.c:512-556 | returns the first destination still to come and leaves the rest |
| `FrameDecision.FrameDecider.Forward` | app/src/main/jni/badvpn/client/client.c:2666-2682 | deciding and then draining gives exactly the right destinations, and ends; memberships change as a query says, otherwise not at all |
| `FrameDecision.FrameDecider.FreePeer` | app/src/main/jni/badvpn/client/FrameDecider.c:626-669 | the peer leaves list, tables and index, and the destinations still to come lose exactly that peer |
| `FrameDecision.FrameDecider.GroupTimerExpired` | app/src/main/jni/badvpn/client/FrameDecider.c:316-321 | an expired membership implements Leave for that peer and nothing else |
| `FrameDecision.FrameDecider.AnalyzePeer` | app/src/main/jni/badvpn/client/FrameDecider.c:671-795 | the source address is learned and every reported group is joined, in order |
| `BProtoWire.EncodeReadItem` | app/src/main/jni/badvpn/bproto_generator/bproto_functions.php:451-560 | an entry that is read is exactly the bytes there, with fields in range |
| `BProtoWire.ItemBytes` | app/src/main/jni/badvpn/bproto/BProto.h:41-83 | id, type and, for data, length with the low byte first; types 1 to 6 with bodies of 1, 2, 4 and 8 bytes or of the given length |
| `BProtoWire.EncodeInjective` | app/src/main/jni/badvpn/bproto_generator/bproto_functions.php:354-405 | the bytes of a message determine its entries |
| `BProto.LookupIs` | app/src/main/jni/badvpn/bproto_generator/bproto_functions.php:470-560 | for a schema without duplicate cases, the nested switches accept an entry exactly for the one field that matches id, type and constant size |
| `BProto.MayShareId` | app/src/main/jni/badvpn/bproto_generator/bproto_functions.php:451-575 | which two fields may have the same id: integers of different widths, or data and an integer |
| `BProto.TypeNumbers` | app/src/main/jni/badvpn/bproto/BProto.h:41-46 | the type number of every kind of field and the width of every integer |
| `BProto.Cardinalities` | app/src/main/jni/badvpn/bproto_generator/bproto_functions.php:578-600 | an accepted message has one value of each required field, at most one of each optional one, at least one of each required repeated one, all of the type and size of the field |
| `BProto.AcceptableWhen` | app/src/main/jni/badvpn/bproto_generator/bproto_functions.php:578-600 | and every list of entries of the schema with these numbers of values is accepted |
| `BProto.ParseAll` | app/src/main/jni/badvpn/bproto_generator/bproto_functions.php:421-610 | Parser_Init accepts exactly the byte strings that encode entries of the schema with the right cardinalities, and start and span enclose exactly each field's entries |
| `BProto.SentinelNeverCollides` | app/src/main/jni/badvpn/bproto_generator/bproto_functions.php:431-440 | start equals the buffer length exactly when the field does not occur |
| `BProto.Scan` | app/src/main/jni/badvpn/bproto_generator/bproto_functions.php:648-759 | for any accepted message no assertion of Get fails; it returns the next entry with the id and type and skips interleaved ones |
| `BProtoMessage.RoundTrip` | app/src/main/jni/badvpn/bproto_generator/bproto_functions.php:342-419 | for every schema and call sequence meeting the assertions: accepted, every field's values in written order, length the sum of the size macros |
| `BProtoMessage.LengthIsSum` | app/src/main/jni/badvpn/bproto_generator/bproto_functions.php:177-189 | the written length is the sum of the size macros |
| `BProtoMessage.OnlyReading` | app/src/main/jni/badvpn/bproto_generator/bproto_functions.php:421-610 | whatever list of entries a parser finds in the writer's bytes, its values are those that were added |
| `BProtoMessage.Writer.Add` | app/src/main/jni/badvpn/bproto_generator/bproto_functions.php:354-419 | header, length and value go to the end of the output; the bytes stay the encoding of the calls made |
| `BProtoMessage.Writer.Finish` | app/src/main/jni/badvpn/bproto_generator/bproto_functions.php:320-340 | under the cardinality assertions the bytes written are an acceptable message of the summed size |
| `BProtoMessage.Parser.Init` | app/src/main/jni/badvpn/bproto_generator/bproto_functions.php:421-610 | succeeds exactly on acceptable messages; then every field has all its values left |
| `BProtoMessage.Parser.Get` | app/src/main/jni/badvpn/bproto_generator/bproto_functions.php:648-759 | gives the first value left and leaves the others, or none if there is none; other fields are not affected |
| `BProtoMessage.Parser.Reset` | app/src/main/jni/badvpn/bproto_generator/bproto_functions.php:761-764 | all values of the field are left again |
| `BProtoMessage.Parser.Forward` | app/src/main/jni/badvpn/bproto_generator/bproto_functions.php:766-769 | no value of the field is left |
| `BProtoMessage.Parser.GotEverything` | app/src/main/jni/badvpn/bproto_generator/bproto_functions.php:612-637 | true exactly when no field has values left |
| `Relays.StepInv` | app/src/main/jni/badvpn/client/client.c:1729-1898 | every event keeps the relay invariant and leaves nobody waiting while there is a relay; a removed peer is not referred to any more |
| `Relays.DownEffect` | app/src/main/jni/badvpn/client/client.c:2637-2644 | when its data connection goes down a peer is no relay and nobody is reached through it; its users go to the first other relay or wait, everyone else is reached as before |
| `Relays.UpEffect` | app/src/main/jni/badvpn/client/client.c:2630-2636 | a linked relay server whose data connection goes up is the last relay, and whoever waited is reached through it |
| `Relays.CannotBindEffect` | app/src/main/jni/badvpn/client/client.c:1847-1868 | a peer that cannot be bound to has no link, and is reached through the first relay or waits if there is none; nobody else is affected |
| `Relays.ConnectEffect` | app/src/main/jni/badvpn/client/client.c:2348-2355 | a connection attempt gives the peer a link if it gets one, and leaves it no other connection |
| `Relays.ResetEffect` | app/src/main/jni/badvpn/client/client.c:1900-1914 | after a reset the peer has no connection of any kind |
| `Relays.RemovedEffect` | app/src/main/jni/badvpn/client/client.c:1509-1568 | nothing refers to a removed peer, and the others keep their links and roles |
| `Relays.AddedEffect` | app/src/main/jni/badvpn/client/client.c:1440-1475 | a new peer is known with its relay server flag and has no connection |
| `Relays.RelayExactlyWhen` | app/src/main/jni/badvpn/client/client.c:2626-2645 | in every run a peer is a relay exactly if it is a relay server and the last it heard of the data connection over its present link was that it went up |
| `Relays.Reachable` | app/src/main/jni/badvpn/client/client.c:1729-1898 | in every reachable state: at most one of link, relaying, waiting; providers have links; users lists match; no self-relay or chain; no waiting while a provider exists |
| `Relays.NoChains` | app/src/main/jni/badvpn/client/client.c:1802-1822 | no peer relays through itself or through a relayed peer |
| `Relays.AssignInv` | app/src/main/jni/badvpn/client/client.c:2684-2709 | after an assignment all lists match again and nobody waits while there is a relay |
| `Relays.DisableEffect` | app/src/main/jni/badvpn/client/client.c:1771-1800 | when a relay goes, the first other relay gets all its users at the end of its list, or they all wait in order; other users are untouched |
| `Relays.CleanupInv` | app/src/main/jni/badvpn/client/client.c:1729-1748 | after a cleanup the peer has no connection of any kind and the invariant holds |
| `Relays.ForgetInv` | app/src/main/jni/badvpn/client/client.c:1509-1568 | after the removal nothing refers to the peer |
| `PeerLinks.Client.AssignRelays` | app/src/main/jni/badvpn/client/client.c:2684-2709 | the loop ends, its assertions hold, and everyone who waited is given to the first relay in order |
| `PeerLinks.Client.PeerDisableRelayProvider` | app/src/main/jni/badvpn/client/client.c:1771-1800 | the loop ends, its assertions hold, and the users are handed over as a whole |
| `PeerLinks.Client.PeerEnableRelayProvider` | app/src/main/jni/badvpn/client/client.c:1750-1769 | the peer becomes the last relay and the waiting peers are assigned |
| `PeerLinks.Client.PeerCleanupConnections` | app/src/main/jni/badvpn/client/client.c:1729-1748 | its closing assertions hold: the peer is idle |
| `PeerLinks.Client.PeerNeedRelay` | app/src/main/jni/badvpn/client/client.c:1847-1868 | the peer gives up its link or relay, then has a relay or waits |
| `PeerLinks.Client.Handle` | app/src/main/jni/badvpn/client/client.c:2626-2645 | every event is handled as in the reference, whose effects are stated event by event, and keeps the invariant |
| `Negotiation.Terminates` | app/src/main/jni/badvpn/client/client.c:2293-2403 | every run of a fresh pair is short, makes at most n+m offers, and ends as the two address lists determine |
| `Negotiation.OutcomeMeans` | app/src/main/jni/badvpn/client/client.c:2001-2122 | how it ends: the receiver of the first offer with a usable external address connects to the first such address, the master being tried first; if all addresses of both sides come to nothing both ask for a relay |
| `Negotiation.StrayMessages` | app/src/main/jni/badvpn/client/client.c:2087-2104 | a refusal when nothing is being offered is ignored |
| `Negotiation.Continues` | app/src/main/jni/badvpn/client/client.c:2001-2122 | a run goes on as long as a message is under way |
| `Negotiation.StepInv` | app/src/main/jni/badvpn/client/client.c:2001-2122 | each delivery keeps the phase invariant (one message under way at most) and brings the end nearer |
| `Negotiation.SettlesExactlyWhen` | app/src/main/jni/badvpn/client/client.c:2544-2549 | for any addresses, configurable or not: it ends with a connection attempt or two relay requests if and only if no bound address whose offer is too big for a message is reached |
| `Negotiation.OversizedOfferStalls` | app/src/main/jni/badvpn/client/client.c:2544-2549 | what the size check would do: an oversized first offer is dropped and neither side does anything more |
| `Negotiation.Settles` | app/src/main/jni/badvpn/client/client.c:2001-2122 | with any addresses the program can be configured with, a run ends with one side connecting to an offered address or with both sides having asked for a relay |
| `Offers.FitsMessage` | app/src/main/jni/badvpn/client/client.c:2524-2549 | the loop over the addresses and the check compute whether the offer fits MSG_MAX_PAYLOAD |
| `Offers.OfferSizeIs` | app/src/main/jni/badvpn/client/client.c:2524-2549 | the size of an offer in numbers, and the limit of 1984 bytes |
| `Offers.AddressIsReadable` | app/src/main/jni/badvpn/protocol/addr.h:121-151 | from an address message the receiver gets its type, port and bytes, and no other field |
| `Offers.ConfiguredFits` | app/src/main/jni/badvpn/client/client.c:1279-1284 | at most 8 external addresses, scope names below 64 characters, keys of at most 16 bytes: the offer always fits |
| `Offers.OfferIsReadable` | app/src/main/jni/badvpn/client/client.c:2551-2605 | an offer that fits is an acceptable message of the computed size from which the receiver gets exactly the external addresses, in order |
| `Offers.ExtIsReadable` | app/src/main/jni/badvpn/client/client.c:2572-2592 | and from each of them its scope name and its address |
| `Negotiation.PeerBinding.PeerBind` | app/src/main/jni/badvpn/client/client.c:2301-2403 | the loop skips unusable and unbindable addresses, makes one offer, or gives up (the slave then asks for a relay) |
| `Negotiation.PeerBinding.PeerMsgYouconnect` | app/src/main/jni/badvpn/client/client.c:2001-2085 | the first address with a known scope that can be read is used, else the offer is declined |
| `Negotiation.PeerBinding.PeerMsgCannotconnect` | app/src/main/jni/badvpn/client/client.c:2087-2104 | goes on binding if binding |
| `Negotiation.PeerBinding.PeerMsgCannotbind` | app/src/main/jni/badvpn/client/client.c:2106-2122 | the slave starts binding, the master asks for a relay |
| `PeerLinks.WhoWants` | app/src/main/jni/badvpn/client/client.c:1606-1727 | in every state of the client the flows attached to the sink of a link are exactly the local flow of that peer, the local flows of the peers reached through it, and the relay flows to it |
| `PeerLinks.NobodyWants` | app/src/main/jni/badvpn/client/client.c:1695-1727 | without its link no local flow and no relay flow wants the sink of a peer |
| `PeerLinks.Client.PeerFreeLink` | app/src/main/jni/badvpn/client/client.c:1695-1727 | once router and local flow are detached no flow is attached to the sink, so that DataProtoSink_Free may be called; flows and sinks agree with the connections again |
| `PeerLinks.Client.PeerInitLink` | app/src/main/jni/badvpn/client/client.c:1664-1679 | a new sink with the local flow and all relay flows to the peer attached; flows and sinks agree with the connections |
| `PeerLinks.Client.PeerInstallRelaying` | app/src/main/jni/badvpn/client/client.c:1802-1822 | the local flow is attached to the sink of the relay, which is live |
| `PeerLinks.Client.PeerFreeRelaying` | app/src/main/jni/badvpn/client/client.c:1824-1845 | the local flow is detached from the sink of the relay |
| `PeerLinks.Client.PeerAdd` | app/src/main/jni/badvpn/client/client.c:1440-1475 | a new peer has a local flow, a source and a destination, none of them attached |
| `PeerLinks.Client.ReceivePeerFree` | app/src/main/jni/badvpn/client/DPReceive.c:253-267 | exactly the relay flows from or to the peer go; the local flows want what they wanted |
| `PeerLinks.Client.PeerForget` | app/src/main/jni/badvpn/client/client.c:1521-1535 | no flow from or to the removed peer is left, and its local flow is freed unattached |
| `PeerLinks.Client.RelayFrame` | app/src/main/jni/badvpn/client/DPReceive.c:165-168 | a relayed frame keeps the ties between flows and connections, and goes to the flow of its pair |
| `PeerLinks.Client.FlowInactive` | app/src/main/jni/badvpn/client/DPRelay.c:109-114 | a relay flow that times out goes, whatever its destination is attached to |
| `DataFlows.Ownership` | app/src/main/jni/badvpn/client/DataProto.c:127-225 | over every interleaving: a buffer not where its flow wants it is the busy, single detaching buffer of its sink; no live buffer is in a freed sink; none is freed twice |
| `DataFlows.QuietMeansPlaced` | app/src/main/jni/badvpn/client/DataProto.c:516-566 | once nothing is busy every buffer has a flow and is where the flow wants it |
| `DataFlows.NothingLeaks` | app/src/main/jni/badvpn/client/DataProto.c:458-484 | once all flows and sinks are freed, every buffer ever allocated has been freed |
| `DataFlows.AttachInv` | app/src/main/jni/badvpn/client/DataProto.c:516-543 | attaching keeps the invariant, also while the buffer is still busy elsewhere |
| `DataFlows.DetachInv` | app/src/main/jni/badvpn/client/DataProto.c:545-566 | detaching keeps the invariant; the buffer of an attached flow always has a sink |
| `DataFlows.FlowFreeInv` | app/src/main/jni/badvpn/client/DataProto.c:458-484 | freeing a flow keeps the invariant; a busy buffer survives without flow |
| `DataFlows.SinkFreeInv` | app/src/main/jni/badvpn/client/DataProto.c:297-309 | freeing a sink that no flow wants leaves no buffer in it |
| `DataFlows.FinishDetachInv` | app/src/main/jni/badvpn/client/DataProto.c:200-216 | a buffer that is let go is freed if its flow is gone, else is where the flow wants it |
| `DataFlows.FlowEffect` | app/src/main/jni/badvpn/client/DataProto.c:396-566 | what the calls do to a flow: what it wants, and when its buffer is freed; no other buffer moves |
| `DataFlows.SinkEffect` | app/src/main/jni/badvpn/client/DataProto.c:227-309 | sinks come and go, and with a sink the busy periods in it; its detaching buffer is released |
| `DataFlows.StartsEffect` | app/src/main/jni/badvpn/client/DataProto.c:180-198 | the beginning of a busy period changes nothing else |
| `DataFlows.DoneEffect` | app/src/main/jni/badvpn/client/DataProto.c:218-225 | at the end of a busy period a buffer without flow is freed, any other is where its flow wants it |
| `DataFlows.ReportsAlternate` | app/src/main/jni/badvpn/client/DataProto.c:62-109 | up and down reports alternate beginning with up, and the job is set exactly while the last report is out of date |
| `DataFlows.UpExactlyWhen` | app/src/main/jni/badvpn/client/DataProto.c:71-79 | over every run, up says that the last sign was a packet by which the peer says that it receives |
| `DataFlows.JobReports` | app/src/main/jni/badvpn/client/DataProto.c:100-109 | the job reports up if it is news, and nothing else makes a report |
| `DataFlows.FlowTable.DataProtoFlowAttach` | app/src/main/jni/badvpn/client/DataProto.c:516-543 | new state as specified; the branch for a buffer that is neither busy nor detached cannot be reached |
| `DataFlows.FlowTable.DataProtoFlowDetach` | app/src/main/jni/badvpn/client/DataProto.c:545-566 | new state as specified; its assertions hold |
| `DataFlows.FlowTable.DataProtoFlowFree` | app/src/main/jni/badvpn/client/DataProto.c:458-484 | new state as specified; the branch for a buffer that is neither busy nor detached cannot be reached |
| `DataFlows.FlowTable.DataProtoSinkFree` | app/src/main/jni/badvpn/client/DataProto.c:297-309 | new state as specified: the detaching buffer is not wanted by this sink and is released; no buffer refers to the sink afterwards |
| `DataFlows.FlowTable.QueueFlowDone` | app/src/main/jni/badvpn/client/DataProto.c:218-225 | new state as specified: a buffer that was to be let go is freed or goes where its flow wants it |
| `DataFlows.FlowTable.DataProtoSinkInit` | app/src/main/jni/badvpn/client/DataProto.c:227-295 | the new sink has no detaching buffer, and the invariant holds |
| `DataFlows.FlowTable.QueueFlowStarts` | app/src/main/jni/badvpn/client/DataProto.c:180-198 | a busy period begins in a queue that is not busy: new state as specified, and the invariant holds |
| `RelayFlows.AddFlowInv` | app/src/main/jni/badvpn/client/DPRelay.c:42-82 | a new flow is in both its lists, and there is one flow per pair at most |
| `RelayFlows.DropFlowInv` | app/src/main/jni/badvpn/client/DPRelay.c:84-107 | a freed flow is in no list and is not the current flow |
| `RelayFlows.DropCurrent` | app/src/main/jni/badvpn/client/DPRelay.c:84-107 | only the freed flow is given up as the one the next frame goes to |
| `RelayFlows.SwitchEnd` | app/src/main/jni/badvpn/client/DPRelay.c:278-307 | after the loop all flows of the destination, and no others, have changed their sink |
| `RelayFlows.DPRelayRouter.SubmitFrame` | app/src/main/jni/badvpn/client/DPRelay.c:186-221 | the frame's flow is the one flow of its pair; the only new flow is that one, created if there was none |
| `RelayFlows.DPRelayRouter.SourceFindFlow` | app/src/main/jni/badvpn/client/DPRelay.c:116-127 | finds the flow of the pair if and only if there is one |
| `RelayFlows.DPRelayRouter.FreeFlow` | app/src/main/jni/badvpn/client/DPRelay.c:84-107 | detached if the destination is attached, removed everywhere, and its DataProto flow, and no other, is freed |
| `RelayFlows.DPRelayRouter.SinkAttach` | app/src/main/jni/badvpn/client/DPRelay.c:278-292 | flows stay attached exactly when their destination is |
| `RelayFlows.DPRelayRouter.SinkDetach` | app/src/main/jni/badvpn/client/DPRelay.c:294-307 | flows stay attached exactly when their destination is |
| `RelayFlows.DPRelayRouter.SourceFree` | app/src/main/jni/badvpn/client/DPRelay.c:238-249 | the loop ends with no flow of the source left; all others keep their ends, and exactly the DataProto flows of those that went are freed |
| `RelayFlows.DPRelayRouter.SinkFree` | app/src/main/jni/badvpn/client/DPRelay.c:265-276 | the loop ends with no flow to the destination left; all others keep their ends, and exactly the DataProto flows of those that went are freed |
| `DataFlows.UpStatus.DataProtoSinkReceived` | app/src/main/jni/badvpn/client/DataProto.c:339-358 | up follows what the peer reports, and the job is set exactly if the last report is out of date |
| `DataFlows.UpStatus.ReceiveTimerHandler` | app/src/main/jni/badvpn/client/DataProto.c:71-79 | down after silence, and the job is set exactly if the last report is out of date |
| `DataFlows.UpStatus.UpJobHandler` | app/src/main/jni/badvpn/client/DataProto.c:100-109 | the report differs from the last one and becomes it |
| `RelayFlows.DPRelayRouter.SourceInit` | app/src/main/jni/badvpn/client/DPRelay.c:223-236 | a new source has no flows |
| `RelayFlows.DPRelayRouter.RouteFrame` | app/src/main/jni/badvpn/client/DPRelay.c:129-142 | the frame goes to the chosen flow, which still exists, and the choice is cleared |
| `Dhcp.Runs` | app/src/main/jni/badvpn/dhcpclient/BDHCPClientCore.c:406-678 | in every reachable state exactly the timers of the state run, reports alternate and end with UP exactly in finished and renewing, and "up" lasts at most 1000 ms per second of lease after the last accepted ACK plus twice the lateness of timers |
| `Dhcp.DownInTime` | app/src/main/jni/badvpn/dhcpclient/BDHCPClientCore.c:662-678 | the DOWN report comes within that bound (1000 times the lease when timers fire on time) |
| `Dhcp.ReceiveInv` | app/src/main/jni/badvpn/dhcpclient/BDHCPClientCore.c:406-563 | any message keeps timers and counters in step with the state, and reports exactly a change between up and down |
| `Dhcp.FireInv` | app/src/main/jni/badvpn/dhcpclient/BDHCPClientCore.c:591-678 | any timer does the same; at most 4 requests per offer and 8 uses per xid |
| `Dhcp.TimeStep` | app/src/main/jni/badvpn/dhcpclient/BDHCPClientCore.c:44-57 | the renew timer counts from the ACK, the lease timer from its expiry |
| `Dhcp.IgnoresExactly` | app/src/main/jni/badvpn/dhcpclient/BDHCPClientCore.c:225-563 | exactly the OFFER, ACK or NAK that the state and the present offer call for has an effect |
| `Dhcp.OfferEffect` | app/src/main/jni/badvpn/dhcpclient/BDHCPClientCore.c:478-499 | the request asks the server of the OFFER for its address, and the request timer runs for 3 seconds |
| `Dhcp.AckEffect` | app/src/main/jni/badvpn/dhcpclient/BDHCPClientCore.c:500-562 | the lease begins, with the renew timer at half of it; UP is reported unless it was renewed |
| `Dhcp.NakEffect` | app/src/main/jni/badvpn/dhcpclient/BDHCPClientCore.c:406-464 | reset timer for 4 seconds; DOWN is reported if the client was up |
| `Dhcp.ResetEffect` | app/src/main/jni/badvpn/dhcpclient/BDHCPClientCore.c:591-599 | a new DISCOVER, with a new xid after a NAK or eight uses |
| `Dhcp.RequestEffect` | app/src/main/jni/badvpn/dhcpclient/BDHCPClientCore.c:601-626 | the same request again, four in all, then a new start |
| `Dhcp.RenewEffect` | app/src/main/jni/badvpn/dhcpclient/BDHCPClientCore.c:628-646 | a request without server, repeated after 20 seconds, until the second half of the lease is over |
| `Dhcp.RenewRequestEffect` | app/src/main/jni/badvpn/dhcpclient/BDHCPClientCore.c:648-660 | the same request again, with the lease timer running on |
| `Dhcp.LeaseEffect` | app/src/main/jni/badvpn/dhcpclient/BDHCPClientCore.c:662-678 | DOWN and a new start with a new xid |
| `Dhcp.SentStep` | app/src/main/jni/badvpn/dhcpclient/BDHCPClientCore.c:482-660 | whatever an event sends carries the xid in use and the present address and server, and fits the new state |
| `Dhcp.RequestsAreJustified` | app/src/main/jni/badvpn/dhcpclient/BDHCPClientCore.c:482-660 | in every run a REQUEST that names a server asks for an address it offered in that transaction, and one that names none is for an address that was acknowledged |
| `Dhcp.UpIsFounded` | app/src/main/jni/badvpn/dhcpclient/BDHCPClientCore.c:500-562 | in every run a client that is up has an address that its server offered and acknowledged |
| `Dhcp.BDHCPClientCore.RecvHandlerDone` | app/src/main/jni/badvpn/dhcpclient/BDHCPClientCore.c:406-563 | state, timers, packets and reports as the model says, whose effects are stated message by message |
| `Dhcp.BDHCPClientCore.StartProcess` | app/src/main/jni/badvpn/dhcpclient/BDHCPClientCore.c:565-589 | a new xid when forced or after 8 uses; DISCOVER sent, reset timer set |
| `Dhcp.BDHCPClientCore.RequestTimerHandler` | app/src/main/jni/badvpn/dhcpclient/BDHCPClientCore.c:601-626 | its assertions hold; starts again after the fourth request |
| `Dhcp.BDHCPClientCore.RenewTimerHandler` | app/src/main/jni/badvpn/dhcpclient/BDHCPClientCore.c:628-646 | its assertion holds; renewing with both its timers |
| `Dhcp.BDHCPClientCore.LeaseTimerHandler` | app/src/main/jni/badvpn/dhcpclient/BDHCPClientCore.c:662-678 | its assertion holds; DOWN is reported |
| `Dhcp.BDHCPClientCore.DhcpHandler` | app/src/main/jni/badvpn/dhcpclient/BDHCPClient.c:77-97 | the wrapper's assertions are its preconditions, met at every call |
| `Dhcp.BDHCPClientCore.ResetTimerHandler` | app/src/main/jni/badvpn/dhcpclient/BDHCPClientCore.c:591-599 | its assertion holds; starts again, with a new xid if it was resetting |
| `Dhcp.BDHCPClientCore.RenewRequestTimerHandler` | app/src/main/jni/badvpn/dhcpclient/BDHCPClientCore.c:648-660 | its assertion holds; one more request, the lease timer runs on |
| `JobStack.RunInv` | app/src/main/jni/badvpn/base/BPending.c:66-179 | over every run the list has no duplicates and "is set" equals membership |
| `JobStack.StepEffect` | app/src/main/jni/badvpn/base/BPending.c:66-179 | a job that is set is on top, one that is unset or freed is gone, the top job is executed, and no other two jobs change their order |
| `JobStack.NestedJobsFirst` | app/src/main/jni/badvpn/base/BPending.c:66-179 | while a job waits untouched, the jobs below it are exactly the untouched ones that were below it before, in order: all jobs set meanwhile are above it |
| `JobStack.NothingSetIsLeft` | app/src/main/jni/badvpn/base/BPending.c:66-88 | when a job gets to the top, no job set since is still waiting |
| `JobStack.NestedJobsExecuted` | app/src/main/jni/badvpn/base/BPending.c:66-179 | every job set meanwhile has by then been executed after it was set, unless it was unset or freed |
| `JobStack.BPendingGroup.InitJob` | app/src/main/jni/badvpn/base/BPending.c:97-114 | a new job is not set |
| `JobStack.BPendingGroup.SetJob` | app/src/main/jni/badvpn/base/BPending.c:137-154 | to the top, out of its old place |
| `JobStack.BPendingGroup.UnsetJob` | app/src/main/jni/badvpn/base/BPending.c:156-171 | out of the list, nothing if it was not set |
| `JobStack.BPendingGroup.FreeJob` | app/src/main/jni/badvpn/base/BPending.c:116-126 | out of the list |
| `JobStack.BPendingGroup.IsSet` | app/src/main/jni/badvpn/base/BPending.c:173-179 | the mark says whether the job is in the list |
| `JobStack.BPendingGroup.ExecuteJob` | app/src/main/jni/badvpn/base/BPending.c:66-88 | takes the top job, which is not set when its handler is called |
| `SecurePackets.RoundTrip` | app/src/main/jni/badvpn/client/SPProtoEncoder.c:87-152 | for every payload, header layout and block size, decoding an encoded packet gives payload, seed id and password back |
| `SecurePackets.AcceptsExactlyEncodings` | app/src/main/jni/badvpn/client/SPProtoDecoder.c:42-155 | with a cipher that is a permutation, the decoder accepts a packet if and only if it is the encoding of what it returns |
| `SecurePackets.NeedsKey` | app/src/main/jni/badvpn/client/SPProtoDecoder.c:57-76 | without a key, or if it is not made of whole blocks, no encrypted packet is accepted |
| `SecurePackets.Layout` | app/src/main/jni/badvpn/protocol/spproto.h:117-128 | seed id with the low byte first, password, hash of the packet with zeros in its place, payload |
| `SecurePackets.UnpadPad` | app/src/main/jni/badvpn/client/SPProtoEncoder.c:126-134 | padding fills whole blocks and the scan gives back what was padded |
| `SecurePackets.PadUnpad` | app/src/main/jni/badvpn/client/SPProtoDecoder.c:87-107 | whatever the scan accepts is the padded form of what it returns |
| `SecurePackets.EncodedLength` | app/src/main/jni/badvpn/protocol/spproto.h:173-193 | an encoded packet has exactly the computed carrier size |
| `SecurePackets.MtusAgree` | app/src/main/jni/badvpn/protocol/spproto.h:152-193 | a payload fits the payload MTU of a carrier exactly when its packet fits the carrier |
| `SecurePackets.SPProtoEncoder.EncodeWork` | app/src/main/jni/badvpn/client/SPProtoEncoder.c:87-152 | header, hash and padding written in place give exactly the encoding of the payload found behind the header space |
| `SecurePackets.SPProtoDecoder.ReadPadding` | app/src/main/jni/badvpn/client/SPProtoDecoder.c:87-107 | the backward scan finds the end of the plaintext, or rejects exactly the badly padded |
| `SecurePackets.SPProtoDecoder.CheckHash` | app/src/main/jni/badvpn/client/SPProtoDecoder.c:131-150 | compares the right hash and restores the field |
| `SecurePackets.SPProtoDecoder.CheckPlaintext` | app/src/main/jni/badvpn/client/SPProtoDecoder.c:110-155 | header, length, OTP and hash checks on the plaintext as specified |
| `SecurePackets.SPProtoDecoder.DecodeWork` | app/src/main/jni/badvpn/client/SPProtoDecoder.c:42-155 | decodes as specified and leaves the input packet unchanged |

## Left out

- The string handling of `ipToLong` and `longToIp` (splitting at dots, decimal digits): the model starts from the four octets.
- The branch of `applyVpnRoutes` for newer platforms, and adding the routes to the VPN builder.
- Byte parsing of Ethernet, IPv4 and IGMP in the frame decider, and of DHCP options: the models start from parsed frames and messages.
- FrameDecision.FrameDecider.AnalyzeAndDecide: not modelled when it is called a second time after its own early return, which frees the same iterator twice.
- FrameDecision.FrameDecider.NextDestination: not modelled after that early return, when the iterator it would use is freed.
- FrameDecision.FrameDecider.FreePeer: requires that no multicast decision is under way, which the caller guarantees by draining each decision at once; the list iterator that jumps off a freed entry is not modelled.
- FrameDecision.FrameDecider.AnalyzePeer: the same, so that what a join or an eviction does to an iterator is not modelled.
- FrameDecision.FrameDecider.GroupTimerExpired: the same.
- FrameGroups.GroupTable.LowerGroupTimersToLmqt: the clock is read once for the loop, not once for each entry.
- BProto.ParseAll: requires a schema with 16-bit ids, 32-bit constant sizes and no duplicate case labels; message lengths are unbounded integers, `int` overflow is not modelled.
- FragmentCancel.CancelSafeExactlyWhen: not for chunk size limits, which the client does not set for its peers; a packet may then hold several chunks of a frame.
- FragmentCancel.CancelSends: the same.
- DatagramPeer.PeerSafety: a datagram that was not sent is assumed not to decode, as the cipher and hash are abstract; the check of one-time passwords counts as loss.
- Negotiation.Terminates: messages arrive in order, links can be set up and do not fail, both sides use the same transport and encryption settings, and neither is a relay yet; resets and retries are not modelled.
- PeerLinks.Client.Handle: link setup is one event with or without success; chat, certificates and the exiting flag of `peer_remove` are not modelled.
- DataFlows.Ownership: the fair queue is modelled by its busy and done events with at most one busy flow; packet contents, inactivity monitors and keep-alives are not.
- PeerLinks.Client.RelayFrame: requires that the router holds no frame, as the assertion in `DPRelayRouter_SubmitFrame` does; the checks of the header and of the relay-client flag come before it.
- RelayFlows.DPRelayRouter.SubmitFrame: the frame buffer of the router is not modelled, only which flow the frame goes to.
- Dhcp.Runs: random transaction ids are parameters of the events; subnet mask, router, DNS servers and MAC of an ACK are not stored.
- Cipher, hash and OTP generation and checking: abstract functions, or values given by the caller.
- The inside of the search trees, linked lists, fair queues, threads and the reactor.
- Allocation failures, except that of a relay flow.
- Sockets, TAP device, SSL, user interface, preferences, command line, logging: no algorithmic core.

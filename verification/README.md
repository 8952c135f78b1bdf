# Verified models of a peer-to-peer chunk transfer

The program is a BitTorrent-like peer: it asks other peers for chunks by their SHA-1 hash, fetches each
chunk over UDP with a sliding window, retransmission timers and congestion control, and assembles the file.
A router simulator between the peers computes shortest paths and forwards packets hop by hop.
This project models that logic in Dafny and proves what it guarantees.

| file | what it holds |
|---|---|
| `Collections.dfy` | optional values, list reversal, joining fragments |
| `FloatArithmetic.dfy` | floating-point sums and reciprocals: any that round well, and IEEE 754 single precision |
| `Wire.dfy` | packets, messages, the chunk being sent |
| `FlowControl.dfy` | what each sender, receiver and tracker routine does, as functions on values |
| `TrackerImpl.dfy`, `SenderImpl.dfy`, `ReceiverImpl.dfy`, `PeerLoop.dfy`, `FileManager.dfy` | the same routines with linked nodes, fields, arrays and loops, proved against those functions |
| `TransferSystem.dfy` | sender, tracker, receiver and a losing, duplicating, reordering network as one transition system, and its joint invariant |
| `TransferIntegrity.dfy`, `AckHistory.dfy` | what every run guarantees about the delivered data, and which acknowledgements are third copies and what they do to the congestion control, whatever the unset fields hold |
| `TransferSafety.dfy`, `TransferTheorems.dfy`, `TransferLiveness.dfy`, `UnsetFields.dfy` | what every run keeps when the unset fields do not mislead; that such a transfer can always be finished and a fair run finishes it; what happens when they do |
| `CongestionTheorems.dfy` | the window over every history, and how fast it grows with rounding |
| `ReceiveBuffers.dfy`, `Deliveries.dfy` | the list of receive buffers refines a one-to-one map from peers to chunks, and each transfer's packets make its chunk's buffer the transfer's receiver |
| `Sha1Spec.dfy`, `Sha1Vectors.dfy`, `Sha1Stream.dfy`, `Sha1Impl.dfy` | SHA-1 by RFC 3174, two known digests, absorbing data in fragments, and the buffered, unrolled computation |
| `Graph.dfy`, `RouterImpl.dfy`, `RouterNet.dfy`, `SimulatorImpl.dfy` | hop distances, every router's table, forwarding by those tables, and the simulator's queue objects |
| `Whohas.dfy` | hexadecimal text, WHOHAS packets, their batching and decoding |
| `InputBuffer.dfy` | the line splitter over a fixed buffer |

How the transfer is modelled: a chunk has an arbitrary number `n >= 1` of pieces of `p >= 1` bytes (512 and
1024 in the program). Every message ever sent stays deliverable, any number of times and in any order, so the
network may lose, duplicate and reorder. Steps are the delivery of a DATA or ACK packet, the expiry of one
timer, and a loss signal at any moment. The last is free because the timeout path reports the loss to the
peer whose number stands in the acknowledgement field of a DATA packet, which is 0, and not to the packet's own
peer (peer.c:335); `PassIsRun` says which losses a pass over the timers brings. A run starts when the GET has
been answered, from whatever the two fields hold that `init_datalist` never sets. If they look like two copies
of the first acknowledgement (0 and a positive count) the sender cannot complete by acknowledgements in order,
and otherwise it can (`UnsetFieldsMatter`); the receiver can get every piece in both cases (`ReceiverGetsAll`).
The integrity results hold from every start, the results about the sender's window, the timers and completion
from the others. What the sender's floating-point addition returns is free in every step, so what every run
keeps does not depend on rounding; only the rate and the growth of the window do, and there the rounding is
bounded.

The hardest results:

* every fair run completes the transfer (`FairRunCompletes`), where fair means only that a timer that stays
  armed keeps expiring and that a message sent again and again is delivered again and again; and from every
  reachable state some finite run completes it (`NeverStuck`); from the start, runs with acknowledgements in
  order complete it at the sender if and only if the unset fields do not mislead (`UnsetFieldsMatter`);
* what is acknowledged is stored, what is stored is the sender's bytes, and no acknowledgement runs ahead,
  although the receiver's scan starts at index 1, in every run from any unset fields (`Integrity`,
  `AckSoundness`);
* after every run the congestion control is that of a new transfer, window 1 and threshold 64, after exactly the
  losses and acknowledgements the run's events mean, where the third and later copies of an acknowledgement in a
  row are losses (`RunIsHistory`, `ThirdCopyFallsBack`);
* whatever else happens to the receive buffers, the check of the file reports 1 exactly when every requested
  transfer has brought all its pieces, and then writes the senders' contents (`DeliveriesArrive`, `AssembledFile`);
* SHA-1 fed with any fragments, on either byte order, with any unroll factor and either update path, is the
  hash RFC 3174 defines for the joined message (`HashParts`), and that definition gives the RFC's own digests of
  its one-block and its two-block test message (`AbcDigest`, `LongDigest`);
* in every connected topology each router's own table makes global forwarding loop-free: every packet for a
  known destination arrives over a shortest path or is dropped at a full queue, and the simulator dies exactly
  when a packet names another number that is no router (`CreateTables`, `PacketsArrive`, `SimulatorDies`);
* with any arithmetic as good as single precision, after every history of acknowledgements and losses, the rate
  in avoidance is j/window up to j rounding errors for some j, and a window of w grows after w or w+1
  acknowledgements (`RateInHistory`, `Growth`); both happen: in single precision window 12 takes 13, every power
  of two exactly its size (`TwelveIsLate`, `PowersAreOnTime`);
* the line splitter hands out exactly the lines of the stream as long as no newline left behind its text is met;
  a next input that meets one exists exactly when one is there, and can be arranged in a buffer of any size
  (`ProcessAll`, `WrongLineExactly`, `TooMuchAtOnce`).

Where code and documentation differ the code is modelled: readme.txt speaks of three duplicate
acknowledgements, the code resends on the third copy, that is the second repetition (flow_control.c:155-166).

## Model

| member | source | states |
|---|---|---|
| `TransferLiveness.FairRunCompletes` | flow_control.c:88-435 | every infinite run in which armed timers keep expiring and messages sent for ever are delivered for ever reaches, and stays in, a state where all pieces are acknowledged and stored with the sender's bytes |
| `TransferLiveness.NeverStuck` | peer.c:315-339 | from every reachable state a finite run of retransmissions and deliveries, without losses and with ascending acknowledgements, completes the transfer |
| `TransferLiveness.FairRunExists` | peer.c:315-339 | for every chunk there is an infinite run that meets all the fairness hypotheses |
| `TransferLiveness.CoveringAckAccepted` | flow_control.c:231-283 | an acknowledgement covering an unacknowledged piece is never taken for a duplicate, and afterwards exactly the pieces below it are acknowledged |
| `TransferLiveness.AnswerCovers` | flow_control.c:365-405 | delivering the first unacknowledged piece is answered by an acknowledgement that covers it |
| `TransferLiveness.NeverStalls` | flow_control.c:199-288 | in a fair run the number of acknowledged pieces cannot stay below n |
| `TransferIntegrity.Integrity` | flow_control.c:253-281 | in every run from any unset fields: acknowledged pieces are stored, stored pieces equal the sender's slice at the same index, and so does every DATA packet on the wire |
| `TransferIntegrity.AckSoundness` | flow_control.c:391-405 | in every such run every acknowledgement k ever sent has pieces 0..k-1 stored |
| `TransferTheorems.AlwaysDeliverable` | packet.c:561-590 | every message on the wire can be handled, and every DATA packet carries the right bytes of a piece already sent |
| `TransferTheorems.NeverAcksUnsent` | flow_control.c:253-257 | the branch for a piece "not even sent but acked" is never taken |
| `TransferTheorems.FastRetransmitKnown` | flow_control.c:231-247 | a fast retransmission repeats a piece that has already left, or nothing at the end of the chunk |
| `TransferTheorems.WindowShape` | flow_control.c:104-124 | unsent pieces are those after `end`, pieces up to `start` are acknowledged, and first transmissions leave in ascending order |
| `TransferTheorems.WindowRespected` | flow_control.c:97-145 | whenever new pieces leave, at most a window of pieces is then waiting |
| `TransferTheorems.WindowFilled` | flow_control.c:281-287 | after any acknowledgement that is not a third copy the window is full or the last piece has been sent |
| `UnsetFields.UnsetFieldsMatter` | flow_control.c:38-65 | from any values of the two fields a new transfer leaves unset: some run with acknowledgements in non-decreasing order after which all pieces are acknowledged and stored exists if and only if they are not 0 and a positive count |
| `UnsetFields.ReceiverGetsAll` | flow_control.c:231-247 | from any values of those fields, and for every number of pieces, some run with acknowledgements in non-decreasing order leaves every piece stored with the sender's bytes |
| `UnsetFields.UnsentPieceLeaves` | flow_control.c:231-247 | with at least two pieces, some run puts a piece on the wire that the sender takes for unsent exactly when those fields hold 0 and a positive count |
| `UnsetFields.MisledRun` | flow_control.c:253-257 | from a misled state no run with acknowledgements in non-decreasing order completes at the sender |
| `TransferTheorems.StepMonotone` | flow_control.c:253-287 | pieces only move from unsent to waiting to acknowledged; nothing received or sent is taken back |
| `TransferTheorems.NothingForgotten` | flow_control.c:518-577 | tracker numbers are distinct, the dummy head stays, entries carry the right packet, and every waiting piece is timed |
| `TransferTheorems.InOrderRun` | flow_control.c:258-276 | if acknowledgements arrive in non-decreasing order, the timed pieces are exactly the waiting ones |
| `TransferIntegrity.AnsweredWithFirstMissing` | flow_control.c:391-405 | in every such run each DATA packet delivered is answered with the first missing piece, or n if none is missing |
| `AckHistory.ThirdCopyFallsBack` | flow_control.c:222-288 | after any run from any unset fields: at least the third copy of an acknowledgement in a row sends the next piece and leaves window 1, half the window as threshold, slow start and rate 1, or does nothing when it covers the whole chunk; any other copy counts as an acknowledgement and moves `start`, unless it meets an unsent piece |
| `AckHistory.RunIsHistory` | flow_control.c:18-33 | the congestion control after any run is window 1, threshold 64, slow start after the run's signals: third copies below n and reported losses, and accepted acknowledgements |
| `AckHistory.ThirdExactly` | flow_control.c:155-166 | counting repetitions reports exactly the third and later copies in a row; at the start the unset fields count for as many copies as they say |
| `AckHistory.RateInRun` | flow_control.c:185-192 | in every run whose sums a machine that rounds well has calculated, the rate in avoidance is j parts of the window up to j errors |
| `AckHistory.OnlyBeyondIgnored` | flow_control.c:228-231 | an acknowledged index beyond n changes nothing, every other one is counted |
| `TransferIntegrity.FullMeansAll` | flow_control.c:365-377 | in every such run the byte count is the sum of the stored pieces and equals n*p exactly when all pieces are there |
| `TransferSafety.StepOk` | flow_control.c:222-288 | every delivery, timeout and loss keeps the joint invariant of sender, tracker, receiver and network |
| `TransferSafety.ReachableOk` | packet.c:553-559 | the joint invariant holds from the answered GET on, in every reachable state |
| `TransferSafety.ReceiveKeeps` | flow_control.c:339-435 | a delivered packet is stored once, earlier pieces stay, and the answer covers only stored pieces |
| `TransferSafety.UntrackRangeKeeps` | flow_control.c:199-220 | removing acknowledged pieces drops exactly the waiting ones in the range and keeps the tracker well formed |
| `TransferSafety.TrackAllKeeps` | flow_control.c:545-576 | timing a list of packets adds exactly their numbers, without duplicates |
| `TransferSafety.TrackAllExtends` | flow_control.c:545-576 | timers keep their order, new ones come after them |
| `TransferSafety.SendListAscends` | peer.c:160-162 | reversing the prepended packet list puts the new pieces in ascending order |
| `CongestionTheorems.AvoidanceStep` | flow_control.c:185-192 | for every addition and reciprocal with relative error at most 2^-24 and every window they are good enough for: one acknowledgement in avoidance adds one part of the window, with an error of at most 4 units of roundoff more, or grows the window, at the w-th at the earliest and at the one after it at the latest |
| `CongestionTheorems.EveryHistory` | flow_control.c:168-197 | after every history of acknowledgements and losses, whatever the floating-point additions return: window at least 1; in slow start threshold 0 or window at most the threshold; in avoidance 1 <= threshold <= window |
| `CongestionTheorems.RateInHistory` | flow_control.c:168-197 | after every history of acknowledgements and losses of a new transfer, with any arithmetic that rounds well: the rate is 1 in slow start; in avoidance, up to the window the arithmetic is good for, it lies in [0, 1) and is j parts of the window up to j errors, for some j below the window (at most the window, if there is rounding) |
| `CongestionTheorems.ExactRateInHistory` | flow_control.c:185-192 | with exact arithmetic, after every such history, the rate in avoidance is j/window for some 0 <= j < window |
| `CongestionTheorems.SingleRateInHistory` | flow_control.c:185-192 | in single precision, after every such history and up to window 2000, it is within j units of 2^-22 of j/window for some 0 <= j <= window |
| `CongestionTheorems.Growth` | flow_control.c:185-192 | from entry at window w, without a loss: before k*w + k(k-1)/2 acknowledgements the window is below w+k, and from k more on it is not; with exact arithmetic the k more are not needed |
| `CongestionTheorems.SingleGrowth` | flow_control.c:185-192 | the same for IEEE 754 single precision and windows up to 2000 |
| `CongestionTheorems.TwelveIsLate` | flow_control.c:186-188 | both ends occur: in single precision window 12 takes thirteen acknowledgements to grow, with exact arithmetic twelve |
| `CongestionTheorems.PowersAreOnTime` | flow_control.c:185-192 | in single precision a window of 2^m, m at most 13, takes exactly 2^m acknowledgements, and after j of them the rate is exactly j/2^m |
| `CongestionTheorems.ExactGrowth` | flow_control.c:185-192 | with exact arithmetic, k*w + k(k-1)/2 + j acknowledgements (j < w+k) give window w+k and rate j/(w+k) |
| `FloatArithmetic.SingleRounds` | flow_control.c:186-187 | rounding to 24 binary places, nearest even, meets the bounds the growth results ask for, up to window 2000 |
| `FloatArithmetic.NearestRounds` | flow_control.c:186-187 | the rounding of the single-precision model goes to the integer at most half away, and to the even one of two |
| `CongestionTheorems.NewTransferClimbs` | flow_control.c:47-50 | from a new transfer, with any arithmetic, up to 63 acknowledgements give slow start at window 1 + that number; the 64th enters avoidance at window 64 with rate 0 |
| `CongestionTheorems.NewTransferGrows` | flow_control.c:174-192 | from there growth by k takes between 64k + k(k-1)/2 acknowledgements and k more |
| `CongestionTheorems.ClimbAfterLoss` | flow_control.c:174-183 | after a loss at window w each acknowledgement adds one up to w/2, and for ever when w is 1 |
| `CongestionTheorems.WindowAfterLoss` | flow_control.c:18-33 | after a loss at window w, with h = w/2 >= 1: h acknowledgements of slow start, then growth by k takes between k*h + k(k-1)/2 and k more |
| `SenderImpl.SendState.constructor` | flow_control.c:38-65 | a new transfer: window 1, threshold 64, slow start, nothing sent, the two unset fields at any values |
| `SenderImpl.SendState.ContentByIndex` | flow_control.c:67-75 | the copied bytes are the slice of the content at that index |
| `SenderImpl.SendState.SendData` | flow_control.c:88-145 | fills the window, marks the new pieces and returns them newest first |
| `SenderImpl.SendState.CheckReturnAck` | flow_control.c:155-166 | counts repetitions of the last acknowledgement and reports the third copy |
| `SenderImpl.SendState.CongestionControl` | flow_control.c:168-197 | the step whose invariant and growth are proved in CongestionTheorems, with the machine's own addition and reciprocal |
| `SenderImpl.SendState.ProcessPacketLoss` | flow_control.c:18-33 | halves the threshold and restarts slow start with window 1 |
| `SenderImpl.SendState.HandleAck` | flow_control.c:222-288 | sender, tracker and returned packets are those of the function the transition system uses |
| `SenderImpl.MarkLoopIs` | flow_control.c:253-280 | the marking loop marks the sent pieces up to the first unsent one and stops timing exactly those that were waiting |
| `TrackerImpl.PacketTracker.CreateTimer` | flow_control.c:518-577 | a new number gets a node at the end of the linked list (behind a dummy head if the list is new), a known one changes nothing |
| `TrackerImpl.PacketTracker.Remove` | flow_control.c:199-220 | the first matching entry disappears, by copying the second node over the head or by bypassing a later node, and the code reports whether there was one |
| `PeerLoop.ReverseList` | peer.c:45-56 | the same nodes linked in opposite order |
| `PeerLoop.SendResponses` | peer.c:162-214 | on either byte order the DATA packets of a response are timed and sent in list order, but for those whose header equals that of an expired timer's packet |
| `PeerLoop.LittleEndianSendsAll` | peer.c:171-199 | on a little-endian machine every packet is timed and sent, in order, if and only if no packet meets an expired dummy head whose unset header happens to be its own |
| `PeerLoop.BigEndianSendsNew` | peer.c:171-199 | on a big-endian machine, if the dummy head's unset sequence number is none of theirs, exactly the packets of the response get timed, each one not timed before is sent, and nothing else |
| `PeerLoop.BigEndianRepeats` | peer.c:171-183 | there a response of one packet, such as a fast retransmission, is withheld exactly when the timer of its number has expired |
| `PeerLoop.RetransmitExpired` | peer.c:315-339 | walking the linked timers resends every expired entry except the dummy head, in order, and reports one loss for each to the transfer with peer 0, if there is one |
| `PeerLoop.PassIsRun` | peer.c:315-339 | one pass over the timers is a run of the transition system: a timeout for each expired entry, with a loss after it exactly if the transfer's peer is 0; it changes nothing but the wire and, then, the congestion control |
| `ReceiverImpl.RecvBuffer.Receive` | flow_control.c:357-405 | stores a first copy, advances `expected` to the first missing piece and acknowledges it; out-of-range numbers change nothing |
| `ReceiverImpl.RecvList.InitRecvBuffer` | flow_control.c:296-336 | refuses exactly when a busy buffer has the peer or the chunk, otherwise adds an empty busy buffer in front |
| `ReceiverImpl.RecvList.RecvData` | flow_control.c:339-435 | the peer's newest buffer receives the packet, no other changes; no answer without a buffer or beyond the last piece |
| `ReceiverImpl.RecvList.ReleaseBuffer` | flow_control.c:487-494 | every buffer of the chunk stops being busy, nothing else changes |
| `ReceiverImpl.RecvList.IsBufferFull` | flow_control.c:496-513 | 1 exactly when the chunk has a buffer and all its buffers hold `size` bytes |
| `ReceiverImpl.RecvList.CopyChunkData` | flow_control.c:460-485 | the bytes of a piece in the chunk's newest buffer, nothing if missing |
| `Deliveries.DeliveriesArrive` | flow_control.c:339-435 | a chunk gets its first buffer and its transfer runs, with any other use of the buffer list in between: at the end the chunk's buffer has exactly the pieces, byte count and next expected piece of the receiver after that run, and while busy it is the one the peer's packets go to |
| `Deliveries.OthersUntouched` | flow_control.c:351-376 | a DATA packet of the transfer changes no other buffer |
| `ReceiveBuffers.ListRefinesMap` | flow_control.c:296-336 | after any history of allocations, releases and deliveries the busy buffers are a one-to-one map from peers to chunks, equal to the same history on a map, and the newest-first search finds them |
| `ReceiveBuffers.SearchFindsBusy` | flow_control.c:351-353 | the newest buffer of a peer is its busy one whenever it has one, and the newest buffer of that chunk is the same |
| `ReceiveBuffers.AddRefines` | flow_control.c:301-306 | allocation adds the pair exactly when neither peer nor chunk is taken |
| `ReceiveBuffers.ReleaseRefines` | flow_control.c:487-494 | releasing a chunk removes its pair and no other |
| `ReceiveBuffers.OneGetPerIhave` | packet.c:438-541 | an IHAVE yields at most one GET: for the first wanted chunk, exactly when the peer is idle |
| `FileManager.HandleIhave` | packet.c:438-541 | the loop over the offered hashes, with its buffers and the GETs it returns |
| `FileManager.Manager.Check` | packet.c:41-118 | -2 without a request, -1 while a chunk is missing, otherwise the file of all pieces in order; the chunks before the first unfinished one are released, data is untouched |
| `FileManager.FullExactly` | flow_control.c:496-513 | when a chunk's buffers come from transfers of it, the chunk is full exactly when there is one and none of them lacks a piece, whatever other buffers hold |
| `FileManager.AssembledFile` | packet.c:65-103 | when each requested chunk has been received by some history of deliveries, all are full exactly when every transfer has brought all its pieces, and the file is then the senders' contents in requested order, whatever the network did |
| `FileManager.PieceCopied` | flow_control.c:460-485 | what is written for a piece is the sender's bytes, or nothing while it is missing |
| `FileManager.NothingCopied` | flow_control.c:460-485 | for a chunk without a buffer nothing is written |
| `FileManager.ReleasedExactly` | packet.c:65-75 | exactly the buffers of the released chunks stop being busy, everything else stays |
| `Sha1Impl.HashParts` | sha.c:149-163 | initialising, updating with any fragments and finishing gives RFC 3174's hash of the joined message, for either byte order, any unroll factor and either update path |
| `Sha1Vectors.AbcDigest` | sha.c:149-163 | the specified hash of "abc" is a9993e36 4706816a ba3e2571 7850c26c 9cd0d89d, so initial words, constants, functions, rotations, schedule and padding are those of the standard |
| `Sha1Vectors.LongDigest` | sha.c:149-163 | the specified hash of the 56-byte test message of section 7.3 of RFC 3174, which takes two blocks, is 84983e44 1c3bd26e baae4aa1 f95129e5 e54670f1 |
| `Sha1Impl.ShaHash` | chunk.c:33-49 | the digest of the data is its SHA-1 hash |
| `Sha1Impl.Sha1Context.constructor` | sha.c:149-163 | the initial hash words, nothing counted, nothing buffered |
| `Sha1Impl.Sha1Context.Guts` | sha.c:176-451 | the hash words become the block function of section 6.1 of RFC 3174 |
| `Sha1Impl.LoadBlock` | sha.c:186-189 | swapping the machine's words gives the first 16 words of the schedule on either byte order |
| `Sha1Impl.ExpandBlock` | sha.c:191-200 | four moving read positions compute the W(t) recurrence |
| `Sha1Impl.EightyRounds` | sha.c:210-444 | every unroll factor performs the 80 steps |
| `Sha1Impl.DoRound` | sha.c:49-69 | the register assignments of the round macro, one after the other and with the rewritten functions, make the step of section 6.1 (d) |
| `Sha1Impl.FastFIs` | sha.c:52-55 | the rewritten round functions are those of section 5 |
| `Sha1Impl.SwappedLoadIs` | sha.c:80-81 | a swapped little-endian load is the big-endian word |
| `Sha1Impl.SwappedStore64Is` | sha.c:84-89 | the swapped 64-bit length lies in memory most significant byte first |
| `Sha1Impl.Sha1Context.Update` | sha.c:501-523 | the default path absorbs the data: hash words, bit count and live buffer |
| `Sha1Impl.Sha1Context.FastUpdate` | sha.c:461-500 | the fast-copy path leaves the same hash words, bit count, buffer length and live buffer from the same context and data |
| `Sha1Impl.Sha1Context.Final` | sha.c:529-558 | pads, appends the length and returns the bytes of the hash words |
| `Sha1Stream.AbsorbTwice` | sha.c:453-527 | absorbing two fragments is absorbing them joined |
| `Sha1Stream.FragmentationIrrelevant` | sha.c:453-527 | any sequence of updates equals one update with the joined data |
| `Sha1Stream.PaddingIs` | sha.c:536-538 | between 1 and 64 padding bytes, exactly those of section 4 of RFC 3174 |
| `Sha1Stream.FinishIsSha1` | sha.c:529-558 | finishing after any message gives RFC 3174's digest and leaves the buffer empty |
| `RouterImpl.Network.ShortestPaths` | hupsim.pl:236-274 | for every topology with fewer than 65535 routers each label is the hop distance, or INFINITY exactly when there is no walk, and each predecessor of a labelled router is one hop nearer |
| `RouterImpl.Network.SelectNext` | hupsim.pl:249-259 | the selected router is an unfinished one with the smallest label |
| `RouterImpl.Network.RelaxLinks` | hupsim.pl:261-272 | exactly the neighbours with a larger label get the new label and predecessor |
| `RouterImpl.Network.FirstHop` | hupsim.pl:278-282 | in every topology the walk over the predecessors of a labelled destination ends at a neighbour one hop nearer to it |
| `RouterImpl.BackWalkEnds` | hupsim.pl:278-282 | in every topology, and with whatever predecessors earlier runs have left, some number of predecessor steps leads from a router to the source exactly when the router is labelled, and then its label is such a number |
| `RouterImpl.Network.CreateTable` | hupsim.pl:226-288 | if all routers can be reached, every entry of the router's row is such a neighbour; other rows are untouched |
| `RouterImpl.Network.CreateTables` | hupsim.pl:386-389 | after all routers have built their tables on the shared labels, every table is correct |
| `RouterImpl.StepSound` | hupsim.pl:261-273 | finishing the nearest router keeps every label the length of a real walk |
| `RouterImpl.StepRelaxed` | hupsim.pl:261-273 | finishing the nearest router keeps finished routers relaxed and nearest |
| `RouterImpl.LabelsCorrect` | hupsim.pl:247-274 | labels that are sound and fully relaxed are hop distances |
| `RouterNet.PacketsArrive` | hupsim.pl:150-213 | after any run over a connected topology, once the waiting packets have crossed for as long as they can, no packet waits; every packet for a known destination has been delivered over exactly as many links as the hop distance or dropped at a full queue; none is dropped if every queue has room for all packets |
| `RouterNet.ForwardingWorks` | hupsim.pl:150-182 | in every state of such a run delivered packets crossed exactly as many links as the hop distance, queues keep their limits, and the injected packets are those waiting, delivered, dropped or without a destination node |
| `RouterNet.SimulatorDies` | hupsim.pl:173-180 | a run of possible events, with packets for whatever destination, dies exactly when one of them names another number that is no router |
| `RouterNet.Drain` | hupsim.pl:200-213 | from every state a run of at most as many crossings as hops are left empties all queues |
| `RouterNet.NothingDropped` | hupsim.pl:54-58 | if every limit is at least the number of waiting and injected packets, a run drops none |
| `RouterNet.NoLoops` | hupsim.pl:200-213 | without new packets there are at most as many crossings as hops left, so every run of crossings ends |
| `RouterNet.CrossWorks` | hupsim.pl:208-213 | each crossing brings a packet exactly one hop nearer, delivers it or drops it |
| `RouterNet.DiesOnlyWithoutRouter` | hupsim.pl:173-180 | receiving a packet kills the simulator exactly when the destination is some other number that is no router |
| `RouterNet.RunWithinLimits` | hupsim.pl:54-68 | in every run no queue exceeds its limit |
| `RouterNet.Conservation` | hupsim.pl:160-181 | packets are neither lost unaccounted nor duplicated |
| `RouterNet.TablesMakeNet` | hupsim.pl:184-189 | the routers' own tables satisfy what forwarding relies on |
| `SimulatorImpl.LinkQueue.EnQ` | hupsim.pl:47-69 | a full queue drops and counts the packet, otherwise it is appended; `size` stays the number of waiting bytes |
| `SimulatorImpl.LinkQueue.Shift` | hupsim.pl:209-210 | takes the oldest packet and keeps `size` the number of waiting bytes |
| `SimulatorImpl.Simulator.Recv` | hupsim.pl:150-182 | delivers, queues, drops at a full queue, discards without a destination node, or dies, as the forwarding function says; every link's queue object holds exactly its waiting packets, their bytes and the number dropped there |
| `SimulatorImpl.Simulator.RunLink` | hupsim.pl:200-213 | the due packets of a link's queue object cross it in order, none of them dies, the loop is a sequence of crossings, and the queue objects keep agreeing with the forwarding model |
| `SimulatorImpl.Simulator.constructor` | hupsim.pl:137-148 | one empty queue object for each link of the topology, with its configured limit if that is positive and 10 otherwise |
| `Whohas.HexRoundTrip` | chunk.c:55-83 | text to bytes to text gives the text in lower case |
| `Whohas.BytesRoundTrip` | chunk.c:55-83 | bytes to text to bytes is the identity |
| `Whohas.HexDigitsAre` | chunk.c:55-61 | a byte is printed as the digits, of 0 to 9 and a to f, of its value divided by sixteen and of the rest |
| `Whohas.ShortLine` | chunk.c:66-83 | the zero bytes after a short line are no digits and become bytes of 208 |
| `Whohas.Hex2Binary` | chunk.c:65-83 | two characters to a byte at the given place, digits or not, the rest of the buffer untouched |
| `Whohas.Binary2Hex` | chunk.c:55-61 | two lower-case digits for each byte |
| `Whohas.DecodeEncode` | packet.c:184-194 | a WHOHAS packet decodes to its hashes and its length never exceeds 1020 |
| `Whohas.GenerateWhohas` | packet.c:602-688 | no request exactly if a line is longer than forty characters; otherwise, reversed, the packets of the batches of at most 50 hashes, the last possibly empty; short lines are padded with zeros |
| `Whohas.DecodeHashes` | packet.c:400-408 | the hashes copied out of a packet, in order |
| `Whohas.RequestSurvives` | packet.c:599-693 | every list of 40-digit hashes survives conversion, batching, encoding, reversal and decoding in order, up to letter case, in packets of at most 1020 bytes |
| `InputBuffer.UserBuf.ProcessAll` | input_buffer.c:22-54 | any number of NUL-free reads: exactly the lines of the stream and its tail as long as no search meets a newline left behind the text, and the result tells exactly whether one did |
| `InputBuffer.UserBuf.ProcessUserInput` | input_buffer.c:34-52 | one read into any buffer state: refused exactly when the buffer is nearly full; otherwise the lines and the tail, and the search then goes wrong exactly when a newline comes before a zero behind the stored text |
| `InputBuffer.WrongLineExactly` | input_buffer.c:40-46 | some next input leads to a line that was not typed exactly when a newline stands at or behind the end of the pending text |
| `InputBuffer.FittingIsUndisturbed` | input_buffer.c:46-52 | if every time there is room for each line of the pending text, nothing is left behind and no search goes wrong |
| `InputBuffer.HalvesFit` | input_buffer.c:46-52 | at most half a buffer pending (4096 bytes in the program) is room enough |
| `InputBuffer.DrainedClean` | input_buffer.c:46-52 | handing out all lines leaves only zeros behind the rest if and only if there were only zeros behind the text and there was room for every line |
| `InputBuffer.CutClean` | input_buffer.c:47-51 | one shift keeps zeros behind the text exactly when text and line leave room |
| `InputBuffer.TooMuchAtOnce` | input_buffer.c:46-52 | for every buffer of at least five bytes two acceptable reads, the first of which goes right, after which a line is handed out that was never finished |
| `InputBuffer.TooMuchForTheProgram` | input_buffer.h:6 | the same for the program's 8191 bytes |
| `InputBuffer.LinesRebuild` | input_buffer.c:46-48 | the stream is its lines, each followed by a newline (10), and its tail, and none of them holds another newline |
| `InputBuffer.LinesConcat` | input_buffer.c:46-52 | only the unfinished tail matters for the lines that follow |

## Left out

- Sockets, `select`, the spiffy header wrapping, files and logging: the network is the set of messages ever sent, chunk files and contents are given sequences.
- Wall-clock time: timers, the 10-second chunk timeout and transmission times in the simulator are free choices of the model.
- Several transfers with one peer at once and failover to another peer: packets carry no chunk identity (flow_control.c:353, flow_control.c:551), so the transition system has one transfer for a pair of peers, and in Deliveries the peer sends nothing else until the transfer has brought every piece, nor does the chunk get a second buffer.
- If the unset `prev_ack` and `count_ack` (flow_control.c:38-65) hold 0 and a positive count, only the rows of TransferIntegrity and UnsetFields apply; acknowledgements out of order can then still complete the transfer at the sender.
- The dummy tracker head has an arbitrary but fixed content; its unset header fields matter in PeerLoop only.
- The receiver's scan bound of 1024 (flow_control.c:391) exceeds the 512-entry array; the model stops at the last piece.
- Header values out of range (a DATA sequence number of 0, an ACK of a negative index), the unsigned type of `prev_ack`, and `malloc` failures.
- ReceiverImpl.RecvBuffer.Receive: requires a sequence number of at least 1, because for 0 the program writes to the place before the first piece (flow_control.c:346-369), which has no defined content.
- ReceiverImpl.RecvList.RecvData: the same.
- CongestionTheorems.Growth: is stated for windows up to the bound the arithmetic is good enough for, 2000 in single precision; infinities and numbers below the normal range of a `float` do not occur there.
- CongestionTheorems.ExactGrowth: is the case without rounding; what a `float` does is in Growth, SingleGrowth and PowersAreOnTime.
- PeerLoop.SendResponses: leaves out packets of other types, which are sent even when withheld. In the transition system a response times and sends all its packets: one withheld by the timer of its own number is there a message that the network loses, and one withheld by the dummy head's unset header, which is not timed either, does not occur.
- The global lists of transfers searched by peer (flow_control.c:77-86), the `acked` flag of receive pieces (written, never read) and `find_in_local_has`.
- SHA-1 messages are whole bytes; `burnStack` and a null result buffer are not modelled.
- RouterImpl.Network.CreateTables: is stated for connected topologies only, like CreateTable.
- RouterImpl.Network.CreateTable: is stated for the case that all routers can be reached, because from an unreachable one no number of predecessor steps comes to the router itself (BackWalkEnds): the loop (hupsim.pl:279-282) then runs for ever or, at router 0, whose number an undefined value equals, dies for want of a queue.
- Whohas.GenerateWhohas: the terminating zero of a line of forty characters goes one byte past its buffer (packet.c:618-623), which is not modelled.
- Whohas.InitPacket: the four-byte prefix written with `strcat` (packet.c:186-189) is the count and three ones, or zeros for an empty packet.
- Command-line parsing, client.c, server.c, test drivers, scripts and data logs.

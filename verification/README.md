# A verified model of go-network's TCP, header codecs, routing and ARP cache

The Go repository implements a small user-space network stack. This project models the parts in which most of its
logic lies, proves what they keep true over whole runs, and says exactly where the program departs from what it is
meant to do.

- **TCP** (`TcpTypes`, `TcpSpec`). The protocol control block and every event that changes it: OPEN, SEND, RECEIVE,
  CLOSE, ABORT, the arrival of a segment in each of the eleven states, and a timer pass, each a function from control
  block to control block, because each runs under one mutex. `PcbClass` (in `Pcb.dfy`) is the control block as the
  program has it, an object whose methods assign its fields in loops and nested switches; each method is proved to do
  what the function does. `TcpRemove` proves the compaction of the retransmission queue on the shared backing array.
- **Over runs of one endpoint**, whatever segments arrive: `TcpSender` and `TcpRun` (sequence variables, contiguity of
  the retransmission queue, where our FIN is), `TcpNotify` (exactly how many answers the user calls get: at most one each
  unless a SEND exceeds the window), `TcpTimer` (the order of the queue, no panic, what a pass transmits, bounds of the
  retransmission timeout), `TcpStored` and `TcpLimit` (the same timer with its counts stored, over passes and over
  whole runs), `TcpAcceptance` (the first check of RFC 793).
- **Over runs of two endpoints** joined by a network that loses, duplicates and reorders: `TcpNet` (handshake,
  acknowledgements, FIN), `TcpAcks` (every acknowledgement was once what its sender expected), `TcpCover` (the queue
  covers what is unacknowledged), `TcpStream` (exactly when the bytes received are the bytes sent; buffer and window),
  `TcpWitness` (legal runs in which bytes are lost, a call gets two answers or none, or one SYN is sent again and again).
- **Checksum and codecs**: `Octets`, `Checksum`, `TcpHeader`, `UdpHeader`, `IpHeader`.
- **Tables**: `Routing`, and the ARP cache as functions and runs (`ArpSpec`) and as an object (`Arp`).

Conventions. The clock, the initial sequence number, and whether the lower layers accept a transmission are parameters.
A value sent on a Go channel is appended to the history `log`; a segment handed to the lower layers is appended to the
history `out`. Sequence numbers are compared as plain `uint32` by the program, so theorems about runs of TCP assume
that the streams do not wrap (`NoWrap`) and one incarnation per endpoint; `Legal` says what else a two-endpoint run
assumes. The receive window with which a control block starts is a parameter of the runs; in the program it is 0, and
an active opener never changes it, so that it accepts no text and no FIN.

Where the program departs from its evident intent the model follows the program:

- `pkg/tcp/pcb.go:217` shifts what is left in the receive buffer from `rxLen-dlen` instead of `dlen`
  (`ShiftCorrectIffClean`, `DrainIffHarmless`; a run that loses bytes: `PartialDrainLosesBytes`).
- `pkg/tcp/pcb.go:360-362` reports too long a text and transmits it all the same (`OversizeAnsweredTwice`; a run:
  `SendAnsweredTwice`).
- `pkg/tcp/pcb.go:527-529` closes without answering anybody (`ClosingAnswersAll`; whom it forgets: `AbortSettlesIff`; a
  run: `AbortForgetsClose`).
- `pkg/tcp/timer.go:80` and `pkg/tcp/timer.go:94` update the loop's copy of an entry, so counts and times are never
  stored (`ResentAfterRun`; runs with any number of transmissions: `SynTransmittedWithoutLimit`; `AtMostTwoAttempts` says
  what storing them would give).
- `pkg/tcp/protocol.go:418-420` means a FIN to answer the pending RECEIVE, but none that is pending has bytes to be
  answered with, so that it stays pending in CLOSE-WAIT (`FinAnswersNoReceive`).
- `pkg/tcp/protocol.go:214` mixes `&&` and `||` (`AcceptableIsTable`).
- `pkg/tcp/protocol.go:227-236` says that segments are taken to begin at RCV.NXT and to fit the window; none is trimmed
  or held. `StepFaithfulIff` gives the exact condition under which a step keeps the streams intact; when it fails, RCV.NXT
  passes text that was never received, and its SEND is answered "ok" (`OvertakingLosesBytes`, `AnsweredWithoutDelivery`).
- `pkg/udp/header.go:133-135` transmits a computed checksum of zero as zero, where RFC 768 sends all ones
  (`SentUnprotectedIff`).
- `pkg/ip/header.go:82` compares the header length with the packet length cut down to 8 bits (`OwnPacketsArriveIff`);
  lines 76-78 report no error for another version (`OtherVersionAccepted`).
- `pkg/ip/routing.go:51-58` keeps the address of the loop variable; under the language version of `go.mod:3` the last
  route is returned whenever any matches (`LookupCorrectIff`).
- `pkg/arp/cache.go:49-62` looks for the oldest entry starting from the zero time (`AllocIsOldestIff`), and
  `pkg/arp/protocol.go:60-80` releases the lock between merging and inserting (`InterleavedInsertUniqueIff`,
  `InterleavedInsertTwice`).
- `pkg/arp/timer.go:18-23` takes no lock and looks at a copy, so that an entry renewed in between is deleted
  (`LateExpiryIff`, `RenewedKeptIff`).

## Model

| member | source | states |
|---|---|---|
| TcpNet.HandshakeAgreement | pkg/tcp/protocol.go:100-198 | In every two-endpoint run, when either side is ESTABLISHED each side's IRS is the other's ISS. |
| TcpNet.AcknowledgementSandwich | pkg/tcp/protocol.go:297-323 | In every two-endpoint run, once the peer is synchronized, ISS <= SND.UNA <= the peer's RCV.NXT <= SND.NXT; before that nothing is acknowledged; no acknowledgement on the wire is beyond its sender's RCV.NXT. |
| TcpAcks.AcknowledgedWasReached | pkg/tcp/protocol.go:454-466 | In every two-endpoint run, each value acknowledged to the peer was RCV.NXT after some prefix of the run. |
| TcpNet.ReceiveNextMonotone | pkg/tcp/protocol.go:393-421 | No step of a consistent pair moves RCV.NXT of either side back. |
| TcpNet.FinAgreement | pkg/tcp/protocol.go:325-347 | FIN-WAIT-2 or TIME-WAIT on one side: the other has taken the FIN, RCV.NXT being this side's SND.NXT, and is in a state that says so, or closed; such a state is reached only by the peer's FIN. |
| TcpNet.ReplayedSyn | pkg/tcp/protocol.go:268-280 | A SYN or SYN and ACK of the peer that comes again never reaches the reset: it is answered by an acknowledgement and changes nothing else. |
| TcpNet.RunConsistent | pkg/tcp/protocol.go:83-466 | Every step of every legal two-endpoint run keeps the joint invariant, and none panics. |
| TcpNet.HostStepKeeps | pkg/tcp/protocol.go:83-452 | One step of either side, of any kind, keeps the invariant of the pair and does not move RCV.NXT back. |
| TcpNet.PeerSegment | pkg/tcp/protocol.go:454-466 | What any segment of the peer, however old, can say about acknowledgement, SYN and sequence space. |
| TcpStream.StepFaithfulIff | pkg/tcp/protocol.go:384-421 | A legal step keeps both streams intact exactly if text that is taken begins at RCV.NXT, goes into the buffer and leaves no more than the window, a FIN that is taken is at RCV.NXT, and the shift does the buffered bytes no harm. |
| TcpStream.RunFaithfulIff | pkg/tcp/protocol.go:384-421 | A legal run keeps both streams intact all the way exactly if every step satisfies that condition. |
| TcpStream.StreamIntegrity | pkg/tcp/protocol.go:385-404 | In every such run, bytes handed to RECEIVE followed by the buffer are the prefix of what was SENT that lies below RCV.NXT, and all of it once the FIN is consumed. |
| TcpStream.ClosedAfterDelivery | pkg/tcp/protocol.go:326-331 | In such runs, in FIN-WAIT-2 or TIME-WAIT everything SENT is at the peer, in order. |
| TcpStream.AnsweredBytesDelivered | pkg/tcp/pcb.go:172-184 | In such runs, the bytes of a SEND that a segment of the peer answers are at their place among those the peer has received. |
| TcpStream.TextIntactIff | pkg/tcp/protocol.go:393-398 | Text at or above RCV.NXT, stored and handed to a waiting RECEIVE, keeps the stream intact exactly if it fits. |
| TcpStream.OvertakingBreaksStream | pkg/tcp/protocol.go:226-236 | While nobody waits, that is exactly if it begins at RCV.NXT and is not longer than the window. |
| TcpStream.FinIntactIff | pkg/tcp/protocol.go:417-421 | A FIN at or above RCV.NXT keeps the stream intact exactly if it is at RCV.NXT. |
| TcpStream.ReceiveIntactIff | pkg/tcp/pcb.go:381-423 | A RECEIVE keeps the stream intact exactly if it is refused or the shift does the buffered bytes no harm. |
| TcpStream.DrainIffHarmless | pkg/tcp/pcb.go:208-222 | A drain keeps the bytes exactly if each byte that the shift moves is the one that belongs at its place. |
| TcpStream.ShiftCorrectIffClean | pkg/tcp/pcb.go:208-222 | A drain preserves every buffer content exactly if it is full, takes half, or takes nothing from a full buffer. |
| TcpStream.BufferConservation | pkg/tcp/protocol.go:118-131 | In every legal run the passive opener's buffered bytes and window add up to 65535 once it is synchronized, and before that nothing is buffered. |
| TcpStream.NoWrapIffFits | pkg/tcp/protocol.go:393-397 | Neither 16-bit number wraps, and all text goes into the buffer, exactly if the text fits the window. |
| TcpStream.WindowNeverOverstated | pkg/tcp/protocol.go:393-398 | Buffered bytes and window never exceed the buffer: of the passive opener in every legal run, of the active one if the text that it takes fits its window. |
| TcpStream.FinAnswersNoReceive | pkg/tcp/protocol.go:417-421 | In every legal run a FIN that is taken moves RCV.NXT and nothing else of the receiving half: a RECEIVE that waits goes on waiting. |
| TcpWitness.OvertakingLosesBytes | pkg/tcp/protocol.go:393-398 | A legal run after which the bytes received are no prefix of the bytes sent. |
| TcpWitness.AnsweredWithoutDelivery | pkg/tcp/pcb.go:172-184 | A legal run after which a SEND has been answered "ok" whose byte was never received. |
| TcpWitness.PartialDrainLosesBytes | pkg/tcp/pcb.go:216-220 | A legal run in which a RECEIVE of one byte out of 1, 2, 3 leaves 3, 0 buffered. |
| TcpWitness.SendAnsweredTwice | pkg/tcp/pcb.go:359-374 | A legal run in which the channel of a single SEND gets two answers. |
| TcpWitness.AbortForgetsClose | pkg/tcp/pcb.go:527-529 | A legal run that ABORTs in LAST-ACK and leaves the channel of the CLOSE without an answer. |
| TcpWitness.SynTransmittedWithoutLimit | pkg/tcp/timer.go:77-96 | For every number of passes that the user timeout allows, a run in which the same SYN goes out in each of them. |
| TcpRun.EndpointSafe | pkg/tcp/pcb.go:148-184 | Whatever segments arrive, in one incarnation without simultaneous open, active OPENs of a listening endpoint and repeated failed OPENs included: the queue is contiguous up to SND.NXT, in FIN-WAIT-1, CLOSING and LAST-ACK our FIN is queued at SND.NXT-1, in FIN-WAIT-2 and TIME-WAIT all is acknowledged and the queue empty; no panic. |
| TcpRun.StepKeepsSender | pkg/tcp/protocol.go:287-347 | Every event keeps the invariant of the sending half and only extends its stream, or replaces an initial sequence number that was never used. |
| TcpSender.AckQueue | pkg/tcp/pcb.go:172-184 | An acknowledgement leaves a contiguous queue, empty if all is acknowledged, else still ending in our FIN if it did. |
| TcpSender.FinTestIdle | pkg/tcp/protocol.go:427-434 | The test in FIN-WAIT-1 whether the segment acknowledges our FIN never holds: that acknowledgement has led to FIN-WAIT-2 before. |
| TcpSender.CloseSignalIdle | pkg/tcp/protocol.go:332-337 | The signal to CLOSE in FIN-WAIT-2 changes nothing: the queue is empty by then. |
| TcpQueue.KeepIsSuffix | pkg/tcp/pcb.go:172-184 | On a contiguous queue an acknowledgement removes exactly a prefix. |
| TcpQueue.TilesIncreasing | pkg/tcp/pcb.go:148-158 | A contiguous queue is in strictly increasing order of sequence numbers. |
| TcpCover.QueueCoversUnacknowledged | pkg/tcp/protocol.go:297-305 | In two-endpoint runs the queue covers exactly SND.UNA to SND.NXT once our SYN is acknowledged. |
| TcpCover.AnsweredIsBelowNext | pkg/tcp/pcb.go:175-181 | An acknowledgement of the peer answers exactly the entries that it covers whole; they end at or below the peer's RCV.NXT. |
| TcpNotify.StepAccrues | pkg/tcp/pcb.go:172-234 | For each channel, answers given plus answers outstanding grow by what the call creates and never otherwise. |
| TcpNotify.AnswersAreCreated | pkg/tcp/pcb.go:267-499 | In every run, answers given plus answers outstanding on a channel are exactly those that its calls created. |
| TcpNotify.AtMostOneAnswer | pkg/tcp/pcb.go:267-499 | In any run whose SENDs fit the send window, a channel gets at most as many answers as calls used it, counting those still waiting. |
| TcpNotify.OversizeAnsweredTwice | pkg/tcp/pcb.go:359-374 | In the states that transmit text, a SEND creates two answers exactly if the text is longer than the send window. |
| TcpNotify.ClosingAnswersAll | pkg/tcp/pcb.go:501-531 | Every way into CLOSED leaves nobody waiting, except ABORT in CLOSING, LAST-ACK and TIME-WAIT, which answers nobody. |
| TcpNotify.ClosedIsAnswered | pkg/tcp/protocol.go:332-337 | After every run that ends in FIN-WAIT-2 or TIME-WAIT each call but a pending RECEIVE has had all its answers, the CLOSE among them. |
| TcpNotify.AbortSettlesIff | pkg/tcp/pcb.go:501-531 | After every run, ABORT leaves nobody waiting exactly if the state is neither CLOSING nor LAST-ACK, and in TIME-WAIT no RECEIVE is pending. |
| TcpTimer.PassSafe | pkg/tcp/timer.go:57-99 | On an ordered queue, whatever its counts: the pass does not panic, and the user timeout fires exactly if it has passed for the head. |
| TcpTimer.RunOrdered | pkg/tcp/timer.go:66-98 | In every run with a clock that never goes back the queue stays in order of first transmission. |
| TcpTimer.PassResends | pkg/tcp/timer.go:66-98 | With nothing acknowledged or expired, a pass transmits each entry that is due once, in the order of the queue, and changes nothing else. |
| TcpTimer.RetransmittedWheneverDue | pkg/tcp/timer.go:77-96 | Over passes at any times, each entry of any queue is transmitted once for every pass in which it is due, and never dropped. |
| TcpStored.ReachedQueue | pkg/tcp/pcb.go:148-158 | After every run of one incarnation the queue is as the results about passes assume it: sequence numbers increase, nothing is below SND.UNA, no count is stored. |
| TcpStored.ResentAfterRun | pkg/tcp/timer.go:77-96 | So after any such run each entry is transmitted once for every pass in which it is due, however many. |
| TcpStored.StoredCountsLimit | pkg/tcp/timer.go:66-98 | With counts and times stored in the queue, over passes at any times: no panic, and each entry is attempted at most twice by the timer, with doubling waits, and dropped only after that, unless the connection is closed. |
| TcpStored.StoredLimitAfterRun | pkg/tcp/timer.go:66-98 | The same for every entry of every queue that a run leads to. |
| TcpLimit.AtMostTwoAttempts | pkg/tcp/timer.go:66-98 | With counts and times stored, in runs of calls, segments, acknowledgements and passes in any order: no panic, and the timer makes at most two attempts for a sequence number, the second more than 2 s after the first. |
| TcpStored.LoopLooks | pkg/tcp/timer.go:68-96 | That loop looks at each entry once, marks it when its count reaches the limit, and otherwise stores count and time. |
| TcpTimer.RtoWithinBounds | pkg/tcp/timer.go:29-41 | Over whole histories the timeout is between 1 s and 60 s, the smoothed time stays within 6 ns of the range of the samples, and below 2^58 ns nothing overflows. |
| TcpAcceptance.AcceptableIsTable | pkg/tcp/protocol.go:201-224 | Where the window does not wrap, for every segment the test is the four-row table of section 3.3 of RFC 793 plus one case. |
| TcpAcceptance.AcceptableIsOverlap | pkg/tcp/protocol.go:213-216 | For non-empty segment and window the test is overlap, except of a segment that sticks out on both sides. |
| TcpAcceptance.AgreementIffNoWrap | pkg/tcp/protocol.go:214-216 | The agreement holds for all segments, wrapping ones included, exactly if the window is empty or does not wrap. |
| TcpRemove.RemoveAtKeepsUnlisted | pkg/tcp/pcb.go:160-170 | Removal by increasing indices keeps exactly the elements that are not listed, in order. |
| TcpRemove.RemoveRetxInPlace | pkg/tcp/pcb.go:160-170 | The appends on the shared backing array never overwrite an element not yet read, and touch nothing behind the slice. |
| PcbClass.Pcb.constructor | pkg/tcp/pcb.go:247-250 | A new control block is the closed one with which runs start. |
| PcbClass.Pcb.Open | pkg/tcp/pcb.go:267-346 | The object's new state is what OPEN does to the abstract control block. |
| PcbClass.Pcb.Send | pkg/tcp/pcb.go:348-379 | The same for SEND, with its three attempts. |
| PcbClass.Pcb.Receive | pkg/tcp/pcb.go:381-423 | The same for RECEIVE. |
| PcbClass.Pcb.Close | pkg/tcp/pcb.go:425-499 | The same for CLOSE. |
| PcbClass.Pcb.Abort | pkg/tcp/pcb.go:501-531 | The same for ABORT. |
| PcbClass.Pcb.SegmentArrives | pkg/tcp/protocol.go:83-452 | The same for the arrival of a segment in every state. |
| PcbClass.Pcb.TimerPass | pkg/tcp/timer.go:57-99 | The same for a timer pass over this control block, provided the final removal is in bounds. |
| PcbClass.Pcb.TxHelper | pkg/tcp/protocol.go:454-466 | Transmits and queues what occupies sequence space; nothing is queued when the transmission fails. |
| PcbClass.Pcb.QueueAck | pkg/tcp/pcb.go:172-184 | Answers, measures and removes what is acknowledged. |
| PcbClass.Pcb.SignalErr | pkg/tcp/pcb.go:186-234 | Answers the whole queue and the pending RECEIVE with the error and empties both. |
| PcbClass.Pcb.SignalReceive | pkg/tcp/pcb.go:208-222 | Hands buffered bytes to the pending RECEIVE and shifts the rest in place. |
| PcbClass.Estimator.CalculateRto | pkg/tcp/timer.go:29-41 | The two globals stay the function of the history of samples that the bounds are proved of. |
| Checksum.CheckSum | pkg/utils/utils.go:40-54 | The two loops compute the complement of the reduced sum, and the second one ends. |
| Checksum.ChecksumIsComplement | pkg/utils/utils.go:40-54 | Up to 131072 bytes the result is the complement of the one's complement sum of RFC 1071. |
| Checksum.NoOverflow | pkg/utils/utils.go:45-48 | Up to 131072 bytes and a 16-bit base the `uint32` accumulator does not overflow. |
| Checksum.TwoStages | pkg/tcp/header.go:165-166 | Summing an even prefix first and going on from its complement gives the sum of the whole. |
| Checksum.StampedPasses | pkg/tcp/header.go:201-204 | Text with its checksum written in passes the test exactly if the place held 0 or -0 when it was summed. |
| Checksum.SingleWordError | pkg/utils/utils.go:40-54 | Replacing one aligned word of what passes passes exactly if the words are equal or 0x0000 and 0xffff. |
| TcpHeader.RoundTrip | pkg/tcp/header.go:139-209 | Decoding what was encoded gives header, with its checksum, and payload exactly if the checksum field was 0 or -0. |
| TcpHeader.OneWordErrorDetected | pkg/tcp/header.go:165-169 | Changing one aligned word of an accepted segment is rejected unless it swaps 0x0000 and 0xffff. |
| TcpHeader.HeaderToData | pkg/tcp/header.go:174-209 | The buffer patched at bytes 28-30 holds the encoding, and the header gets the checksum. |
| TcpHeader.DataToHeader | pkg/tcp/header.go:139-172 | The receiver's two sums and early returns compute the decoding. |
| UdpHeader.RoundTrip | pkg/udp/header.go:63-140 | The same for UDP: rejected for a wrong length; a checksum that comes out as zero is accepted unchecked. |
| UdpHeader.SentUnprotectedIff | pkg/udp/header.go:132-135 | Zero is transmitted exactly if the one's complement sum of what is protected is 0xffff. |
| UdpHeader.WordErrorDetectedIffProtected | pkg/udp/header.go:82-100 | A changed word, ports and payload alike, is accepted exactly if the checksum is zero or 0x0000 and 0xffff were swapped. |
| UdpHeader.HeaderToData | pkg/udp/header.go:105-140 | The buffer patched at bytes 18-20 holds the encoding. |
| UdpHeader.DataToHeader | pkg/udp/header.go:63-103 | The early returns compute the decoding. |
| IpHeader.RoundTrip | pkg/ip/header.go:61-121 | With five header words a packet comes back exactly if its length passes the 8-bit and the 16-bit test and the checksum field was 0 or -0. |
| IpHeader.OwnPacketsArriveIff | pkg/ip/header.go:80-84 | A packet as the program's sender fills it in comes back exactly if its length modulo 256 is at least 20. |
| IpHeader.OtherVersionAccepted | pkg/ip/header.go:76-78 | Accepted as an empty packet without a header is exactly what is long enough and of another version. |
| IpHeader.OneWordErrorDetected | pkg/ip/header.go:80-95 | With one aligned word of the header of an accepted packet changed, version and header length apart, the packet is accepted exactly if 0x0000 and 0xffff were swapped and the total length is not beyond the packet. |
| IpHeader.HeaderToData | pkg/ip/header.go:98-121 | The buffer patched at bytes 10-12 holds the encoding. |
| IpHeader.DataToHeader | pkg/ip/header.go:61-96 | The early returns compute the decoding. |
| Routing.ComparisonIsByPrefix | pkg/utils/utils.go:34-36 | Byte-swapped comparison orders contiguous netmasks exactly by prefix length. |
| Routing.LongestPrefixMatch | pkg/ip/routing.go:46-67 | With the candidate held by value the lookup returns the first-added of the longest matching routes, and fails exactly if none matches. |
| Routing.LookupCorrectIff | pkg/ip/routing.go:51-66 | The program's result is the longest match exactly if nothing matches or the route added last is a longest match, no other such route having been added before a copy of it. |
| Routing.DefaultRouteTakesAll | pkg/ip/routing.go:31-43 | A default gateway set last takes every destination, rightly exactly if no other route matches. |
| Routing.LookupAfterAdd | pkg/ip/routing.go:21-67 | A route added should take over exactly where it matches and is longer than what was found, and does take over wherever any route matches; the lookup is right afterwards exactly if nothing matches, or the route should take over, or equals what was found. |
| Routing.Table.LookupTable | pkg/ip/routing.go:46-67 | The loop with the candidate pointing at its variable returns the last route if any route matches, else an error. |
| ArpSpec.RunUnique | pkg/arp/cache.go:69-117 | In every run at most one live entry per protocol address. |
| ArpSpec.StepRefinesMap | pkg/arp/cache.go:46-130 | Every step does what a map from addresses to bindings does; a binding is forgotten for another only when the map is full. |
| ArpSpec.ResolveFromMap | pkg/arp/protocol.go:137-167 | A request is answered from the map's binding, and from a complete one only. |
| ArpSpec.ResolveIsLastHeard | pkg/arp/protocol.go:137-167 | Over any run, an address found is the one most recently heard from there. |
| ArpSpec.AnswersAreRecent | pkg/arp/timer.go:18-23 | After an expiry pass no answer rests on a message heard more than 30 s before it. |
| ArpSpec.ExpireBindings | pkg/arp/timer.go:18-23 | A pass forgets exactly the bindings older than 30 s. |
| ArpSpec.LateExpiryIff | pkg/arp/timer.go:18-23 | Deleting by a copy taken earlier is an expiry pass exactly if no slot has expired, or stopped to be expired, in between. |
| ArpSpec.RenewedKeptIff | pkg/arp/timer.go:18-23 | An entry renewed between copy and deletion is kept exactly if it had not expired when it was copied. |
| ArpSpec.InterleavedInsertUniqueIff | pkg/arp/protocol.go:60-80 | With a request between merge and insertion addresses stay apart exactly if it is for another address or takes the same slot. |
| ArpSpec.InterleavedInsertTwice | pkg/arp/protocol.go:60-80 | From the empty table, a request for the sender's own address in between leaves two entries for it. |
| ArpSpec.AllocIsOldestIff | pkg/arp/cache.go:44-66 | Of a full table the oldest entry is given up exactly if one precedes the zero time or slot 0 is the oldest. |
| ArpSpec.FullTableForgetsTheNewest | pkg/arp/cache.go:44-66 | In a full table each new address drives out the one that came before it. |
| Arp.Cache.CacheAlloc | pkg/arp/cache.go:46-66 | The first free slot, else what the search for the oldest finds. |
| Arp.Cache.CacheInsert | pkg/arp/cache.go:69-81 | Overwrites that slot only. |
| Arp.Cache.CacheSelect | pkg/arp/cache.go:85-94 | The first slot that holds the address, or an error. |
| Arp.Cache.CacheUpdate | pkg/arp/cache.go:99-117 | Overwrites the slot of a known address, else reports that there is none. |
| Arp.Cache.CacheDelete | pkg/arp/cache.go:120-130 | Frees the slot, or reports an index out of range. |
| Arp.Cache.RxHandler | pkg/arp/protocol.go:60-80 | Merge, then insertion if the message is for this host. |
| Arp.Cache.ResolveAddress | pkg/arp/protocol.go:137-167 | Lookup; an unknown address gets an incomplete entry; a request is transmitted unless an address is found. |
| Arp.Cache.TimerPass | pkg/arp/timer.go:18-23 | One expiry pass over the array. |

## Left out

- Urgent pointer, security and precedence, TCP options, `mss`: ignored or stubbed in the program. The urgent pointer transmitted is always 0.
- Simultaneous OPEN, several incarnations and wrapping sequence numbers: part of the functions and of `PcbClass`, excluded by hypothesis from `TcpSender`, `TcpNet`, `TcpCover` and `TcpStream`.
- Liveness of closing: with the window left at 0 the active opener never accepts the peer's FIN, so only safety is stated.
- The search for a control block in `RxHandler` (by destination only; the sender's address is used only in LISTEN), `Newpcb`, `Deletepcb`, and the list of control blocks; a timer pass is modelled for one of them.
- The round-trip estimate is one global of the program; here each control block refers to one, and runs have one control block per estimate.
- One clock value per call: the program reads the clock several times in one event. `time.Sleep` between attempts is not modelled.
- The network as a device: that a transmission fails, for whatever reason including its size, is a parameter. A segment carries four of the eight control bits, and its text is what its length says.
- Channels that block or are nil where a value is sent, and the memory model outside the mutex.
- The user's receive buffer is the answer `Got`; its capacity is a parameter.
- PcbClass.Pcb.TimerPass: requires that the final removal is in bounds, because the program panics there otherwise; `TcpTimer.PassSafe` and `TcpTimer.RunOrdered` show that it always is.
- TcpStream.StreamIntegrity: for runs whose steps are sound in the sense of `StepFaithfulIff`; by `RunFaithfulIff` these are exactly the runs that keep both streams intact. Intact includes that buffered bytes and window do not exceed the buffer.
- TcpTimer.RetransmittedWheneverDue: between acknowledgements and without user timeout, which `TcpTimer.PassSafe` treats; `TcpStored.ResentAfterRun` says it of the queues that runs lead to. The width of `retxCount` and of the shift is not modelled.
- TcpLimit.AtMostTwoAttempts: no new incarnation while attempts of the last one are counted, no simultaneous OPEN, no sequence wrap.
- TcpWitness.SynTransmittedWithoutLimit: with a user timeout of 1000 s and one pass a second; the program leaves the timeout to the user.
- IpHeader.OneWordErrorDetected: not for a first byte that changes, with which the header that is summed changes.
- ArpSpec.ExpireBindings: the pass as one step; `ArpSpec.LateExpiryIff` says exactly when the program's pass, which takes no lock, is that.
- A two-endpoint run has one successful or failed active OPEN at one end and passive OPENs at the other; repeated and changed OPENs are in the one-endpoint runs.
- `append(b, 0)` in `CheckSum` may overwrite the byte behind an odd-length slice in its backing array; the model has no such byte.
- Header structs are values: the codec methods return the header with its checksum instead of assigning a field through a pointer.
- TcpHeader.RoundTrip: for segments up to 131060 bytes, the bound below which the `uint32` sum cannot overflow.
- Routes are found for a `uint32` destination; interfaces are numbers, and address text parsing is not modelled.
- The ARP message codec, which messages are replied to, and which interface a message arrives on: the last is the parameter `forUs`.
- Arp.Cache.RxHandler: merge and insertion are one step, although the lock is released between them; `InterleavedInsertUniqueIff` says what the gap can do.
- ICMP, UDP sockets, the Ethernet codec, devices and the registries of `pkg/net`: plumbing or easy members.

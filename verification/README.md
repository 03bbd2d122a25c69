# gosrt in Dafny

A model of the transport core of gosrt, an implementation of SRT (Secure Reliable
Transport, draft-sharabayko-srt), with proofs about whole runs of it: the live-mode
receiver and sender, the two of them over a network that loses, repeats and reorders, the
arithmetic of wrapping sequence numbers and timestamps, payload encryption with its key
refresh, the listener's connection tables, and the codecs for packet headers, loss lists and
handshakes.

`dafny verify dfyconfig.toml` checks everything. No proof depends on Dafny's automatic induction, so
`--manual-lemma-induction` may be added.

## How it is laid out

Objects that the source updates in place are classes with the same fields
(`LiveReceiver`, `LiveSender`, `TimeBase`, `PacketReader`, `ConnTable`, `PayloadCipher`,
`RefreshMachine`, `PeerMachine`), and `Link.Pair` holds both ends of a session; their methods follow
the source statement by statement and are proved equal to a step function over values. The theorems
are about runs of those steps, and say what each step does in terms that do not mention it.

Sequence numbers exist twice. The classes hold the source's 31-bit circular numbers and
compare them as the source does; the step functions use unbounded integers. `Circular`
proves that the two agree as long as the numbers compared are less than 2^30 - 1 apart. This
window is the one thing a session asks of its network beyond pacing, and it is asked where
the code compares: `Session.Enabled` keeps arriving numbers near the receiver's cursors, ACKs and
loss lists near the packets the sender holds, and what is read near what is expected. That
is enough: `Link` drives the classes through every behaviour of a session, loss lists
as bytes included, and every call finds its numbers in the window.

| file | what is in it |
|---|---|
| `Circular.dfy`, `Packets.dfy`, `Wire.dfy`, `Wrappers.dfy` | circular numbers, packets and loss ranges, big-endian words, results |
| `ReceiverSpec.dfy`, `ReceiverTheorems.dfy`, `ReceiverExact.dfy`, `ReceiverRuns.dfy`, `Receiver.dfy`, `ReceiverDriver.dfy` | the live receiver: steps, what each step keeps, what exactly it does, whole runs, the class, runs of the class |
| `SenderSpec.dfy`, `SenderTheorems.dfy`, `SenderExact.dfy`, `Sender.dfy` | the live sender likewise |
| `Tsbpd.dfy` | restoring sending times from 32-bit timestamps |
| `LossList.dfy`, `LossReport.dfy` | the loss list on the wire; from a gap in the receiver to a retransmission |
| `Session.dfy`, `SessionSafe.dfy`, `SessionLive.dfy`, `Reader.dfy`, `Link.dfy` | both ends, the network and the read queue; end-to-end safety; delivery in time; reading; the same of the classes |
| `Crypto.dfy`, `KeyRefresh.dfy`, `KeyAnnounce.dfy`, `KeyExchange.dfy`, `KeyLoss.dfy`, `KeyReorder.dfy` | cipher and key material; the refresh countdowns; which packets carry announcements; both ends of a key switch; what lost announcements cost; packets that arrive late |
| `Listener.dfy` | the tables of pending and open connections |
| `Header.dfy`, `Handshake.dfy`, `Layout.dfy` | packet headers and handshakes; where each field stands |

Functions named `New`, `Lt`, `Push`, `Pop` and so on mirror the source; lemmas ending in
`Exactly` or `IsExact` give both directions.

## What the proofs show about the code

Where an expected property does not hold of the code, the model keeps the code, a lemma
gives an input or a run that shows it, and another states exactly when it does hold.

- `KMPreAnnounce` equal to half of `KMRefreshRate` passes validation, although the error message
  there asks for less than half. Exactly then the first announcement of a cycle carries the old
  key of the slot, because the key is made only after it (`KeyRefresh.StaleAnnouncement`,
  `KeyRefresh.ScheduledExactly`).
- A response of the peer counts up to one packet less than `KMPreAnnounce` before announcing begins,
  and one taken then, such as a late one, keeps the next key from being announced at all
  (`KeyAnnounce.EarlyResponseSilences`); which packets announce is given exactly, for all runs
  (`KeyAnnounce.AnnouncesExactly`). With `KMPreAnnounce` 1 no response ever counts.
- A peer that misses every announcement of one key cycle takes those of the next one for an attempt
  to reset the key in use and refuses them. It is not sure to read the next two cycles, and recovers
  in the third if it hears an announcement before (`KeyLoss.MissedCycleCostsTwo`). In general a payload is
  understood exactly if the key the peer uses in that cycle is the one it was encrypted with
  (`KeyLoss.ReadableExactly`, with `KeyLoss.UnreadableRun` for every case where it is not).
- A retransmission keeps the ciphertext of the first transmission but is flagged with the key in
  use when it is sent. With all keys heard of, it is sure to decrypt exactly if the key has not
  been switched since (`KeyLoss.RetransmissionsDecryptInCycleOnly`).
- A data packet that arrives late is sure to decrypt exactly until the peer takes over the key of two
  cycles later, which replaces its own (`KeyReorder.LateUntilReplaced`).
- Key material that cannot be unwrapped is refused, but its salt has been taken over by then
  (`Crypto.RefusedKeyMaterialHarms`, `Crypto.RefusedKeyMaterialExactly`).
- A connection request for which no free socket id is found leaves its peer in the table for good;
  nothing else does (`Listener.ReservationIsLost`, `Listener.OrphanExactly`).
- Resolving a request twice, by rejecting or accepting, can take away what belongs to a later request
  of the same peer (`Listener.SecondResolutionHarms`, `Listener.SecondRejectExactly`,
  `Listener.SecondAcceptExactly`).
- The receiving side of a loss list sorts it as single numbers: ranges survive exactly if each ends
  before the next one begins (`LossList.NestedRangesAreScrambled`, `LossList.LossListArrivesExactly`).
- Circular addition, subtraction and construction correct for one wrap only
  (`Circular.AddAgreesExactly`, `Circular.SubAgreesExactly`, `Circular.NewIsResidue`), and numbers a
  multiple of 2^31 apart cannot be told apart (`Circular.SameOnCircle`).
- The time base follows the sender for as long as packets are at most 30 seconds from the newest one,
  and for no larger bound (`Tsbpd.PaceIsTight`).
- A handshake naming the "live" congestion control is written without that name
  (`Handshake.UnchangedExactly`).
- The first packet whose number is 1 modulo 16 takes over a probe time that no packet before it has
  set if the numbering starts there: it is due at time 0 (`SenderTheorems.RunSafe`).
- The final loss check of the receiver's Tick after the delivery loop can never count anything; the
  class asserts instead that both cursors agree there.

## Model

| member | source | states |
|---|---|---|
| `Circular.OrderAgrees` | circular/circular.go:44-122 | numbers less than half the range apart compare, and have the distance, of the integers they are residues of |
| `Circular.OrderAgreesExactly` | circular/circular.go:70-90 | a shift by d is seen as greater at every position of the circle if and only if d is below the threshold |
| `Circular.Trichotomy` | circular/circular.go:44-131 | of less, greater and equal exactly one holds for any two numbers, and the order is antisymmetric, threshold distance included |
| `Circular.DistanceSpans` | circular/circular.go:49-67 | adding the distance leads from the smaller to the larger number and subtracting it leads back |
| `Circular.LtNotTransitive` | circular/circular.go:70-90 | three numbers each less than the next all the way round: the order is no total order without a window |
| `Circular.IncDecAgree` | circular/circular.go:134-171 | stepping up and down commutes with taking residues, at the wrap too, so each undoes the other |
| `Circular.AddAgreesExactly` | circular/circular.go:147-158 | addition is addition of residues if and only if the sum stays below two full circles |
| `Circular.SubAgreesExactly` | circular/circular.go:174-184 | subtraction is subtraction of residues if and only if it crosses zero at most once |
| `Circular.NewIsResidue` | circular/circular.go:22-36 | construction gives the residue if and only if the value is below two full circles |
| `ReceiverTheorems.OutOfOrderScanEnds` | congestion/live/receive.go:207-234 | the scan for an out-of-order packet always meets a packet at or above it, so the packet is never silently lost |
| `ReceiverTheorems.PushKeepsInv` | congestion/live/receive.go:134-258 | whatever arrives, the buffer stays strictly sorted between the delivered and the highest number, ends at the highest one, still holds the acknowledged packet, and its counters match its contents |
| `ReceiverTheorems.DeliverKeepsInv` | congestion/live/receive.go:374-414 | delivering keeps that invariant |
| `ReceiverTheorems.AckIsAckPoint` | congestion/live/receive.go:260-323 | the acknowledged number is the one and only number that is not lowered, is held, passes missing numbers only where the packet after them is due, and cannot be raised further |
| `ReceiverTheorems.AckPointUnique` | congestion/live/receive.go:260-323 | that declarative description has at most one solution |
| `ReceiverTheorems.NextKeepsInv` | congestion/live/receive.go:134-414 | every step of the receiver keeps the invariant |
| `ReceiverTheorems.TickDrains` | congestion/live/receive.go:365-414 | after a Tick that acknowledged, the first packet held, if any, is not due: no gap can hold back a due packet |
| `ReceiverTheorems.NakIsExact` | congestion/live/receive.go:325-363 | the periodic loss list covers a number if and only if it is above the acknowledged one, not above the highest seen, and not held; its ranges are in order and disjoint |
| `ReceiverExact.PushBuffersExactly` | congestion/live/receive.go:185-257 | the buffer after an arrival holds what it held and the packet itself, the latter exactly if it is above both the delivered and the acknowledged number and none with its number is held; the cursors for deliveries and ACKs stay, the highest number seen becomes the higher of both |
| `ReceiverExact.PushReportsExactly` | congestion/live/receive.go:235-249 | an arrival sends one loss list that covers exactly the numbers strictly between the highest one seen and its own, and none at all if there is no such number |
| `ReceiverExact.NothingGoesUnnoticed` | congestion/live/receive.go:204-249 | in every run, each number from the first to the highest one seen has arrived or was named by a loss list sent |
| `ReceiverExact.PushCountsExactly` | congestion/live/receive.go:134-257 | which of the packet, byte and loss counters an arrival raises, and by how much, told from its number and flag and from what is held |
| `ReceiverExact.AcksExactly` | congestion/live/receive.go:260-323 | in every run, a Tick acknowledges exactly if the ACK interval has passed since the last ACK or 64 packets have arrived since; the ACK is a light one exactly if the interval has not passed; otherwise nothing changes |
| `ReceiverExact.NaksExactly` | congestion/live/receive.go:325-363 | in every run, a Tick sends a periodic loss list exactly if the interval last set has passed since losses were last looked for and a number is missing, and the list covers exactly the missing numbers |
| `ReceiverExact.DeliversExactly` | congestion/live/receive.go:374-414 | a packet held is delivered exactly if it is acknowledged and it and all held before it are due, and stays held otherwise |
| `ReceiverRuns.RunSafe` | congestion/live/receive.go:134-414 | for every run, with Push and the phases of Tick interleaved in any way: packets are delivered in strictly increasing order, none before its time and none that did not arrive; acknowledgements never go back; no loss list names a number acknowledged before; and received = unique + dropped, unique = delivered + buffered, and numbers passed = packets + losses, in packets and bytes |
| `ReceiverRuns.AckedIsClosed` | congestion/live/receive.go:196-202 | after any run, a packet below a number ever acknowledged no longer changes the buffer |
| `ReceiverRuns.SkippedTelescopes` | congestion/live/receive.go:394-408 | the loss counted while delivering is the number of sequence numbers skipped |
| `Receiver.LiveReceiver.constructor` | congestion/live/receive.go:69-102 | a new receiver is the initial state of the runs |
| `Receiver.LiveReceiver.Push` | congestion/live/receive.go:134-258 | on circular numbers, the new state with its packet and byte counters and the loss list sent at once are those of the step over integers |
| `ReceiverDriver.Drive` | congestion/live/receive.go:134-414 | for every run of the class in which arriving numbers are in the window of its cursors, the packets delivered are those of the run over integers, and that run has all the properties of RunSafe |
| `Receiver.LiveReceiver.FindPlace` | congestion/live/receive.go:207-234 | the loop finds the first packet not below the new one and tells whether it is a duplicate |
| `Receiver.LiveReceiver.PeriodicACK` | congestion/live/receive.go:260-323 | whether, what and how much (light or full) is acknowledged is that of the step over integers |
| `Receiver.LiveReceiver.PeriodicNAK` | congestion/live/receive.go:325-363 | the numbers reported are the ends of exactly the missing ranges |
| `Receiver.LiveReceiver.DeliverDue` | congestion/live/receive.go:374-414 | the packets handed over, what is left and the loss statistics are those of the step over integers |
| `Receiver.LiveReceiver.Tick` | congestion/live/receive.go:365-414 | acknowledgement, loss list and deliveries, each from the state the one before left; after an acknowledgement nothing due is left in front |
| `SenderTheorems.PushKeepsInv` | congestion/live/send.go:120-162 | the packets held stay one consecutive run of numbers up to the next one, in non-decreasing sending time, although the time of every 16th packet is rewritten for probing |
| `SenderTheorems.RunSendsWhatIsDue` | congestion/live/send.go:166-197 | in every run with writes in order of time, the packets a Tick sends are all those due and no other, although it stops at the first one not due |
| `SenderTheorems.DropIsSuffix` | congestion/live/send.go:199-227 | of the packets held for retransmission the oldest go, those whose sending time plus the threshold has come, and the others stay in order |
| `SenderExact.DropKeepsExactly` | congestion/live/send.go:199-227 | a packet is still held after a drop exactly if it was and its sending time plus the threshold is still to come; packets waiting to be sent are left alone |
| `SenderExact.RunDropKeeps` | congestion/live/send.go:199-227 | the same at the end of every run with writes in order of time, the threshold being the one set last |
| `SenderTheorems.AckIsSuffix` | congestion/live/send.go:250-279 | what is left after an ACK is the end of the retransmission buffer, in order, from the first number not below the acknowledged one |
| `SenderExact.AckReleasesExactly` | congestion/live/send.go:250-279 | a packet is still held after an ACK exactly if it was and its number is not below the acknowledged one; order and packets waiting to be sent stay |
| `SenderExact.RunAckReleases` | congestion/live/send.go:250-279 | the same at the end of every run with writes in order of time: nothing below the number of an ACK is left after it |
| `SenderTheorems.HitsOnce` | congestion/live/send.go:289-312 | a packet matches a list of separate ranges at most once, and once if it is covered |
| `SenderTheorems.NakIsExact` | congestion/live/send.go:281-313 | of the packets held exactly those covered by the loss list are retransmitted, each once, newest first, marked as retransmitted |
| `SenderTheorems.NakKeepsInv` | congestion/live/send.go:281-313 | marking packets as retransmitted keeps the sender's invariant |
| `SenderExact.NakMarksExactly` | congestion/live/send.go:281-313 | a loss list marks exactly the packets held that it covers, in place, and changes no other |
| `SenderExact.StepCounts` | congestion/live/send.go:120-313 | every step counts, in packets and bytes, what it did: what was handed over, as first transmission or retransmission by its cause; what left by age, as dropped and lost; what is held; what waits after a write |
| `SenderTheorems.RunSafe` | congestion/live/send.go:120-313 | for every run with writes in order of time: everything held or sent is what the application wrote under that number, with the low 32 bits of its time of writing as timestamp and that time as sending time, except that a number 1 modulo 16 has that of the number before; and the invariant holds |
| `SenderTheorems.FirstTransmissionsInSequence` | congestion/live/send.go:166-197 | for every run: the first transmissions are the numbers from the initial one on, each once, without gap |
| `SenderTheorems.RunBalanced` | congestion/live/send.go:120-313 | for every run, in packets and bytes: sent = unique + retransmitted, loss = dropped + retransmitted, and written = sent as unique + still waiting |
| `Sender.LiveSender.constructor` | congestion/live/send.go:61-87 | a new sender is the initial state of the runs |
| `Sender.LiveSender.Push` | congestion/live/send.go:120-162 | numbering, timestamp, probe pairing by the low four bits and statistics are those of the step over integers |
| `Sender.LiveSender.SendDue` | congestion/live/send.go:166-197 | packets sent and moved to the loss list are those of the step over integers |
| `Sender.LiveSender.DropOld` | congestion/live/send.go:199-227 | what is dropped and counted is that of the step over integers |
| `Sender.LiveSender.ACK` | congestion/live/send.go:250-279 | what is released is that of the step over integers |
| `Sender.LiveSender.NAK` | congestion/live/send.go:281-313 | the double loop over loss list and ranges retransmits, marks and counts as the step over integers |
| `Tsbpd.TimeBase.PktTsbpdTime` | connection.go:697-718 | when a wrap period begins and ends, the offset it adds, and the delivery time of a data packet |
| `Tsbpd.StepTracks` | connection.go:697-718 | a packet within 30 seconds of the newest one gets its true sending time back and the time base keeps following the newest one |
| `Tsbpd.RunTracks` | connection.go:697-718 | over any number of wraps, every sending time of a paced sequence of packets is restored |
| `Tsbpd.PaceIsTight` | connection.go:697-718 | sequences paced by a slack are always restored if and only if the slack is at most 30 seconds |
| `SessionSafe.StepInv` | connection.go:634-742 | every enabled step of writer, sender, network or receiver keeps the invariant that ties both ends together |
| `SessionSafe.ArrivalFaithful` | connection.go:697-742 | a data packet reaching the receiver, however late or often, carries what was written under its number, due at its writing time plus latency |
| `SessionSafe.DeliverySafe` | congestion/live/receive.go:374-414 | end to end, for every behaviour with numbers in the window: what is delivered is strictly increasing in number, was written under that number by the other side's application, and is not delivered before writing time plus latency |
| `SessionSafe.ReadingSafe` | connection.go:418-440 | in every behaviour, with a read queue that drops what does not fit: what the application has read is strictly increasing in number and as written, reading never failed and does not fail next, and as long as the queue was never full all that was delivered is read or waiting |
| `SessionSafe.EnqueueExactly` | connection.go:621-629 | of the packets delivered as many are queued, in order, as there is room for among 1024, and the rest are not |
| `Link.Pair.Drive` | connection.go:634-742 | for every behaviour of a session the classes on 31-bit numbers go through its states, with every precondition met, and the packets they deliver and return to the reader are those written, in order of number, due at writing time plus latency |
| `Link.Pair.NakArrives` | connection.go:808-830 | the bytes of a loss list, decoded and handed to the sender, make it take the step of the session |
| `Link.Pair.DataArrives` | connection.go:697-742 | a packet from the wire, with its time restored, makes the receiver take the step of the session, and the loss list it reports goes onto the wire as bytes |
| `Link.Pair.Deliver` | connection.go:621-629 | the packets delivered are queued in order as far as there is room |
| `SessionSafe.NothingAskedForIsGone` | congestion/live/send.go:199-313 | in every behaviour with numbers in the window, a packet sent and not acknowledged whose sending time plus the drop threshold lies after every time of looking for old packets is still held for retransmission, whatever acknowledgements arrive |
| `SessionLive.BehaviourLive` | congestion/live/receive.go:260-323 | in every behaviour, each number at or below the last acknowledged one that was neither delivered nor is held was due by the latest time of looking for an ACK |
| `SessionLive.ArrivalKeptExactly` | congestion/live/receive.go:185-249 | an arriving packet is held or delivered from then on if and only if it was before or is above the last acknowledged number |
| `SessionLive.DeliveredInTime` | congestion/live/receive.go:365-414 | in every behaviour, a packet that arrives while not due at any time the receiver looked for an ACK is delivered by the first Tick that acknowledges and delivers once it is due, whatever else was lost, late or repeated |
| `Reader.PacketReader.ReadPacket` | connection.go:418-440 | an older packet than expected is an error, and the expected number becomes that of the packet plus one unless it is older |
| `LossList.Marshal` | packet/packet.go:1341-1375 | the loop writes the specified words, an odd list is an error |
| `LossList.WrittenFits` | packet/packet.go:1341-1375 | what is written is whole words within one packet, and stops early only when that is full |
| `Layout.RangeLayout` | packet/packet.go:1341-1375 | a range of one number is written as that number, another as its first number with the top bit set and its last one |
| `Layout.LossListLayout` | packet/packet.go:1341-1375 | the ranges are written one after the other |
| `Layout.LossListExample` | packet/packet_test.go:530-545 | the bytes expected of a loss list |
| `LossList.Unmarshal` | packet/packet.go:1303-1339 | all error cases; otherwise the numbers read are returned rearranged, in order if the comparison is transitive on them, which is all that is used of sorting |
| `LossList.AnySortAgrees` | packet/packet.go:1336 | a list has at most one rearrangement in order, so where one exists every sorting algorithm gives the same |
| `LossList.LossListArrivesExactly` | packet/packet.go:1303-1375 | of ranges in a window those that fit into the packet come out of encoding and decoding as they went in if and only if each ends before the next one begins, whatever the sorting algorithm |
| `LossList.LossListArrives` | packet/packet.go:1303-1375 | so the separate ranges a receiver reports always arrive |
| `LossList.NestedRangesAreScrambled` | packet/packet.go:1336 | of any two nested ranges two others are made, from start to start and from end to end |
| `LossReport.GapsAreResent` | connection.go:1191-1213 | whatever Unmarshal makes of the marshalled gaps is their part that fits, and the sender answers with exactly the packets it holds of them, each once and newest first, and none the receiver has |
| `LossReport.ReportLosses` | connection.go:808-830 | the same of the classes: the receiver's list through the codec into the sender, and the packets it hands to the network |
| `Listener.ConnTable.NewRequest` | conn_request.go:268-294 | a peer already known is ignored; otherwise the peer and a free socket id are reserved, or the peer alone when no id is found |
| `Listener.ConnTable.GenerateSocketId` | conn_request.go:378-392 | the loop over at most ten draws yields the id that FreeIdExactly describes |
| `Listener.FreeIdExactly` | conn_request.go:378-392 | an id is chosen exactly if it is a draw that is not taken while all draws before it were taken ids; there is none exactly if every draw that is not taken comes after a failure of the random source |
| `Listener.ConnTable.RejectRequest` | conn_request.go:351-375 | both entries go if the peer's entry is still a reservation |
| `Listener.ConnTable.AcceptRequest` | conn_request.go:394-487 | both entries become the connection, unless the request is gone or an encrypted one has no passphrase |
| `Listener.AlwaysMatched` | conn_request.go:268-487 | in every run where requests are resolved once and connections close once, the two tables match: every pending request has its two reservations, every open connection its two entries, and no id is held by anything else |
| `Listener.NoSharing` | listen.go:365-370 | so no two connections or requests share an id, and closing one leaves all entries of the others |
| `Listener.SecondRejectExactly` | conn_request.go:351-375 | rejecting a resolved request again keeps the tables matched if and only if its peer is not reserved, or is reserved for no request while its socket id is free |
| `Listener.SecondAcceptExactly` | conn_request.go:394-487 | the same condition is exact for accepting it again |
| `Listener.SecondResolutionHarms` | conn_request.go:351-487 | a run of asking, being rejected and asking again after which either resolution of the first request breaks the tables |
| `Listener.OrphanExactly` | conn_request.go:268-294 | in every run, a peer is in the table without a request or connection if and only if an earlier request of it found no socket id |
| `Listener.AllOwnedExactly` | conn_request.go:268-294 | so every entry of both tables has an owner if and only if no earlier request found none |
| `Listener.ReservationIsLost` | conn_request.go:268-294 | a run in which a peer draws ten taken ids, stays reserved, and is ignored when it asks again |
| `Crypto.KeyMaterialArrives` | crypto/crypto.go:119-222 | key material wrapped by one side and unwrapped by the other puts salt and key into the slot it names and leaves the other slot alone; both keys make the boxes equal |
| `Crypto.KeyMaterialHolds` | crypto/crypto.go:166-222 | the message names the slot, carries the salt, and unwraps to the even key, the odd key, or the even and then the odd key |
| `Crypto.KekExactly` | crypto/crypto.go:277-280 | two boxes have the same key encrypting key under every derivation if and only if they agree in key length and in the last eight bytes of the salt |
| `Crypto.CounterLayout` | crypto/crypto.go:241-251 | the counter block is the salt with the sequence number combined into bytes 10 to 13, most significant first, and ends in two zero bytes |
| `Crypto.RefusedKeyMaterialExactly` | crypto/crypto.go:119-164 | refused key material leaves the box unchanged if and only if it was refused before its salt was copied or brought the same salt; the keys are never touched |
| `Crypto.RefusedKeyMaterialHarms` | crypto/crypto.go:119-164 | a refused message that changes the salt |
| `Crypto.CountersNeverMeet` | crypto/crypto.go:241-251 | under one salt the counter blocks of two packets with different sequence numbers and at most 2^16 blocks each are all different |
| `Crypto.XorTwice` | crypto/crypto.go:224-274 | the same key stream applied twice gives the payload back |
| `Crypto.PayloadCipher.EncryptOrDecryptPayload` | crypto/crypto.go:224-274 | in place, the payload is combined with the key stream of the slot and the sequence number; a wrong salt length, key flag or key length is an error that leaves it alone |
| `Crypto.XorSalt` | crypto/crypto.go:245-251 | the first fourteen bytes of the counter block are combined with the salt, the last two stay |
| `KeyRefresh.RefreshMachine.constructor` | connection.go:273-274 | the countdowns a connection starts with |
| `KeyRefresh.RefreshMachine.PopData` | connection.go:543-577 | key flag, announcement, new key and both countdowns for one data packet, uint64 underflow included |
| `KeyRefresh.CountdownTracks` | connection.go:543-577 | after n packets, whatever was confirmed when, the refresh countdown is rate - n mod rate and the key has been switched n / rate times |
| `KeyRefresh.RateZeroKeepsKey` | connection.go:543-577 | a rate of 0, which validation lets pass, announces nothing and keeps the even key for all packets until the 64-bit countdowns wrap |
| `KeyRefresh.OutsScheduled` | connection.go:543-577 | for every run with the announcement period below half the rate: packet i goes out under the key of cycle i / rate, and every announcement comes at the end of a cycle with the key of the next one |
| `KeyRefresh.ScheduledExactly` | config.go:675-679 | of the configurations that pass validation exactly those with the period strictly below half the rate have that property in all runs |
| `KeyRefresh.StaleAnnouncement` | config.go:675-679 | for each configuration at exactly half, a run with an announcement of the wrong key |
| `KeyRefresh.AnnouncementsPerCycle` | connection.go:551-559 | an unanswered cycle makes p / (p / 10 + 1) + 1 announcements for period p, between two and ten |
| `KeyAnnounce.AnnouncesExactly` | connection.go:543-577 | in every run with responses at any time, a packet carries an announcement if and only if it is the one where announcing begins or a whole number of repetition periods after it, and no response that counts has come in this cycle |
| `KeyAnnounce.SilentUntilSwitch` | connection.go:1158-1165 | once a response counted, no packet up to the switch carries an announcement, whatever else comes |
| `KeyAnnounce.AnnouncingStartsAgain` | connection.go:551-559 | in every cycle in which no response has counted, the packet where announcing begins carries an announcement |
| `KeyAnnounce.EarlyResponseSilences` | connection.go:1158-1165 | for every configuration announcing for at least two packets, a run with a response before announcing begins, after which the cycle stays silent |
| `KeyExchange.PeerMachine.KMRequest` | connection.go:1041-1114 | an announcement of the key in use, or one that does not unwrap, is not confirmed; another installs the key and flips the expected one |
| `KeyExchange.RequestTakenExactly` | connection.go:1081-1102 | the key in use flips if and only if the request names the other one and unwraps; a refused request leaves both keys, and leaves the peer unchanged if and only if it was refused before its salt was copied or brought the same salt |
| `KeyExchange.ToldInStep` | connection.go:1041-1114 | in every reachable state, an announcement that arrives is taken exactly if the peer is in phase and has not heard of that key; its two slots then hold the keys that the history of cycles heard says |
| `KeyExchange.AlwaysInv` | connection.go:722-738 | in every run, with any announcements lost, each packet was encrypted with the key of its cycle and decrypted with the one the peer's history says |
| `KeyExchange.PayloadArrivesExactly` | connection.go:722-738 | in a given run, a payload sent as packet j and received as packet k, itself or as a retransmission, is understood if and only if the sender's key stream for j is the peer's for k |
| `KeyLoss.ReadableExactly` | connection.go:543-577 | for any configuration, any set of cycles of which an announcement arrived and any two packets: the payload is understood in every run, for every cipher and key, if and only if the cycle whose key the peer uses is that of the first transmission |
| `KeyLoss.UnreadableRun` | connection.go:543-577 | otherwise there is a run with exactly these cycles heard in which the payload comes out wrong |
| `KeyLoss.FirstTransmissionsExactly` | connection.go:1041-1114 | first transmissions of a cycle are always understood if and only if it is the first cycle or the peer accepted its key in the cycle before |
| `KeyLoss.MissedCycleCostsTwo` | connection.go:1041-1114 | for a peer in phase that misses all announcements of a cycle, the next two are not sure to be read, whatever it hears: some run comes out wrong; the third is sure to be read if and only if it hears of its key |
| `KeyLoss.FirstTransmissionsDecrypt` | connection.go:722-738 | if of every cycle one announcement arrives, every first transmission decrypts to what was sent, over any number of key switches |
| `KeyLoss.RetransmissionsDecryptInCycleOnly` | connection.go:543-577 | with all keys heard of, retransmitting packet j as packet k decrypts in every run if and only if both fall into the same key cycle |
| `KeyReorder.LateExactly` | connection.go:722-738 | in a given run, a payload sent as packet j and carried by packet k is understood, whenever k arrives, if and only if the sender's key stream for j is that of the slot k names at that moment |
| `KeyReorder.LateReadableExactly` | connection.go:722-738 | for any configuration, cycles heard, two packets and moment of arrival: understood in every run, for every cipher and key, if and only if the slot holds the key of the cycle of the first transmission |
| `KeyReorder.LateUntilReplaced` | connection.go:722-738 | with all keys heard of, a late packet of cycle q is always understood if and only if the peer has not yet taken over the key of cycle q + 2 |
| `Header.ParsePrint` | packet/packet.go:370-442 | every datagram of at least sixteen bytes parses, and writing the result gives the same bytes |
| `Header.PrintParseExactly` | packet/packet.go:370-442 | a packet comes back from writing and parsing if and only if its header fits the format: control type below 2^15, or a sequence number of the right range, two-bit position and key, and a 26-bit message number |
| `Layout.HeaderTail` | packet/packet.go:399-442 | sixteen bytes of header and then the payload; the timestamp stands at byte 8, the destination at 12 |
| `Layout.ControlLayout` | packet/packet.go:410-415 | a control header: top bit and type, subtype, type-specific word, each at its place |
| `Layout.DataLayout` | packet/packet.go:416-433 | a data header: sequence number, then position, order, key, retransmission flag and message number, each in its bits of the second word |
| `Layout.DataExample` | packet/packet_test.go:30-43 | the header bytes expected of a data packet |
| `Layout.ControlExample` | packet/packet_test.go:45-61 | the bytes expected of a control packet |
| `Handshake.HSRoundTrip` | packet/packet.go:895-967 | the SRT extension comes back, all eight flags included |
| `Handshake.KMRoundTrip` | packet/packet.go:1025-1166 | the key material extension comes back, whatever follows it |
| `Handshake.KMAcceptsExactly` | packet/packet.go:1025-1118 | key material, other than a four-byte error, is accepted if and only if it begins with a valid record as written |
| `Handshake.ExtensionRefusedExactly` | packet/packet.go:602-699 | which extensions are refused, by type, size and key length; unknown types are skipped |
| `Handshake.NameRoundTrip` | packet/packet.go:791-817 | padding and swapping a name in four-byte words, swapping again and trimming gives the name back |
| `Handshake.SwapWords` | packet/packet.go:659-664 | the loop reverses each word |
| `Handshake.ReadExtensions` | packet/packet.go:602-705 | the loop over extensions yields the specified record or error for every input |
| `Handshake.WholeWordsNeverRunOver` | packet/packet.go:602-705 | on extensions of whole words, whatever they hold, the loop never reads past its input |
| `Handshake.ConclusionRoundTrip` | packet/packet.go:558-846 | a version 5 CONCLUSION, with any combination of its four extensions, comes back with the fields that Marshal fills in and without a "live" congestion name |
| `Handshake.UnchangedExactly` | packet/packet.go:558-846 | and it comes back unchanged if and only if those fields were right already, it is a response, and no "live" congestion control is named |
| `Layout.HandshakeLayout` | packet/packet.go:744-753 | each fixed field of a handshake stands at its place in the first 48 bytes |
| `Layout.ExtensionLayout` | packet/packet.go:918-967 | version, delays and each of the eight flags at its place and bit |
| `Layout.KeyMaterialLayout` | packet/packet.go:1120-1166 | the constant bytes, each field, lengths in words, then salt and wrapped key |
| `Layout.TlvLayout` | packet/packet.go:757-789 | type, length in words, body |
| `Layout.ExtensionsLayout` | packet/packet.go:707-846 | after the fixed part come the SRT, key material, stream id and congestion extensions, in this order, each with its type for request or response and only if present |
| `Layout.NameLayout` | packet/packet.go:791-817 | byte r of a word of a name is byte 3 - r of that word of the text, zero past its end |
| `Layout.FixedPartOnly` | packet/packet.go:558-601 | fewer than 48 bytes are refused; anything but a CONCLUSION with extensions is read from the first 48 alone; an unknown encryption field refuses one with extensions |

## Left out

- UDP, channels, goroutines and locks: a step is what the source does under one lock, and Session interleaves such steps freely.
- AES, AES key wrap, PBKDF2 and the random source: parameters of the model, of which only lengths and unwrap-after-wrap are used.
- Numbers outside the window: nothing is claimed of a session in which an arriving number, ACK or loss list is 2^30 - 1 or more away from what it is compared with.
- Sender.LiveSender.ACK: requires that window of the packets held; the guarantees of a session imply it.
- Sender.LiveSender.NAK: likewise.
- Receiver.LiveReceiver.Push: the payload-size average, link-capacity probe, rates and the ByteLoss and MsBuf figures are not modelled, because they are floating-point statistics nothing else reads.
- Receiver.LiveReceiver.PeriodicACK: MsBuf, a figure for display, is not modelled.
- Receiver.LiveReceiver.Tick: the rate section at its end is not modelled, for the same reason.
- Sender.LiveSender.SendDue: rate and average-size statistics are not modelled, for the same reason; the same holds of DropOld, ACK and NAK.
- Flush, Stats, String and the guard against nil packets: they would only add easy members.
- 64-bit overflow of times in microseconds and of counters: times and counters are unbounded, except the two key-refresh countdowns.
- Restamping, drift correction and the round-trip estimate: the drift of the time base is a field that stays zero; intervals are parameters.
- Connections without encryption: PopData is the encrypted branch of pop.
- KeyExchange.PeerMachine.KMRequest: a connection that is not encrypted and the version 4 key exchange are not modelled, because the peer always has a cipher here.
- Encryption inside a session: the key modules have their own network, in which announcements are lost in any way and data packets arrive late and in any order; Session carries payloads in the clear.
- Version 4 handshakes over control packets, SYN cookies, the dialer, rendezvous and rejection responses.
- Handshake.ConclusionRoundTrip: for the fields as the two sides set them (at most 512 bytes of stream id, a congestion name of at most 4 bytes, no trailing zero bytes); the peer address is sixteen opaque bytes.
- Handshake.ReadExtensions: one to three bytes left over are an error in the model, where the source indexes past the end of its slice; that cannot happen on whole words.
- ACK packets' contents, the packet filter, statistics, configuration parsing, logging, PubSub, the server and the command-line tools.

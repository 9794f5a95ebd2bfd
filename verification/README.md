# AES Bridge, verified

AES Bridge carries 1 ms audio packets between RTP streams and Core Audio through lock-free
structures, follows a PTP master clock, and keeps a directory of the sessions it hears
announced. This project models those parts in Dafny and proves what they promise.

`dafny verify dfyconfig.toml` checks everything.

## How it is laid out

| Part | Modules |
|---|---|
| Arithmetic and byte order | `Common`, `Modular`, `Bytes` |
| Jitter buffer, its two loops | `JitterBuffers` (the object and its sequential meaning), `JitterProtocol`, `JitterInvariant`, `JitterRuns` (every interleaving of atomic accesses), `JitterCalls` (an undisturbed call does what the sequential function says), `JitterOrder` (windows and rounds), `JitterDrain` (emptying after any run), `ReceiveLoop` (sources and resets: what never happens), `ReceiveProgress` (what does) |
| The two rings | `BoundedQueue`, `SharedAudioRings`, `SpscRings`, `RingProtocol` |
| Session directory | `SessionSlot` (the sequence lock of one slot), `Sessions`, `SessionDirectories`, `DirectoryMap` |
| Clock client | `PtpCodec`, `PtpMath`, `PtpClients`, `PtpMaster`, `PtpLock` (what a lock means), `PtpProgress` (that it is reached and kept) |
| Announcements | `Text`, `IPv4`, `SDP`, `SdpLines`, `SdpRoundTrip`, `SAP`, `Discovery` |
| Configuration | `Configurations`, `Arguments`, `Banks`, `PublishedFlows` (the flows as their announcements show them) |
| Audio | `L24`, `RTP`, `AudioPath`, `TransmitGrid` |

Concurrent code is a state machine. One step is one atomic access of one thread, a run is
any sequence of steps, and the statements hold after every run. Each atomic access is
sequentially consistent. Histories (accepted packets, completed upserts, accepted
measurements) are fields of the machine that no step reads. Where the source has an object
with fields, the model has a class, and the contract of each method ties its new state to a
function of the old one; the lemmas are about those functions.

Times are integers in nanoseconds. Clocks, arriving datagrams, failed sends and thread
schedules are arbitrary inputs. C++ division truncates (`Common.TruncDiv`); C++ integers
wrap where the code lets them.

## Where the code falls short of the obvious statement

Each of these is proved as an equivalence, so the condition is exact; where a caller can
meet the failing side, a lemma constructs such a run or configuration.

- A slot snapshot is sound under every schedule exactly when the slot's revision starts
  even (`SessionSlot.SoundIffEven`). Engine start only clears `active`, so a writer that
  died inside a write leaves the lock inside out for the next process.
- Directory keys stay unique exactly when the origin text fits its sixteen cells
  (`DirectoryMap.UniqueIffOriginFits`): the code compares the clipped text it stored with
  the whole text it is given. A session announced under a host name of sixteen characters
  is listed twice after two announcements (`Discovery.StageboxIsListedTwice`), and an
  engine's own banks are listed whole exactly when its interface address is written in at
  most fifteen characters (`Discovery.AnnouncementIsListed`).
- Printing and parsing a session gives it back exactly when it is well formed
  (`SdpRoundTrip.RoundTripIffWellFormed`).
- A 24-bit code survives decoding and encoding exactly outside the open interval from
  -8388608 to -4194304, where it moves up by one (`L24.RecodeIsExact`).
- A pending delay request keeps its own send time exactly until a send with a different
  time fails while it is pending (`PtpLock.TickIsTimedIff`, `PtpLock.RequestsAreTimed`): the
  code then keeps the old sequence number with the new time. One unanswered request and
  one failed send 250 ms later are enough (`PtpLock.FailedSendMistimes`).
- Bank addresses are those of the flows exactly when the first address is multicast or
  there is one bank (`Arguments.AddressesFollow`). Two diagnostic flows at 127.0.0.1 and
  127.0.0.2 are accepted and both played at the first (`Arguments.LoopbackIsNotShifted`).

## Model

| member | source | states |
|---|---|---|
| `JitterBuffers.JitterBuffer.constructor` | Sources/Core/JitterBuffer.hpp:18-19 | a new buffer is empty and not started, with its target clamped to 2..SlotCount-1 |
| `JitterBuffers.JitterBuffer.Push` | Sources/Core/JitterBuffer.hpp:21-42 | the whole new buffer and the result, for every old buffer, sequence and payload, oversized and occupied included |
| `JitterBuffers.JitterBuffer.Pop` | Sources/Core/JitterBuffer.hpp:44-62 | the bytes, length and sequence handed out and the whole new buffer, including the stale slot that is emptied and reported as nothing |
| `JitterBuffers.JitterBuffer.SkipMissing` | Sources/Core/JitterBuffer.hpp:64-69 | a started buffer moves its window by one and counts one loss; any other buffer is unchanged |
| `JitterBuffers.JitterBuffer.Reset` | Sources/Core/JitterBuffer.hpp:75-78 | every slot is free and the window is not started |
| `JitterInvariant.StepKeepsInv` | Sources/Core/JitterBuffer.hpp:21-69 | every atomic step of either thread keeps ownership, contents, accounting, counts, window and order |
| `JitterRuns.FreshInv` | Sources/Core/JitterBuffer.hpp:75-92 | a new or just reset buffer satisfies the invariant whatever bytes its slots hold |
| `JitterRuns.DeliveriesAreAcceptedPackets` | Sources/Core/JitterBuffer.hpp:21-62 | after every run each delivery is one accepted packet, payload and sequence whole, no packet is delivered twice, and positions only increase across the 16-bit wrap |
| `JitterRuns.Conservation` | Sources/Core/JitterBuffer.hpp:28-40 | after every run the shared counter is the ready slots corrected by both threads' pending updates modulo 2^64, and accepted = delivered + discarded + ready + held |
| `JitterRuns.WindowBalance` | Sources/Core/JitterBuffer.hpp:33-69 | once started, the window began at the first accepted packet, and between consumer operations it has moved by deliveries plus losses modulo 2^16 |
| `JitterRuns.OnlyTheOwnerTouchesASlot` | Sources/Core/JitterBuffer.hpp:25-58 | a slot being written or read is changed by its owner alone; the consumer never changes bytes |
| `JitterCalls.PushAlone` | Sources/Core/JitterBuffer.hpp:21-42 | once a packet is offered, the producer's own steps end in the state and result of the sequential push |
| `JitterCalls.ConsumeAlone` | Sources/Engine/LiveEngine.cpp:257-261 | an uninterrupted pop-or-skip round ends in the state and delivery of the sequential function |
| `JitterOrder.ReachableIsQuiet` | Sources/Core/JitterBuffer.hpp:88-96 | with both threads between operations every reachable buffer counts exactly its ready slots |
| `JitterOrder.Drain` | Sources/Engine/LiveEngine.cpp:257-261 | any started buffer between operations, stale packets included, is empty after SlotCount rounds without pushes |
| `JitterDrain.EveryRoundFinishes` | Sources/Engine/LiveEngine.cpp:257-261 | wherever a run left the consumer, its own steps bring it to the end of its round |
| `JitterDrain.ConsumerDrains` | Sources/Engine/LiveEngine.cpp:257-261 | from every reachable started machine whose producer rests the consumer's steps alone end its round and then, in SlotCount rounds, leave no packet counted and every slot free |
| `JitterOrder.PushWindow` | Sources/Core/JitterBuffer.hpp:21-42 | distinct sequences within one SlotCount window, lowest first and then in any order, are all accepted, and the buffer then holds exactly them |
| `JitterOrder.ConsumeWindow` | Sources/Engine/LiveEngine.cpp:257-261 | the consume rule hands out the window in increasing order and counts a loss per gap |
| `JitterOrder.WindowDelivered` | Sources/Core/JitterBuffer.hpp:21-69 | pushing such a window and consuming it delivers all its packets in order across the 16-bit wrap, and `lost` grows by exactly the gaps |
| `JitterOrder.ListingIsTheWindow` | Sources/Core/JitterBuffer.hpp:21-69 | the delivered list holds every packet of the window once, sequence numbers increasing from the base modulo 2^16 |
| `JitterOrder.GapsExact` | Sources/Core/JitterBuffer.hpp:64-69 | the losses counted are the offsets up to the highest one present that no packet had |
| `JitterOrder.PushesAddUp` | Sources/Core/JitterBuffer.hpp:21-42 | any packets pushed one after the other are each counted once, as buffered or as dropped |
| `JitterOrder.ResetIsUnused` | Sources/Core/JitterBuffer.hpp:75-78 | a reset gives back an empty, unstarted buffer with all counters at zero and the same sizes and target |
| `ReceiveLoop.StepKeepsSource` | Sources/Engine/LiveEngine.cpp:214-233 | every event keeps the packets accepted since the last reset on one source per socket |
| `ReceiveLoop.OneSourceBetweenResets` | Sources/Engine/LiveEngine.cpp:197-261 | all packets delivered between two resets from one receive socket carry one SSRC, for every order of arrivals, silences, reopenings and steps |
| `ReceiveLoop.ResetMeetsNoPush` | Sources/Engine/LiveEngine.cpp:216-226 | while a reset is requested no push is in progress |
| `ReceiveProgress.PacketIsTaken` | Sources/Engine/LiveEngine.cpp:214-233 | with no reset outstanding, no other source followed and no two silent seconds before it, an arriving packet goes through the push: the loop's own moves end in its buffer, with the packet accepted exactly when the push accepts it, and only then its source is followed |
| `ReceiveProgress.ChangeAsksForReset` | Sources/Engine/LiveEngine.cpp:214-224 | a packet after two silent seconds or of another source asks for a reset, is dropped, and is the source from then on |
| `ReceiveProgress.NewSourceIsTaken` | Sources/Engine/LiveEngine.cpp:216-249 | after that the rest of the consumer's round and one look at the request are enough: the next packet of the new source is accepted as the only one in the buffer |
| `ReceiveProgress.ReopenForgets` | Sources/Engine/LiveEngine.cpp:191-199 | a reopened socket follows no source and knows of no silence |
| `ReceiveProgress.MovesKeepSource` | Sources/Engine/LiveEngine.cpp:226-233 | a push that accepts nothing leaves the source as it was |
| `SharedAudioRings.SharedAudioRing.Write` | Sources/Core/SharedAudioRing.cpp:6-14 | appends as much as fits to the queue the cells stand for, across the 64-bit wrap of the index |
| `SharedAudioRings.SharedAudioRing.Read` | Sources/Core/SharedAudioRing.cpp:16-23 | hands out and removes the front of the queue, and leaves the rest of the destination alone |
| `SharedAudioRings.SharedAudioRing.Available` | Sources/Core/SharedAudioRing.cpp:25-27 | the length of the queue |
| `SharedAudioRings.CellShift` | Sources/Core/SharedAudioRing.cpp:11-18 | cells stay consecutive where the free-running index wraps, because 8192 divides 2^64 |
| `SharedAudioRings.CellsDiffer` | Sources/Core/SharedAudioRing.cpp:11-18 | elements less than a capacity apart never share a cell |
| `SpscRings.SPSCRingBuffer.Write` | Sources/Core/SPSCRingBuffer.hpp:18-25 | appends as much as fits with one cell kept free |
| `SpscRings.SPSCRingBuffer.Read` | Sources/Core/SPSCRingBuffer.hpp:27-34 | hands out and removes the front of the queue |
| `SpscRings.SPSCRingBuffer.Available` | Sources/Core/SPSCRingBuffer.hpp:36-44 | the length of the queue |
| `BoundedQueue.Room` | Sources/Core/SharedAudioRing.cpp:6-14 | a write takes in everything offered or fills the ring, and never more |
| `RingProtocol.StepRefinesQueue` | Sources/Core/SPSCRingBuffer.hpp:18-34 | each atomic step of either ring is a step of one bounded queue: publishing appends or removes, every other step, copying from a stale index included, leaves it alone |
| `RingProtocol.CountsFromTheQueue` | Sources/Core/SharedAudioRing.cpp:6-19 | the count an operation settles on is what the queue allows when it loads the other index, however far both have wrapped |
| `RingProtocol.FirstInFirstOut` | Sources/Core/SharedAudioRing.cpp:6-23 | under every schedule what was read is a prefix of what was written, at most the capacity is outstanding, and every unread element is in its cell |
| `RingProtocol.WriteAlone` | Sources/Core/SharedAudioRing.cpp:6-14 | from every reachable ring a write that runs alone puts as much as fits behind the queue, as the sequential method does |
| `RingProtocol.ReadAlone` | Sources/Core/SharedAudioRing.cpp:16-23 | a read that runs alone takes the front of the queue, as much of it as is wanted |
| `SessionSlot.StepKeepsInv` | Sources/Core/SessionDirectory.cpp:31-65 | every access keeps what a reader has seen consistent with the record of its revision |
| `SessionSlot.SnapshotIsOneRecord` | Sources/Core/SessionDirectory.cpp:31-55 | from an even revision every returned snapshot is the whole record of one completed upsert, for every interleaving |
| `SessionSlot.TornFromOddRevision` | Sources/Core/SessionDirectory.cpp:31-65 | from any odd revision there is a schedule whose snapshot mixes two records, given as a run |
| `SessionSlot.SoundIffEven` | Sources/Core/SessionDirectory.cpp:31-65 | snapshots are sound under every schedule if and only if the revision starts even |
| `SessionSlot.ReadAlone` | Sources/Core/SessionDirectory.cpp:31-55 | with no write open a reader obtains the record stored last at its first attempt |
| `SessionSlot.FourTries` | Sources/Core/SessionDirectory.cpp:32-34 | while a write stays open a reader gives up after exactly four attempts |
| `SessionSlot.EraseAlone` | Sources/Core/SessionDirectory.cpp:57-65 | an erase leaves the slot inactive, its revision two higher and its cells alone |
| `SessionDirectories.StoreText` | Sources/Core/SessionDirectory.cpp:12-17 | the cells are the text, cut to one less than the capacity, and then NULs to the end; they read back as the text up to its first NUL |
| `SessionDirectories.LoadText` | Sources/Core/SessionDirectory.cpp:19-29 | the text before the first NUL cell |
| `SessionDirectories.SnapshotSlot` | Sources/Core/SessionDirectory.cpp:31-55 | a slot at rest yields its record when its revision is even and it is active, and nothing otherwise |
| `SessionDirectories.TwoBumps` | Sources/Core/SessionDirectory.cpp:57-65 | a whole write keeps the parity of the revision across the 32-bit wrap |
| `SessionDirectories.SessionDirectory.FindTarget` | Sources/Core/SessionDirectory.cpp:70-88 | the slot that holds the key, else the first free one, else the first of least `lastSeen`, whatever the times |
| `SessionDirectories.SessionDirectory.Upsert` | Sources/Core/SessionDirectory.cpp:68-103 | exactly that slot changes, to the record of the session |
| `SessionDirectories.SessionDirectory.Erase` | Sources/Core/SessionDirectory.cpp:105-113 | exactly the slots with the key become free |
| `SessionDirectories.SessionDirectory.Expire` | Sources/Core/SessionDirectory.cpp:115-122 | exactly the slots last seen before the limit become free |
| `SessionDirectories.SessionDirectory.Snapshots` | Sources/Core/SessionDirectory.cpp:124-136 | a permutation of the records present, in the order of name and origin |
| `SessionDirectories.BeforeOrder` | Sources/Core/SessionDirectory.cpp:131-134 | the comparator is asymmetric and its incomparability is transitive, as sorting needs |
| `SessionDirectories.TextBeforeIff` | Sources/Core/SessionDirectory.cpp:131-134 | a text sorts before another exactly when it is a proper beginning of it or smaller at the first difference |
| `SessionDirectories.ListingRises` | Sources/Core/SessionDirectory.cpp:131-134 | the listing rises by name, and by origin within a name |
| `DirectoryMap.TargetExists` | Sources/Core/SessionDirectory.cpp:70-88 | every upsert has exactly one slot to write |
| `DirectoryMap.UpsertRefinesMap` | Sources/Core/SessionDirectory.cpp:68-103 | on the map: update or add, and evict a least recently seen entry only when the key is new and all sixteen entries are taken |
| `DirectoryMap.WithoutRefinesMap` | Sources/Core/SessionDirectory.cpp:105-113 | erasing removes exactly the key from the map |
| `DirectoryMap.YoungerRefinesMap` | Sources/Core/SessionDirectory.cpp:115-122 | expiring keeps exactly the entries seen since the limit |
| `DirectoryMap.PresentIsTheMap` | Sources/Core/SessionDirectory.cpp:124-130 | the listing holds every entry of the map exactly once |
| `DirectoryMap.DirectoryIsAMap` | Sources/Core/SessionDirectory.cpp:68-122 | along every sequence of calls with fitting origins keys stay unique, at most sixteen entries exist and each call moves the map as specified |
| `DirectoryMap.UniqueIffOriginFits` | Sources/Core/SessionDirectory.cpp:79-101 | upserts of a session keep every table's keys unique if and only if its origin fits its cells |
| `DirectoryMap.ReachableIsClipped` | Sources/Core/SessionDirectory.cpp:12-122 | along every sequence of calls from an empty block, fitting origins or not, stored origins are at most fifteen characters without a NUL |
| `DirectoryMap.ListedTwiceUnlessFits` | Sources/Core/SessionDirectory.cpp:68-130 | one session upserted twice into an empty directory is listed once if and only if its origin fits, and otherwise twice under one key |
| `DirectoryMap.FieldsKeptIff` | Sources/Core/SessionDirectory.cpp:12-29 | a name comes back whole exactly when it has at most 95 characters and no NUL, an address when it has at most 15 and none; the numbers always do |
| `PtpCodec.PutTimestamp` | Sources/Core/PTP.cpp:44-57 | the written field reads back as the time, negative times as zero, and no other byte changes |
| `PtpCodec.PutHeader` | Sources/Core/PTP.cpp:68-82 | every header field stands where the reader looks for it, the control and interval bytes are set, and no other byte changes |
| `PtpCodec.HeaderReadsBack` | Sources/Core/PTP.cpp:85-108 | the reader recovers kind, length, domain, flag, correction, source and sequence from a written header |
| `PtpCodec.EncodeTimestampMessage` | Sources/Core/PTP.cpp:139-146 | decoding the bytes gives back every field of the Sync, Delay_Req or Follow_Up; the type, control and interval bytes follow the kind |
| `PtpCodec.EncodeDelayResponse` | Sources/Core/PTP.cpp:148-157 | decoding the bytes gives back every field, the requesting port included; the control and interval bytes are those of a Delay_Resp |
| `PtpCodec.EncodeAnnounce` | Sources/Core/PTP.cpp:159-170 | decoding the bytes gives an Announce whose grandmaster is its own source; type, quality, control, interval and time source stand in their bytes |
| `PtpCodec.DecodedHasTimestamp` | Sources/Core/PTP.cpp:109-131 | what is decoded carries a timestamp unless it is an Announce, and a requesting port only if it is a Delay_Resp |
| `PtpCodec.AnnounceFields` | Sources/Core/PTP.cpp:102-131 | which byte of any Announce each field is read from |
| `PtpMath.SymmetricPathIsExact` | Sources/Core/PTP.cpp:172-182 | on a symmetric path with whole-nanosecond corrections the exchange yields the true offset and delay, and nothing when the delay is negative |
| `PtpMath.OffsetErrorIsHalfTheAsymmetry` | Sources/Core/PTP.cpp:66-182 | on any path the offset errs by less than half the asymmetry plus 1.5 ns, the delay by less than 1.5 ns |
| `PtpMath.NoOverflow` | Sources/Core/PTP.cpp:172-182 | no intermediate leaves 64 bits while both corrected differences stay below 2^62 |
| `PtpMath.FilterStaysInHull` | Sources/Engine/PTPClient.cpp:193-201 | the filter value lies between the least and greatest sample since its last restart, for every run of samples |
| `PtpMath.FilterFits` | Sources/Engine/PTPClient.cpp:193-198 | offsets below 2^62, as `NoOverflow` gives them, keep the filter below 2^62 along every run, and its subtraction inside 64 bits |
| `PtpMath.FilterWeighs` | Sources/Engine/PTPClient.cpp:193-201 | within 2 ms the filter is seven eighths of its value and one of the sample, rounded toward its value; further off it is the sample |
| `PtpMath.FilterConverges` | Sources/Engine/PTPClient.cpp:193-198 | a constant sample in step brings the filter within 7 ns in at most 126 measurements, where it stays |
| `PtpClients.PTPClient.constructor` | Sources/Engine/PTPClient.cpp:99-111 | the client starts without master, measurements or lock |
| `PtpClients.PTPClient.Process` | Sources/Engine/PTPClient.cpp:120-207 | the whole new state after any datagram: too short, foreign, malformed, or any message |
| `PtpClients.PTPClient.Loop` | Sources/Engine/PTPClient.cpp:209-240 | the whole new state after one pass: two receptions, the request, the timeouts; `PtpProgress` says what that state is |
| `PtpMaster.RankTotal` | Sources/Engine/PTPClient.cpp:34-43 | ranks are strictly and totally ordered |
| `PtpMaster.RankTransitive` | Sources/Engine/PTPClient.cpp:34-43 | the order of ranks is transitive |
| `PtpMaster.TieMeansSameSource` | Sources/Engine/PTPClient.cpp:38-43 | two Announces tie only when they come from the same port |
| `PtpMaster.MasterIsBest` | Sources/Engine/PTPClient.cpp:136-156 | after any run of Announces with fixed ranks and no expiry the master is the source of least rank among those heard |
| `PtpMaster.OrderDoesNotMatter` | Sources/Engine/PTPClient.cpp:136-156 | the same Announces in any order and number choose the same master |
| `PtpMaster.ChangeLowersRank` | Sources/Engine/PTPClient.cpp:136-156 | a change of master without expiry strictly lowers the rank, unlocks and forgets the Sync of the old one |
| `PtpMaster.RankIsFields` | Sources/Engine/PTPClient.cpp:34-43 | one Announce ranks before another exactly when priority1, class, accuracy, variance, priority2, identity, steps, source clock and port compare so, in that order |
| `PtpMaster.NoneIsBetter` | Sources/Engine/PTPClient.cpp:136-156 | after such a run no Announce heard was better in these fields than the master's |
| `PtpMaster.PriorityDecides` | Sources/Engine/PTPClient.cpp:136-156 | of two clocks the one of smaller first priority is master, whichever is heard first and whatever else they announce |
| `PtpMaster.WorseIsIgnored` | Sources/Engine/PTPClient.cpp:136-142 | an Announce that is not better changes nothing while the master is not three seconds silent |
| `PtpMaster.MasterRefreshes` | Sources/Engine/PTPClient.cpp:136-156 | every Announce of the master itself counts, even one that ranks it lower, and nothing measured is lost |
| `PtpMaster.ExpiredMasterIsReplaced` | Sources/Engine/PTPClient.cpp:136-156 | after three silent seconds the next clock heard is master, however it ranks |
| `PtpLock.ReceiveKeepsInv` | Sources/Engine/PTPClient.cpp:120-207 | every datagram keeps what the stable count, the lock and the pending request stand for |
| `PtpLock.TickKeepsInv` | Sources/Engine/PTPClient.cpp:217-239 | so do the request and the timeouts |
| `PtpLock.LockIsEarnedAfterEveryPass` | Sources/Engine/PTPClient.cpp:209-240 | at the end of every pass of every run a lock means four measurements since the last change of master or timeout, all from the current master with delays in 0..20 ms, the last three in step with the filter, the published offset and delay theirs, Announce younger than 3 s and Sync than 2 s; and no more exchanges were completed than requests sent |
| `PtpLock.StaleAnswersUnlock` | Sources/Engine/PTPClient.cpp:183-192 | once a completed exchange leaves the lock on, the last good measurement is younger than 2 s |
| `PtpLock.ExchangeIsExact` | Sources/Engine/PTPClient.cpp:158-206 | a Sync, its Follow_Up if it has one, the request and its answer over a symmetric path bring exactly the true offset and delay to the filter |
| `PtpLock.TickIsTimedIff` | Sources/Engine/PTPClient.cpp:218-225 | one tick keeps the pending request paired with its own send time if and only if no send with a different time fails while an older request is pending |
| `PtpLock.RequestsAreTimed` | Sources/Engine/PTPClient.cpp:171-225 | along every run exchanges are computed with the send time of their own request until the first such failure, and that failure breaks it |
| `PtpLock.FailedSendMistimes` | Sources/Engine/PTPClient.cpp:120-225 | such a failure is reachable: a two-pass run from the start, datagrams included, that ends with the first request pending under the time of the second |
| `PtpLock.CorrectionsAddUp` | Sources/Engine/PTPClient.cpp:165-170 | after any Follow_Ups the correction is that of the Sync plus those of all that matched it, repeated ones too, while its source, sequence and ingress time stay |
| `PtpLock.CorrectionsFit` | Sources/Engine/PTPClient.cpp:165-170 | with n Follow_Ups the sum stays inside 64 bits while every correction is below 2^63 / (n + 1) |
| `PtpProgress.TickClearsIffLate` | Sources/Engine/PTPClient.cpp:226-239 | a tick clears count, lock, offset, delay and measurements if and only if Announce is three seconds old or Sync two, and otherwise leaves what the receptions left |
| `PtpProgress.TickRequestsWhenDue` | Sources/Engine/PTPClient.cpp:217-225 | a request is numbered, stamped and sent exactly with a master, a complete Sync and 250 ms after the last one |
| `PtpProgress.RequestsAreSpaced` | Sources/Engine/PTPClient.cpp:217-225 | along every run two requests are numbered at least 250 ms apart |
| `PtpProgress.DatagramsAreCounted` | Sources/Engine/PTPClient.cpp:120-134 | every datagram of this version and domain is counted once, as message or error, short ones as errors, others not at all |
| `PtpProgress.TwoStepWaits` | Sources/Engine/PTPClient.cpp:158-163 | after a two-step Sync no request is due and no answer counts before its Follow_Up |
| `PtpProgress.OnlyAnswersMeasure` | Sources/Engine/PTPClient.cpp:157-178 | exactly a Delay_Resp of the master to this port that names the pending request completes an exchange; nothing else touches request, filter or measurements |
| `PtpProgress.AnswerIsTakenIff` | Sources/Engine/PTPClient.cpp:183-206 | a measurement up to 20 ms goes to the filter and is published; any other one unlocks if and only if the last good one is two seconds old |
| `PtpProgress.LockedIffFourMeasured` | Sources/Engine/PTPClient.cpp:120-240 | over every run on from the choice of a master in which measurements are in time and in step, whatever else arrives: locked if and only if four exchanges were completed, with the filter's value published |
| `PtpProgress.LocksAfterFour` | Sources/Engine/PTPClient.cpp:99-240 | such a run byte for byte: an Announce and four exchanges a quarter of a second apart lock and publish their offset, and three do not |
| `Text.SplitText` | Sources/Core/SDP.cpp:10-19 | the loop yields the parts of the text between delimiters |
| `Text.SplitFirst` | Sources/Core/SDP.cpp:10-19 | a word and its delimiter come off the front of a split |
| `Text.PartsAreFree` | Sources/Core/SDP.cpp:10-19 | no part contains the delimiter, nor any character the text lacks |
| `Text.ParseOfPrint` | Sources/Core/SDP.cpp:20-23 | a printed 32-bit number parses to itself |
| `Text.FindFirst` | Sources/Core/SDP.cpp:84-87 | a marker is found right after a text that lacks its first character |
| `IPv4.ParseAddress` | Sources/Core/IPv4Address.hpp:16-33 | the component loop accepts exactly four octets between dots |
| `IPv4.ComponentsAreParts` | Sources/Core/IPv4Address.hpp:16-33 | taking components one by one is splitting at the dots |
| `IPv4.ParseOfText` | Sources/Core/IPv4Address.hpp:16-40 | printing and parsing gives the address back |
| `SDP.ParseSession` | Sources/Core/SDP.cpp:30-97 | the line loop computes the specified parse, early rejections included |
| `SdpLines.ReadsOrigin` | Sources/Core/SDP.cpp:40-42 | the printed origin line sets the origin and nothing else |
| `SdpLines.ReadsConnection` | Sources/Core/SDP.cpp:43-45 | the printed connection line sets the address without its lifetime |
| `SdpLines.ReadsMedia` | Sources/Core/SDP.cpp:46-56 | the printed media line sets port and payload type |
| `SdpLines.ReadsRtpMap` | Sources/Core/SDP.cpp:57-69 | the printed format line sets encoding, rate and channels once the payload type agrees |
| `SdpLines.ReadsReferenceClock` | Sources/Core/SDP.cpp:83-90 | the printed clock line sets the domain |
| `SdpLines.ReadsSourceFilter` | Sources/Core/SDP.cpp:78-82 | the printed filter line sets the source |
| `SdpLines.AttributeKinds` | Sources/Core/SDP.cpp:57-83 | the chain of prefix tests tells every printed attribute line apart |
| `SdpLines.ReturnIsOptional` | Sources/Core/SDP.cpp:36 | a line ends with or without a carriage return |
| `SdpLines.OneChannelByDefault` | Sources/Core/SDP.cpp:57-69 | a format line without a channel count means one channel |
| `SdpLines.FormatOfOtherType` | Sources/Core/SDP.cpp:57-69 | a format line for another payload type is an error |
| `SdpLines.MediaAccepts` | Sources/Core/SDP.cpp:46-56 | a media line is taken exactly when it is RTP audio with port and payload type in range |
| `SdpLines.ParsedHasBothLines` | Sources/Core/SDP.cpp:30-97 | whatever parses has a media line, a format line, a name and a multicast address |
| `SdpLines.AddressWithoutLifetime` | Sources/Core/SDP.cpp:43-45 | a connection address without a lifetime is read as it stands |
| `SdpRoundTrip.WellFormedRoundTrips` | Sources/Core/SDP.cpp:30-117 | every field of every well-formed session comes back from its printed form |
| `SdpRoundTrip.ParsedIsWellFormed` | Sources/Core/SDP.cpp:30-97 | whatever parses, from any text at all, is well formed |
| `SdpRoundTrip.RoundTripIffWellFormed` | Sources/Core/SDP.cpp:30-117 | printing and parsing gives the session back if and only if it is well formed |
| `SAP.ComputeHash` | Sources/Core/SAP.cpp:9-13 | the loop computes the folded FNV-1a value of the description |
| `SAP.Encode` | Sources/Core/SAP.cpp:15-29 | the bytes of flags, hash, origin, type and description in place, nothing for an origin that is no address |
| `SAP.DecodeOfEncoded` | Sources/Core/SAP.cpp:15-50 | a message arrives whole if and only if it is a session description starting with the supported version |
| `SAP.AuthenticationIsSkipped` | Sources/Core/SAP.cpp:36-47 | authentication data of any length does not change what is read |
| `SAP.DecodeAccepts` | Sources/Core/SAP.cpp:31-50 | accepts exactly version 1, neither encrypted nor compressed, with a payload that begins with the supported type and version after the authentication; one bit marks a deletion |
| `SAP.KnownHashes` | Sources/Core/SAP.cpp:9-13 | two published values of FNV-1a, folded |
| `Discovery.Discover` | Sources/Engine/LiveEngine.cpp:378-400 | one turn expires old entries and then does to the directory what the datagram asks, and nothing for malformed or own ones |
| `Discovery.ListedIsRecent` | Sources/Engine/LiveEngine.cpp:380-399 | after a turn every record of the directory was seen within the timeout |
| `Discovery.OnlyTheProfileIsAnnounced` | Sources/Engine/LiveEngine.cpp:385-399 | only sessions of the one supported format that are not the engine's own are taken up, under the hash of their message |
| `Discovery.ListedIsSupported` | Sources/Engine/LiveEngine.cpp:378-400 | whatever arrives, every record listed is of that format |
| `Discovery.PublishedIsWellFormed` | Sources/Engine/LiveEngine.cpp:340-352 | every announced bank is a well-formed session of the supported profile |
| `Discovery.PublishedIsUnderstood` | Sources/Engine/LiveEngine.cpp:340-399 | what one engine announces any other reads as the same session under one fixed key, and its withdrawal names that key |
| `PublishedFlows.PublishedIsTheFlow` | Sources/Engine/LiveEngine.cpp:340-352 | for accepted arguments whose ports fit, the session announced for a bank is that of the transmit flow in its place: address, port, payload type, format and channels, its name made of the flow's first and last channel, from the interface address |
| `PublishedFlows.PublishableIffMulticast` | Sources/Engine/LiveEngine.cpp:340-352 | a bank can be announced exactly when the interface has an address and its flow a multicast one |
| `Discovery.OwnIsIgnored` | Sources/Engine/LiveEngine.cpp:397 | an engine ignores what it announces itself |
| `Discovery.AnnouncementIsListed` | Sources/Engine/LiveEngine.cpp:385-399 | after the announcement any directory reached from an empty block holds the record with every announced field if and only if the interface address has at most fifteen characters; then the map holds it under the announced key and changes in no other way than an upsert allows |
| `Discovery.HeardTwice` | Sources/Engine/LiveEngine.cpp:378-400 | two turns that hear one session within the timeout leave it listed once if and only if its origin fits the cells, and otherwise twice |
| `Discovery.StageboxIsListedTwice` | Sources/Engine/LiveEngine.cpp:378-400 | a well-formed session of the profile with a sixteen-character host name, its bytes and the two turns that list it twice |
| `Discovery.WithdrawalRemovesOnlyIt` | Sources/Engine/LiveEngine.cpp:360-399 | the withdrawal removes exactly that key from any directory |
| `Configurations.CheckFields` | ControlApp/src-tauri/src/model.rs:331-405 | finds nothing wrong exactly with flows whose fields are valid |
| `Configurations.Claim` | ControlApp/src-tauri/src/model.rs:416-430 | reports an overlap exactly when a channel of the flow was taken, and otherwise claims exactly its channels |
| `Configurations.OneMoreFlow` | ControlApp/src-tauri/src/model.rs:322-431 | a flow joins a valid list exactly when it is sound, its identifier is new and none of its channels is taken |
| `Configurations.Validate` | ControlApp/src-tauri/src/model.rs:290-456 | accepts exactly the configurations whose enabled flows are sound, distinct and pairwise disjoint per direction, and adds up flows and channels |
| `Configurations.TotalsFit` | ControlApp/src-tauri/src/model.rs:406-441 | an accepted configuration owns at most 64 channels per direction |
| `Configurations.SoundIff` | ControlApp/src-tauri/src/model.rs:322-415 | the exact conditions on a flow by itself, in numbers |
| `Configurations.ValidIff` | ControlApp/src-tauri/src/model.rs:290-456 | the exact conditions on a configuration, in terms of its flows' identifiers, directions and channel ranges |
| `Arguments.SortSorts` | ControlApp/src-tauri/src/engine.rs:289-292 | the sorted flows are an ascending permutation of the enabled ones |
| `Arguments.ValidateBanks` | ControlApp/src-tauri/src/engine.rs:386-413 | accepts exactly flows of one width and payload type with consecutive channels and addresses |
| `Arguments.ArgumentsFor` | ControlApp/src-tauri/src/engine.rs:282-373 | gives arguments exactly for the configurations the engine can express |
| `Arguments.AddressesFollow` | Sources/Engine/LiveEngine.cpp:32-45 | the shifted addresses are the flows' if and only if the first one is multicast or there is one bank |
| `Arguments.LoopbackIsNotShifted` | Sources/Engine/LiveEngine.cpp:32-45 | an accepted diagnostic configuration the engine starts with, with two banks per direction, whose second bank does not get the address of the second flow |
| `Arguments.BanksAreTheFlows` | ControlApp/src-tauri/src/engine.rs:282-439 | once the arguments are accepted and the ports exist, each bank's port, payload type, channels and multicast address are those of the sorted flow in its place, for RX and TX |
| `Arguments.EngineAcceptsIffPortsFit` | Sources/Engine/LiveEngine.cpp:87-101 | the engine's range checks pass for accepted arguments if and only if the interface has an address and the ports of the last bank exist |
| `Arguments.SettingsAreTheFlows` | ControlApp/src-tauri/src/engine.rs:282-373 | every flow has the source filter and jitter buffer the engine is given, and the interface is the configured one |
| `Arguments.ExpressedIsAccepted` | ControlApp/src-tauri/src/engine.rs:282-439 | nothing the engine can express is refused: if some engine configuration gives every flow of a valid configuration its bank, arguments exist |
| `Banks.VirtualChannelsAreDistinct` | Sources/Engine/LiveEngine.cpp:90-101 | bank and channel map injectively into the 64 Core Audio channels |
| `Banks.BankPortsDoNotWrap` | Sources/Engine/LiveEngine.cpp:47-49 | within the checked range ports are a stride apart and never wrap |
| `Banks.BankAddressIsShifted` | Sources/Engine/LiveEngine.cpp:32-45 | within the checked range each bank's address is as many above the base as its number |
| `L24.EncodeMonotone` | Sources/Core/L24Codec.cpp:10-23 | encoding is monotone in the sample |
| `L24.RecodeIsExact` | Sources/Core/L24Codec.cpp:10-37 | decoding and encoding keeps a code, except that codes strictly between -2^23 and -2^22 move up by one |
| `L24.RecodeSettles` | Sources/Core/L24Codec.cpp:10-37 | repeating it settles: those codes walk up to -2^22, all others are fixed |
| `L24.EncodeToleratesRounding` | Sources/Core/L24Codec.cpp:13-35 | a relative error of one part in 2^24 - 1 on a decoded positive sample does not change its code |
| `L24.NearestIsClose` | Sources/Core/L24Codec.cpp:33-35 | rounding to a significand of b bits errs by at most one part in 2^b |
| `L24.NegativeIsExact` | Sources/Core/L24Codec.cpp:33-35 | decoded negative samples are exact in single precision |
| `L24.PositiveIsNear` | Sources/Core/L24Codec.cpp:33-35 | the double quotient and its conversion to single together err by less than one part in 2^24 - 1 on positive samples |
| `L24.CodecError` | Sources/Core/L24Codec.cpp:10-37 | a trip through the codec, both roundings included, errs by at most 1.5 steps of 1/8388607 |
| `L24.Encode` | Sources/Core/L24Codec.cpp:10-23 | every sample's code stands in its three bytes; sizes that disagree change nothing |
| `L24.Decode` | Sources/Core/L24Codec.cpp:25-38 | every sample is its three bytes' value, rounded to double and then to single; sizes that disagree change nothing |
| `L24.BlockRoundTrip` | Sources/Core/L24Codec.cpp:10-38 | every sample of a block comes back within that error |
| `L24.TiesGoToEven` | Sources/Core/L24Codec.cpp:13-17 | halfway between two codes the even one is taken |
| `RTP.Encode` | Sources/Core/RTPPacket.cpp:24-35 | exactly when type and size allow, the fixed header and payload fill the front of the buffer and the rest is untouched |
| `RTP.PlainRoundTrip` | Sources/Core/RTPPacket.cpp:24-63 | what is encoded decodes to the same packet |
| `RTP.DecodeSkipsExtras` | Sources/Core/RTPPacket.cpp:37-63 | the same packet is found behind any contributing sources and extension and before any padding |
| `RTP.DecodeIff` | Sources/Core/RTPPacket.cpp:37-63 | the decoder accepts exactly byte strings put together from header, sources, extension, payload and padding, and reads them as they were put together |
| `AudioPath.InterleaveChannel` | Sources/Core/ChannelLayout.hpp:9-15 | writes the samples to the first cells of its channel and changes no other cell; a refusal changes nothing |
| `AudioPath.DeinterleaveChannel` | Sources/Core/ChannelLayout.hpp:17-23 | reads exactly the cells of its channel; a refusal changes nothing |
| `AudioPath.SendBank` | Sources/Engine/LiveEngine.cpp:311-326 | the datagram decodes to the bank's packet with the code of every sample of every channel in its place, missing ones as silence |
| `AudioPath.ReceiveBank` | Sources/Engine/LiveEngine.cpp:209-267 | exactly packets of the right type and size are taken, every frame reaches the Core Audio channel of its place, and no other channel changes |
| `AudioPath.Carry` | Sources/Engine/LiveEngine.cpp:262-326 | a block arrives on the channel of the same place in the bank, every frame within 1.5/8388607 of the clamped sample |
| `AudioPath.BlocksArrive` | Sources/Engine/LiveEngine.cpp:262-326 | what was in the ring arrives on its channel, and silence for what was not |
| `AudioPath.FramesAreInterleaved` | Sources/Core/ChannelLayout.hpp:9-23 | samples of a frame stand side by side in channel order, frames one after the other |
| `TransmitGrid.TimestampIsExact` | Sources/Engine/LiveEngine.cpp:51-57 | the two-part form is floor(ns * 48000 / 10^9) and nothing overflows 64 bits |
| `TransmitGrid.TimestampAdvances` | Sources/Engine/LiveEngine.cpp:51-57 | a millisecond later is 48 samples later modulo 2^32 |
| `TransmitGrid.TransmitLoop` | Sources/Engine/LiveEngine.cpp:283-332 | through lateness, catch-up and reconnects every deadline is a whole millisecond after the epoch, later than the one before, at most 10 ms overdue and 1 ms early, and follows from the one before, the turn and the clock; packets are numbered without a gap |
| `TransmitGrid.NoMillisecondSkipped` | Sources/Engine/LiveEngine.cpp:306-328 | over turns that send and wake in time deadlines are one millisecond apart |
| `TransmitGrid.CatchesUp` | Sources/Engine/LiveEngine.cpp:283-308 | after a late turn, and after a reconnect, the deadline is the first grid point after the clock |
| `TransmitGrid.StampsMasterTime` | Sources/Engine/LiveEngine.cpp:320-324 | the offset counts the right way: an engine that is ahead of the master stamps the master's samples |
| `TransmitGrid.BanksAgree` | Sources/Engine/LiveEngine.cpp:320-324 | packets of two banks, however late or interrupted their loops: with one clock offset timestamps are as far apart as deadlines, and within a day equal exactly when the deadlines are |

## Left out

- Weak memory: every atomic access is one sequentially consistent step; the relaxed, acquire and release choices are not expressed.
- `reset()` of the jitter buffer against a running push: `exchange(false)` with `reset()` is one step (Sources/Engine/LiveEngine.cpp:249). The code clears the flag first, so the counts do not hold if a push starts inside `reset()`.
- `setRxActive` and `setTxActive`, the statistics counters and `dropped_`: they only inform the user.
- Sockets, mapped files, threads, signals, processes, real clocks: they are inputs here.
- JitterOrder.WindowDelivered: speaks of whole calls one after the other; `JitterCalls` and `JitterDrain` relate whole calls to uninterrupted runs of atomic steps, not to every interleaving.
- ReceiveLoop.OneSourceBetweenResets: says nothing about packets of two sockets, because the code forgets the source when it reopens the socket.
- SessionSlot.SnapshotIsOneRecord: excludes a read that spans 2^32 bumps of the revision, after which an equal revision proves nothing.
- SessionSlot.StepKeepsInv: lets the writer fill the cells in any order, which includes the order of the code; the sixteen slots are independent locks, so one is modelled.
- SessionDirectories.SessionDirectory.Snapshots: does not model `std::sort` itself; an insertion sort stands in, and entries with equal name and origin may come in any order.
- PtpLock.LockIsEarnedAfterEveryPass: requires clock readings above the epoch of the steady clock, which the code uses to say "never".
- PtpClients.PTPClient.Process: corrections and differences are unbounded integers; `PtpMath.NoOverflow`, `PtpMath.FilterFits` and `PtpLock.CorrectionsFit` say when 64 bits are enough. A timestamp in the last fraction of a second below 2^63 ns counts as malformed here, while its sum overflows in the code.
- PtpMaster.MasterIsBest: needs fixed ranks and no expiry; a source that worsens its own rank or a three-second silence lets a worse source in.
- The deadlines of the consume loop (Sources/Engine/LiveEngine.cpp:250-256): its rounds come at any time here.
- The identity hash of the clock client and its measurement trace.
- SAP.DecodeOfEncoded: takes texts whose characters are single bytes, as `char` is in C++.
- Different banks could in principle share a SAP hash; keys are only claimed to be fixed.
- Configurations.Validate: keeps the verdict and the totals, not the texts of the issues; sums are unbounded.
- Arguments.ArgumentsFor: the list of strings is the record the engine parses it into; option parsing is not part of this model.
- L24.EncodeSample: works on real numbers with `lrint` to nearest, ties to even; NaN and infinities are not modelled, and single-precision inputs are some of the real ones.
- The virtual sound device, the user interfaces, installers, profile tables, packet capture and the reconnect delays beyond their 250 ms minimum.

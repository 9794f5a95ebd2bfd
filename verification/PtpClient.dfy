/** The clock client: master choice, Sync and Follow_Up pairing, delay exchange, filter,
    lock and timeouts (Engine/PTPClient.cpp). Times are nanoseconds; readings of the
    steady clock are positive, its epoch stands for "never". */
module PtpClients {
  import opened Common
  import opened PtpCodec
  import opened PtpMath

  const ANNOUNCE_TIMEOUT: int := 3 * SECOND
  const SYNC_TIMEOUT: int := 2 * SECOND
  const REQUEST_INTERVAL: int := 250_000_000
  const NEVER: int := 0

  datatype SyncSample = SyncSample(source: PortIdentity, sequence: u16, ingress: i64, origin: Option<i64>, correction: int)

  /** A measurement that reached the filter, and the filter value it met there. */
  datatype Accepted = Accepted(source: PortIdentity, measurement: Measurement, met: Option<int>)

  /** The locals of `loop` and the shared fields it stores; `recent` (the accepted
      measurements since the last change of master or timeout), `requests` and `measured`
      (the requests sent and the exchanges completed) are history, and so is
      `requestEgress`, when the last request was sent. */
  datatype State = State(
    master: Option<PortIdentity>,
    masterRank: Option<seq<int>>,
    lastAnnounce: int,
    lastSync: int,
    sync: Option<SyncSample>,
    delaySequence: u16,
    pending: Option<u16>,
    pendingEgress: i64,
    nextDelayRequest: int,
    filtered: Option<int>,
    stable: u32,
    lastValid: int,
    locked: bool,
    offset: int,
    delay: int,
    messages: u64,
    errors: u64,
    recent: seq<Accepted>,
    requests: nat,
    measured: nat,
    requestEgress: i64)

  // ----- Ranks -----

  /** `announceRank`: the tuple with its arrays laid out in place. */
  function RankOf(m: Message): (r: seq<int>)
    ensures |r| == 7 + |m.grandmaster.identity| + |m.source.clock|
  {
    var g := m.grandmaster;
    [g.priority1, g.clockClass, g.clockAccuracy, g.offsetScaledLogVariance, g.priority2]
    + g.identity + [g.stepsRemoved] + m.source.clock + [m.source.port]
  }

  /** Lexicographic comparison, as `std::tuple` and `std::array` compare. */
  predicate RankBefore(a: seq<int>, b: seq<int>)
    requires |a| == |b|
  {
    a != [] && (a[0] < b[0] || (a[0] == b[0] && RankBefore(a[1..], b[1..])))
  }

  const RANK_LENGTH: nat := 23

  predicate WellFormed(m: Message) {
    |m.source.clock| == 8 && |m.grandmaster.identity| == 8
  }

  predicate RanksFit(s: State) {
    s.masterRank.Some? ==> |s.masterRank.value| == RANK_LENGTH
  }

  // ----- One message -----

  function AfterAnnounce(s: State, m: Message, now: int): State
    requires RanksFit(s) && WellFormed(m)
  {
    var rank := RankOf(m);
    var expired := s.lastAnnounce != NEVER && now - s.lastAnnounce >= ANNOUNCE_TIMEOUT;
    if s.master.None? || expired || m.source == s.master.value || s.masterRank.None?
       || RankBefore(rank, s.masterRank.value)
    then
      var t := s.(masterRank := Some(rank), lastAnnounce := now);
      if s.master == Some(m.source) then t
      else t.(master := Some(m.source), sync := None, stable := 0, locked := false, recent := [])
    else s
  }

  function AfterSync(s: State, m: Message, ingress: i64, now: int): State {
    s.(sync := Some(SyncSample(m.source, m.sequence, ingress, if m.twoStep then None else m.timestamp, m.correction)),
       lastSync := now)
  }

  function AfterFollowUp(s: State, m: Message): State {
    if s.sync.Some? && s.sync.value.source == m.source && s.sync.value.sequence == m.sequence then
      s.(sync := Some(s.sync.value.(origin := m.timestamp, correction := s.sync.value.correction + m.correction)))
    else s
  }

  /** The message answers the pending request and the Sync has its time. */
  predicate Answers(s: State, m: Message, local: PortIdentity) {
    && m.kind.DelayResponse? && m.timestamp.Some?
    && m.requestingPort == Some(local)
    && s.pending == Some(m.sequence)
    && s.sync.Some? && s.sync.value.origin.Some?
  }

  function AfterRejected(s: State, now: int): State {
    if s.lastValid != NEVER && now - s.lastValid >= SYNC_TIMEOUT then
      s.(stable := 0, locked := false, offset := 0, delay := 0, recent := [])
    else s
  }

  function AfterAccepted(s: State, source: PortIdentity, m: Measurement, now: int): State {
    var stable := if InStep(s.filtered, m.offset) then (s.stable + 1) % TWO32 else 1;
    var filtered := Filter(s.filtered, m.offset);
    var timely := now - s.lastAnnounce < ANNOUNCE_TIMEOUT && now - s.lastSync < SYNC_TIMEOUT;
    s.(filtered := Some(filtered), stable := stable, offset := filtered, delay := m.delay, lastValid := now,
       locked := timely && stable >= 4, recent := s.recent + [Accepted(source, m, s.filtered)])
  }

  function AfterResponse(s: State, m: Message, now: int, local: PortIdentity): State {
    if !Answers(s, m, local) then s
    else
      var sync := s.sync.value;
      var measurement := CalculateE2E(sync.origin.value, sync.ingress, s.pendingEgress, m.timestamp.value,
                                      sync.correction, m.correction);
      var t := s.(pending := None, measured := s.measured + 1);
      if measurement.None? || measurement.value.delay > MAX_DELAY then AfterRejected(t, now)
      else AfterAccepted(t, m.source, measurement.value, now)
  }

  function AfterMessage(s: State, m: Message, ingress: i64, now: int, local: PortIdentity): State
    requires RanksFit(s) && WellFormed(m)
  {
    if m.kind.Announce? then AfterAnnounce(s, m, now)
    else if s.master != Some(m.source) then s
    else if m.kind.Sync? && m.timestamp.Some? then AfterSync(s, m, ingress, now)
    else if m.kind.FollowUp? && m.timestamp.Some? then AfterFollowUp(s, m)
    else AfterResponse(s, m, now, local)
  }

  function WithError(s: State): State {
    s.(errors := Inc64(s.errors))
  }

  function AfterDatagram(s: State, bytes: seq<u8>, ingress: i64, now: int, local: PortIdentity, domain: u8): State
    requires RanksFit(s)
  {
    if |bytes| < HEADER then WithError(s)
    else if bytes[1] % 16 != 2 || bytes[4] != domain then s
    else
      DecodedIsWellFormed(bytes, domain);
      var m := Decode(bytes, domain);
      if m.None? then WithError(s)
      else AfterMessage(s.(messages := Inc64(s.messages)), m.value, ingress, now, local)
  }

  // ----- One pass of the loop -----

  datatype Received = Nothing | Failed | Datagram(bytes: seq<u8>, ingress: i64, now: int)

  /** What one pass is given: two receptions, then the clock, and whether a request can
      be sent. */
  datatype Pass = Pass(event: Received, general: Received, now: int, egress: i64, sends: bool)

  function AfterReceive(s: State, r: Received, local: PortIdentity, domain: u8): State
    requires RanksFit(s)
  {
    match r
    case Nothing => s
    case Failed => WithError(s)
    case Datagram(bytes, ingress, now) => AfterDatagram(s, bytes, ingress, now, local, domain)
  }

  function Numbered(s: State, p: Pass): State {
    s.(delaySequence := Next16(s.delaySequence), pendingEgress := p.egress, nextDelayRequest := p.now + REQUEST_INTERVAL)
  }

  function Requested(s: State): State {
    s.(pending := Some(s.delaySequence), requests := s.requests + 1, requestEgress := s.pendingEgress)
  }

  /** A request is numbered and stamped, and then sent or not. */
  function Stamped(s: State, p: Pass): State {
    if p.sends then Requested(Numbered(s, p)) else WithError(Numbered(s, p))
  }

  function AfterRequest(s: State, p: Pass): State {
    if s.master.Some? && s.sync.Some? && s.sync.value.origin.Some? && p.now >= s.nextDelayRequest then Stamped(s, p) else s
  }

  predicate TimedOut(s: State, now: int) {
    || (s.lastAnnounce != NEVER && now - s.lastAnnounce >= ANNOUNCE_TIMEOUT)
    || (s.lastSync != NEVER && now - s.lastSync >= SYNC_TIMEOUT)
  }

  function AfterTick(s: State, p: Pass): State {
    var t := AfterRequest(s, p);
    if TimedOut(t, p.now) then t.(stable := 0, locked := false, offset := 0, delay := 0, recent := []) else t
  }

  /** A Follow_Up that pairs with no Sync falls through to the last branch, which it does
      not concern. */
  lemma NoAnswer(s: State, m: Message, now: int, local: PortIdentity)
    ensures !m.kind.DelayResponse? ==> AfterResponse(s, m, now, local) == s
  {
  }

  lemma MessageKeepsRanks(s: State, r: Received, local: PortIdentity, domain: u8)
    requires RanksFit(s)
    ensures RanksFit(AfterReceive(s, r, local, domain))
  {
    hide CalculateE2E, Filter, Decode, RankBefore;
    if r.Datagram? {
      DecodedIsWellFormed(r.bytes, domain);
    }
  }

  lemma DecodedIsWellFormed(bytes: seq<u8>, domain: u8)
    ensures var m := Decode(bytes, domain); m.Some? ==> WellFormed(m.value)
  {
  }

  function AfterPass(s: State, p: Pass, local: PortIdentity, domain: u8): State
    requires RanksFit(s)
  {
    MessageKeepsRanks(s, p.event, local, domain);
    var t := AfterReceive(s, p.event, local, domain);
    AfterTick(AfterReceive(t, p.general, local, domain), p)
  }

  // ----- The client itself -----

  class PTPClient {
    const local: PortIdentity
    const domain: u8
    var master: Option<PortIdentity>
    var masterRank: Option<seq<int>>
    var lastAnnounce: int
    var lastSync: int
    var sync: Option<SyncSample>
    var delaySequence: u16
    var pendingDelaySequence: Option<u16>
    var pendingDelayEgress: i64
    var nextDelayRequest: int
    var filteredOffset: Option<int>
    var stableMeasurements: u32
    var lastValidMeasurement: int
    var ptpLocked: bool
    var ptpOffset: int
    var ptpMeanPathDelay: int
    var ptpMessages: u64
    var ptpErrors: u64
    ghost var recent: seq<Accepted>
    ghost var requests: nat
    ghost var measured: nat
    ghost var requestEgress: i64

    ghost function Now(): State
      reads this
    {
      State(master, masterRank, lastAnnounce, lastSync, sync, delaySequence, pendingDelaySequence, pendingDelayEgress,
            nextDelayRequest, filteredOffset, stableMeasurements, lastValidMeasurement, ptpLocked, ptpOffset,
            ptpMeanPathDelay, ptpMessages, ptpErrors, recent, requests, measured, requestEgress)
    }

    constructor (local: PortIdentity, domain: u8, now: int)
      ensures this.local == local && this.domain == domain && Now() == Initial(now)
    {
      this.local, this.domain := local, domain;
      master, masterRank, lastAnnounce, lastSync, sync := None, None, NEVER, NEVER, None;
      delaySequence, pendingDelaySequence, pendingDelayEgress, nextDelayRequest := 0, None, 0, now;
      filteredOffset, stableMeasurements, lastValidMeasurement := None, 0, NEVER;
      ptpLocked, ptpOffset, ptpMeanPathDelay, ptpMessages, ptpErrors := false, 0, 0, 0, 0;
      recent, requests, measured, requestEgress := [], 0, 0, 0;
    }

    method Process(bytes: seq<u8>, ingress: i64, now: int)
      requires RanksFit(Now())
      modifies this
      ensures Now() == AfterDatagram(old(Now()), bytes, ingress, now, local, domain)
    {
      if |bytes| < HEADER {
        CountError();
        return;
      }
      if bytes[1] % 16 != 2 || bytes[4] != domain {
        return;
      }
      var decoded := Decode(bytes, domain);
      if decoded.None? {
        CountError();
        return;
      }
      DecodedIsWellFormed(bytes, domain);
      hide Decode, Inc64, AfterMessage;
      ptpMessages := Inc64(ptpMessages);
      Handle(decoded.value, ingress, now);
    }

    /** What `process` does with a message it could read. */
    method Handle(message: Message, ingress: i64, now: int)
      requires RanksFit(Now()) && WellFormed(message)
      modifies this
      ensures Now() == AfterMessage(old(Now()), message, ingress, now, local)
    {
      hide AfterAnnounce, AfterResponse, WellFormed;
      if message.kind.Announce? {
        Consider(message, now);
        return;
      }
      hide RanksFit;
      if master.None? || message.source != master.value {
        return;
      }
      if message.kind.Sync? && message.timestamp.Some? {
        TakeSync(message, ingress, now);
        return;
      }
      if message.kind.FollowUp? && message.timestamp.Some? && sync.Some?
         && sync.value.source == message.source && sync.value.sequence == message.sequence {
        sync := Some(sync.value.(origin := message.timestamp, correction := sync.value.correction + message.correction));
        return;
      }
      NoAnswer(Now(), message, now, local);
      Measure(message, now);
    }

    /** The Sync branch of `process`. */
    method TakeSync(message: Message, ingress: i64, now: int)
      modifies this`sync, this`lastSync
      ensures lastSync == now
      ensures sync == Some(SyncSample(message.source, message.sequence, ingress,
                                      if message.twoStep then None else message.timestamp, message.correction))
    {
      sync := Some(SyncSample(message.source, message.sequence, ingress,
                              if message.twoStep then None else message.timestamp, message.correction));
      lastSync := now;
    }

    /** The Announce branch of `process`. */
    method Consider(message: Message, now: int)
      requires RanksFit(Now()) && WellFormed(message)
      modifies this
      ensures Now() == AfterAnnounce(old(Now()), message, now)
    {
      var rank := RankOf(message);
      assert |rank| == RANK_LENGTH;
      hide RankOf, RankBefore;
      var masterExpired := lastAnnounce != NEVER && now - lastAnnounce >= ANNOUNCE_TIMEOUT;
      var select := master.None? || masterExpired || message.source == master.value
                    || masterRank.None? || RankBefore(rank, masterRank.value);
      if !select {
        return;
      }
      hide RanksFit, WellFormed;
      if master.None? || master.value != message.source {
        Adopt(message.source);
      }
      masterRank := Some(rank);
      lastAnnounce := now;
    }

    method Adopt(source: PortIdentity)
      modifies this`master, this`sync, this`stableMeasurements, this`ptpLocked, this`recent
      ensures Now() == old(Now()).(master := Some(source), sync := None, stable := 0, locked := false, recent := [])
    {
      master := Some(source);
      sync := None;
      Forget();
    }

    /** The measurements so far no longer count. */
    method Forget()
      modifies this`stableMeasurements, this`ptpLocked, this`recent
      ensures stableMeasurements == 0 && !ptpLocked && recent == []
    {
      stableMeasurements := 0;
      ptpLocked := false;
      recent := [];
    }

    /** The Delay_Resp branch of `process`. */
    method Measure(message: Message, now: int)
      modifies this
      ensures Now() == AfterResponse(old(Now()), message, now, local)
    {
      if !message.kind.DelayResponse? || message.timestamp.None? || message.requestingPort != Some(local)
         || pendingDelaySequence.None? || message.sequence != pendingDelaySequence.value
         || sync.None? || sync.value.origin.None? {
        return;
      }
      var measurement := CalculateE2E(sync.value.origin.value, sync.value.ingress, pendingDelayEgress,
                                      message.timestamp.value, sync.value.correction, message.correction);
      hide CalculateE2E, AfterAccepted;
      pendingDelaySequence := None;
      measured := measured + 1;
      if measurement.None? || measurement.value.delay > MAX_DELAY {
        if lastValidMeasurement != NEVER && now - lastValidMeasurement >= SYNC_TIMEOUT {
          Unlock();
        }
        return;
      }
      Accept(message.source, measurement.value, now);
    }

    method Accept(source: PortIdentity, measurement: Measurement, now: int)
      modifies this`recent, this`filteredOffset, this`stableMeasurements
      modifies this`ptpOffset, this`ptpMeanPathDelay, this`lastValidMeasurement, this`ptpLocked
      ensures Now() == AfterAccepted(old(Now()), source, measurement, now)
    {
      hide Filter, InStep;
      Average(source, measurement);
      Publish(filteredOffset.value, measurement.delay, now);
    }

    method Publish(offset: int, delay: int, now: int)
      modifies this`ptpOffset, this`ptpMeanPathDelay, this`lastValidMeasurement, this`ptpLocked
      ensures ptpOffset == offset && ptpMeanPathDelay == delay && lastValidMeasurement == now
      ensures ptpLocked <==> now - lastAnnounce < ANNOUNCE_TIMEOUT && now - lastSync < SYNC_TIMEOUT && stableMeasurements >= 4
    {
      ptpOffset := offset;
      ptpMeanPathDelay := delay;
      lastValidMeasurement := now;
      var timely := now - lastAnnounce < ANNOUNCE_TIMEOUT && now - lastSync < SYNC_TIMEOUT;
      ptpLocked := timely && stableMeasurements >= 4;
    }

    /** The filter and the count of measurements in step. */
    method Average(source: PortIdentity, measurement: Measurement)
      modifies this`filteredOffset, this`stableMeasurements, this`recent
      ensures filteredOffset == Some(Filter(old(filteredOffset), measurement.offset))
      ensures stableMeasurements
              == if InStep(old(filteredOffset), measurement.offset) then (old(stableMeasurements) + 1) % TWO32 else 1
      ensures recent == old(recent) + [Accepted(source, measurement, old(filteredOffset))]
    {
      var sample := measurement.offset;
      recent := recent + [Accepted(source, measurement, filteredOffset)];
      if filteredOffset.Some? && Abs(sample - filteredOffset.value) <= IN_STEP {
        stableMeasurements := (stableMeasurements + 1) % TWO32;
        filteredOffset := Some(filteredOffset.value + TruncDiv(sample - filteredOffset.value, 8));
      } else {
        filteredOffset := Some(sample);
        stableMeasurements := 1;
      }
    }

    method Unlock()
      modifies this`stableMeasurements, this`ptpLocked, this`ptpOffset, this`ptpMeanPathDelay, this`recent
      ensures Now() == old(Now()).(stable := 0, locked := false, offset := 0, delay := 0, recent := [])
    {
      Forget();
      ptpOffset := 0;
      ptpMeanPathDelay := 0;
    }

    method Receive(r: Received)
      requires RanksFit(Now())
      modifies this
      ensures Now() == AfterReceive(old(Now()), r, local, domain)
    {
      match r
      case Nothing =>
      case Failed => CountError();
      case Datagram(bytes, ingress, now) => Process(bytes, ingress, now);
    }

    /** One pass of the loop: the event port, the general port, then the clock. */
    method Loop(p: Pass)
      requires RanksFit(Now())
      modifies this
      ensures Now() == AfterPass(old(Now()), p, local, domain)
    {
      hide AfterReceive, AfterRequest;
      MessageKeepsRanks(Now(), p.event, local, domain);
      Receive(p.event);
      Receive(p.general);
      Request(p);
      if (lastAnnounce != NEVER && p.now - lastAnnounce >= ANNOUNCE_TIMEOUT)
         || (lastSync != NEVER && p.now - lastSync >= SYNC_TIMEOUT) {
        Unlock();
      }
    }

    /** The Delay_Req a pass sends when it is due. */
    method Request(p: Pass)
      modifies this
      ensures Now() == AfterRequest(old(Now()), p)
    {
      hide Stamped;
      if master.Some? && sync.Some? && sync.value.origin.Some? && p.now >= nextDelayRequest {
        Stamp(p);
      }
    }

    method Stamp(p: Pass)
      modifies this
      ensures Now() == Stamped(old(Now()), p)
    {
      hide Now, Numbered, Requested, WithError;
      Number(p);
      if p.sends {
        Sent();
      } else {
        CountError();
      }
    }

    method Number(p: Pass)
      modifies this`delaySequence, this`pendingDelayEgress, this`nextDelayRequest
      ensures Now() == Numbered(old(Now()), p)
    {
      delaySequence := Next16(delaySequence);
      pendingDelayEgress := p.egress;
      nextDelayRequest := p.now + REQUEST_INTERVAL;
    }

    method Sent()
      modifies this`pendingDelaySequence, this`requests, this`requestEgress
      ensures Now() == Requested(old(Now()))
    {
      pendingDelaySequence := Some(delaySequence);
      requests := requests + 1;
      requestEgress := pendingDelayEgress;
    }

    method CountError()
      modifies this`ptpErrors
      ensures Now() == WithError(old(Now()))
    {
      ptpErrors := Inc64(ptpErrors);
    }
  }

  function Initial(now: int): State {
    State(None, None, NEVER, NEVER, None, 0, None, 0, now, None, 0, NEVER, false, 0, 0, 0, 0, [], 0, 0, 0)
  }
}

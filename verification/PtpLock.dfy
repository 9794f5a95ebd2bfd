/** What the lock flag of the clock client means, over whole runs of its loop
    (Engine/PTPClient.cpp). */
module PtpLock {
  import opened Bytes
  import opened Common
  import opened PtpClients
  import opened PtpCodec
  import opened PtpMath

  predicate InStepAt(recent: seq<Accepted>, i: int)
    requires 0 <= i < |recent|
  {
    InStep(recent[i].met, recent[i].measurement.offset)
  }

  /** The stable count is the number of measurements in step since the last restart. */
  ghost predicate Measured(s: State) {
    && s.stable <= |s.recent|
    && (forall i :: |s.recent| - s.stable < i < |s.recent| ==> InStepAt(s.recent, i))
    && (forall i :: 0 <= i < |s.recent| ==>
          s.master == Some(s.recent[i].source) && 0 <= s.recent[i].measurement.delay <= MAX_DELAY)
    && (s.locked ==> s.stable >= 4 && s.filtered == Some(s.offset) && s.delay == s.recent[|s.recent| - 1].measurement.delay)
  }

  predicate Followed(s: State) {
    && RanksFit(s)
    && (s.master.Some? ==> s.lastAnnounce != NEVER)
    && (s.sync.Some? ==> s.lastSync != NEVER && s.master == Some(s.sync.value.source))
    && (s.recent != [] ==> s.sync.Some? && s.lastValid != NEVER)
  }

  /** Every exchange completed used up one request that was sent. */
  predicate Paired(s: State) {
    s.measured + (if s.pending.Some? then 1 else 0) <= s.requests
  }

  ghost predicate Inv(s: State) {
    Followed(s) && Measured(s) && Paired(s)
  }

  // ----- Every step keeps it -----

  lemma AnnounceKeepsInv(s: State, m: Message, now: int)
    requires Inv(s) && WellFormed(m) && now > 0
    ensures Inv(AfterAnnounce(s, m, now))
  {
  }

  lemma AcceptedKeepsInv(s: State, m: Measurement, now: int)
    requires Inv(s) && s.sync.Some? && s.master.Some? && 0 <= m.delay <= MAX_DELAY && now > 0
    ensures Inv(AfterAccepted(s, s.master.value, m, now))
  {
    hide Filter;
    var r := AfterAccepted(s, s.master.value, m, now);
    var n := |s.recent|;
    forall i | |r.recent| - r.stable < i < |r.recent|
      ensures InStepAt(r.recent, i)
    {
      if i < n {
        assert InStepAt(s.recent, i);
      }
    }
    hide InStep, InStepAt;
  }

  lemma ResponseKeepsInv(s: State, m: Message, now: int, local: PortIdentity)
    requires Inv(s) && s.master == Some(m.source) && now > 0
    ensures Inv(AfterResponse(s, m, now, local))
  {
    hide InStepAt, Filter, AfterAccepted;
    if Answers(s, m, local) {
      var sync := s.sync.value;
      var measurement := CalculateE2E(sync.origin.value, sync.ingress, s.pendingEgress, m.timestamp.value,
                                      sync.correction, m.correction);
      assert measurement.Some? ==> measurement.value.delay >= 0;
      hide CalculateE2E;
      var t := s.(pending := None, measured := s.measured + 1);
      assert Inv(t);
      if measurement.Some? && measurement.value.delay <= MAX_DELAY {
        AcceptedKeepsInv(t, measurement.value, now);
      }
    }
  }

  lemma MessageKeepsInv(s: State, m: Message, ingress: i64, now: int, local: PortIdentity)
    requires Inv(s) && WellFormed(m) && now > 0
    ensures Inv(AfterMessage(s, m, ingress, now, local))
  {
    hide InStepAt, AfterResponse, AfterAnnounce;
    if m.kind.Announce? {
      AnnounceKeepsInv(s, m, now);
    } else if s.master == Some(m.source) {
      ResponseKeepsInv(s, m, now, local);
    }
  }

  /** An answer that is not accepted, when the last good one is two seconds old, unlocks. */
  lemma StaleAnswersUnlock(s: State, m: Message, now: int, local: PortIdentity)
    requires Inv(s)
    ensures var r := AfterResponse(s, m, now, local);
            r.measured > s.measured && r.locked ==> now - r.lastValid < SYNC_TIMEOUT
  {
    hide CalculateE2E, Filter, InStepAt;
  }

  predicate Ticking(r: Received) {
    r.Datagram? ==> r.now > 0
  }

  lemma ReceiveKeepsInv(s: State, r: Received, local: PortIdentity, domain: u8)
    requires Inv(s) && Ticking(r)
    ensures Inv(AfterReceive(s, r, local, domain))
  {
    hide InStepAt, AfterMessage, Decode;
    if r.Datagram? {
      var t := s.(messages := Inc64(s.messages));
      assert Inv(t);
      DecodedIsWellFormed(r.bytes, domain);
      var m := Decode(r.bytes, domain);
      if m.Some? {
        MessageKeepsInv(t, m.value, r.ingress, r.now, local);
      }
    }
  }

  lemma TickKeepsInv(s: State, p: Pass)
    requires Inv(s)
    ensures Inv(AfterTick(s, p))
  {
    hide InStepAt;
  }

  // ----- What a lock at the end of a pass tells -----

  /** At least four measurements since the last change of master or timeout, all from the
      current master with delays up to 20 ms; the last three each within 2 ms of the
      filter value they met; the published offset and delay are the filter's and the
      last one's; Announce and Sync recent. */
  ghost predicate LockIsEarned(s: State, now: int) {
    var n := |s.recent|;
    && n >= 4 && s.master.Some?
    && (forall i :: 0 <= i < n ==>
          s.recent[i].source == s.master.value && 0 <= s.recent[i].measurement.delay <= MAX_DELAY)
    && InStepAt(s.recent, n - 1) && InStepAt(s.recent, n - 2) && InStepAt(s.recent, n - 3)
    && s.sync.Some? && s.sync.value.source == s.master.value
    && s.filtered == Some(s.offset) && s.delay == s.recent[n - 1].measurement.delay
    && now - s.lastAnnounce < ANNOUNCE_TIMEOUT
    && now - s.lastSync < SYNC_TIMEOUT
  }

  lemma LockedIsEarned(s: State, p: Pass)
    requires Inv(s)
    ensures var r := AfterTick(s, p); r.locked ==> LockIsEarned(r, p.now)
  {
  }

  predicate PassTicks(p: Pass) {
    Ticking(p.event) && Ticking(p.general) && p.now > 0
  }

  /** The client after some passes. */
  ghost function Run(start: int, passes: seq<Pass>, local: PortIdentity, domain: u8): (s: State)
    ensures RanksFit(s)
  {
    if passes == [] then Initial(start)
    else
      var t := Run(start, passes[..|passes| - 1], local, domain);
      PassKeepsRanks(t, passes[|passes| - 1], local, domain);
      AfterPass(t, passes[|passes| - 1], local, domain)
  }

  lemma PassKeepsRanks(s: State, p: Pass, local: PortIdentity, domain: u8)
    requires RanksFit(s)
    ensures RanksFit(AfterPass(s, p, local, domain))
  {
    hide AfterReceive;
    MessageKeepsRanks(s, p.event, local, domain);
    MessageKeepsRanks(AfterReceive(s, p.event, local, domain), p.general, local, domain);
  }

  lemma {:induction false} RunKeepsInv(start: int, passes: seq<Pass>, local: PortIdentity, domain: u8)
    requires forall i :: 0 <= i < |passes| ==> PassTicks(passes[i])
    ensures Inv(Run(start, passes, local, domain))
  {
    if passes == [] {
    } else {
      var n := |passes| - 1;
      RunKeepsInv(start, passes[..n], local, domain);
      var s := Run(start, passes[..n], local, domain);
      assert Run(start, passes, local, domain) == AfterPass(s, passes[n], local, domain);
      hide Run, Inv, AfterReceive, AfterTick;
      MessageKeepsRanks(s, passes[n].event, local, domain);
      ReceiveKeepsInv(s, passes[n].event, local, domain);
      var t := AfterReceive(s, passes[n].event, local, domain);
      ReceiveKeepsInv(t, passes[n].general, local, domain);
      TickKeepsInv(AfterReceive(t, passes[n].general, local, domain), passes[n]);
    }
  }

  /** At the end of every pass of every run the lock flag means all of that, whatever
      arrives on the two ports and however the clock moves. */
  lemma LockIsEarnedAfterEveryPass(start: int, passes: seq<Pass>, local: PortIdentity, domain: u8)
    requires passes != [] && forall i :: 0 <= i < |passes| ==> PassTicks(passes[i])
    ensures var s := Run(start, passes, local, domain);
            && (s.locked ==> LockIsEarned(s, passes[|passes| - 1].now))
            && s.measured <= s.requests
  {
    var n := |passes| - 1;
    RunKeepsInv(start, passes, local, domain);
    RunKeepsInv(start, passes[..n], local, domain);
    var s := Run(start, passes[..n], local, domain);
    assert Run(start, passes, local, domain) == AfterPass(s, passes[n], local, domain);
    hide Run, AfterReceive, AfterTick, LockIsEarned, Followed, Measured;
    MessageKeepsRanks(s, passes[n].event, local, domain);
    ReceiveKeepsInv(s, passes[n].event, local, domain);
    var t := AfterReceive(s, passes[n].event, local, domain);
    ReceiveKeepsInv(t, passes[n].general, local, domain);
    LockedIsEarned(AfterReceive(t, passes[n].general, local, domain), passes[n]);
  }

  // ----- When a request was sent -----

  /** The egress time kept for the pending request is the time that request was sent. */
  predicate Timed(s: State) {
    s.pending.Some? ==> s.pendingEgress == s.requestEgress
  }

  predicate RequestDue(s: State, p: Pass) {
    s.master.Some? && s.sync.Some? && s.sync.value.origin.Some? && p.now >= s.nextDelayRequest
  }

  /** A request that cannot be sent while an older one is still pending: the code keeps the
      old sequence number with the new time. */
  predicate Mistimes(s: State, p: Pass) {
    RequestDue(s, p) && !p.sends && s.pending.Some? && p.egress != s.requestEgress
  }

  lemma TickIsTimedIff(s: State, p: Pass)
    requires Timed(s)
    ensures Timed(AfterTick(s, p)) <==> !Mistimes(s, p)
  {
  }

  lemma ReceiveKeepsTimed(s: State, r: Received, local: PortIdentity, domain: u8)
    requires RanksFit(s)
    ensures Timed(s) ==> Timed(AfterReceive(s, r, local, domain))
  {
    hide CalculateE2E, Filter, Decode, RankBefore, RankOf;
    if r.Datagram? {
      DecodedIsWellFormed(r.bytes, domain);
    }
  }

  /** The client between the receptions and the tick of pass `i`. */
  ghost function AtTick(start: int, passes: seq<Pass>, i: nat, local: PortIdentity, domain: u8): State
    requires i < |passes|
  {
    var s, p := Run(start, passes[..i], local, domain), passes[i];
    MessageKeepsRanks(s, p.event, local, domain);
    AfterReceive(AfterReceive(s, p.event, local, domain), p.general, local, domain)
  }

  /** While no failed send meets a pending request, every exchange is computed with the
      time its own request was sent; the first such failure breaks it. */
  lemma {:induction false} RequestsAreTimed(start: int, passes: seq<Pass>, local: PortIdentity, domain: u8)
    requires forall i: nat :: i + 1 < |passes| ==> !Mistimes(AtTick(start, passes, i, local, domain), passes[i])
    ensures passes == [] ==> Timed(Run(start, passes, local, domain))
    ensures passes != [] ==>
      var n := |passes| - 1;
      Timed(Run(start, passes, local, domain)) <==> !Mistimes(AtTick(start, passes, n, local, domain), passes[n])
  {
    if passes != [] {
      var n := |passes| - 1;
      var before := passes[..n];
      forall i: nat | i + 1 < n || (i < n && n > 0)
        ensures before[..i] == passes[..i] && before[i] == passes[i]
      {
      }
      RequestsAreTimed(start, before, local, domain);
      if n > 0 {
        assert !Mistimes(AtTick(start, passes, n - 1, local, domain), passes[n - 1]);
      }
      var s := Run(start, before, local, domain);
      assert Timed(s);
      assert Run(start, passes, local, domain) == AfterPass(s, passes[n], local, domain);
      hide Run, AfterReceive, AfterTick, Timed, Mistimes;
      MessageKeepsRanks(s, passes[n].event, local, domain);
      ReceiveKeepsTimed(s, passes[n].event, local, domain);
      ReceiveKeepsTimed(AfterReceive(s, passes[n].event, local, domain), passes[n].general, local, domain);
      TickIsTimedIff(AtTick(start, passes, n, local, domain), passes[n]);
    }
  }

  /** An Announce and a one-step Sync of a clock whose fields are all zero. */
  function ZeroAnnounce(domain: u8): seq<u8> {
    Zeros(64)[0 := 11][1 := 2][3 := 64][4 := domain]
  }

  function ZeroSync(domain: u8): seq<u8> {
    Zeros(44)[1 := 2][3 := 44][4 := domain]
  }

  lemma {:induction false} ZerosSpellZero(s: seq<u8>)
    requires forall i :: 0 <= i < |s| ==> s[i] == 0
    ensures Value(s) == 0
  {
    if s != [] {
      ZerosSpellZero(s[..|s| - 1]);
    }
  }

  const ZERO_PORT: PortIdentity := PortIdentity(Zeros(8), 0)

  lemma ZeroHeader(bytes: seq<u8>)
    requires |bytes| >= HEADER && bytes[2] == 0 && forall i :: 5 <= i < HEADER ==> bytes[i] == 0
    ensures Get16(bytes[2..4]) == bytes[3] && Get64(bytes[8..16]) == 0
    ensures GetPort(bytes[20..30]) == ZERO_PORT && Get16(bytes[30..32]) == 0
  {
    ZerosSpellZero(bytes[8..16]);
    ZerosSpellZero(bytes[20..30][8..]);
    ZerosSpellZero(bytes[30..32]);
    ZerosSpellZero(bytes[2..3]);
    assert bytes[2..4][..1] == bytes[2..3];
    assert bytes[20..30][..8] == Zeros(8);
  }

  lemma ZeroAnnounceDecodes(domain: u8)
    ensures |ZeroAnnounce(domain)| == 64
    ensures var m := Decode(ZeroAnnounce(domain), domain);
            m.Some? && m.value.kind.Announce? && m.value.source == ZERO_PORT
  {
    ZeroHeader(ZeroAnnounce(domain));
    hide Value, Get16, Get64, GetPort;
  }

  lemma ZeroSyncDecodes(domain: u8)
    ensures |ZeroSync(domain)| == 44
    ensures Decode(ZeroSync(domain), domain)
            == Some(Message(Sync, domain, false, 0, ZERO_PORT, 0, Some(0), None, DefaultGrandmaster()))
  {
    var s := ZeroSync(domain);
    ZeroHeader(s);
    ZerosSpellZero(s[34..44][..6]);
    ZerosSpellZero(s[34..44][6..]);
    hide Value, Get16, Get64, GetPort;
  }

  /** Such a failure can happen: a master is heard, a request goes out at `t1` and stays
      unanswered, and a quarter of a second later the next one, stamped `t2`, cannot be
      sent. The first request is still awaited, now with the time of the second. */
  lemma FailedSendMistimes(start: int, now: int, t1: i64, t2: i64, local: PortIdentity, domain: u8)
    returns (passes: seq<Pass>)
    requires now > 0 && now >= start && t1 != t2
    ensures |passes| == 2 && PassTicks(passes[0]) && PassTicks(passes[1])
    ensures !Mistimes(AtTick(start, passes, 0, local, domain), passes[0])
    ensures Mistimes(AtTick(start, passes, 1, local, domain), passes[1])
    ensures var s := Run(start, passes, local, domain);
            !Timed(s) && s.pending == Some(1) && s.requestEgress == t1 && s.pendingEgress == t2
  {
    var first := Pass(Datagram(ZeroAnnounce(domain), 0, now), Datagram(ZeroSync(domain), 0, now), now, t1, true);
    var second := Pass(Nothing, Nothing, now + REQUEST_INTERVAL, t2, false);
    passes := [first, second];
    RunOfTwo(start, first, second, local, domain);
    var heard := FirstIsHeard(start, now, local, domain, first);
    var asked := AfterTick(heard, first);
    assert asked.pending == Some(1) && asked.nextDelayRequest == second.now;
    assert RequestDue(asked, second);
  }

  lemma RunOfTwo(start: int, first: Pass, second: Pass, local: PortIdentity, domain: u8)
    ensures Run(start, [first], local, domain) == AfterPass(Initial(start), first, local, domain)
    ensures Run(start, [first, second], local, domain)
            == AfterPass(Run(start, [first], local, domain), second, local, domain)
    ensures [first, second][..0] == [] && [first, second][..1] == [first]
  {
    assert [first, second][..1] == [first] && [first][..0] == [];
    hide AfterPass, AfterReceive, AfterTick;
  }

  /** Both messages of the first pass are taken. */
  lemma FirstIsHeard(start: int, now: int, local: PortIdentity, domain: u8, p: Pass) returns (heard: State)
    requires now > 0 && now >= start && p.now == now
    requires p.event == Datagram(ZeroAnnounce(domain), 0, now) && p.general == Datagram(ZeroSync(domain), 0, now)
    ensures RanksFit(AfterReceive(Initial(start), p.event, local, domain))
    ensures heard == AfterReceive(AfterReceive(Initial(start), p.event, local, domain), p.general, local, domain)
    ensures heard.pending == None && heard.delaySequence == 0 && heard.requestEgress == 0
    ensures heard.lastAnnounce == heard.lastSync == now && heard.nextDelayRequest == start
    ensures heard.master.Some? && heard.sync.Some? && heard.sync.value.origin.Some?
  {
    ZeroAnnounceDecodes(domain);
    ZeroSyncDecodes(domain);
    hide Decode, RankOf;
    MessageKeepsRanks(Initial(start), p.event, local, domain);
    heard := AfterReceive(AfterReceive(Initial(start), p.event, local, domain), p.general, local, domain);
  }

  // ----- Repeated Follow_Ups -----

  /** The Sync after some Follow_Ups. */
  function AfterFollowUps(s: State, messages: seq<Message>): State {
    if messages == [] then s else AfterFollowUp(AfterFollowUps(s, messages[..|messages| - 1]), messages[|messages| - 1])
  }

  /** What the Follow_Ups of a Sync add to its correction. */
  function Corrections(sync: SyncSample, messages: seq<Message>): int {
    if messages == [] then 0
    else
      var m := messages[|messages| - 1];
      Corrections(sync, messages[..|messages| - 1])
      + if m.source == sync.source && m.sequence == sync.sequence then m.correction else 0
  }

  /** Every Follow_Up of the Sync adds its correction, repeated ones too. */
  lemma {:induction false} CorrectionsAddUp(s: State, messages: seq<Message>)
    requires s.sync.Some?
    ensures var r := AfterFollowUps(s, messages).sync;
            && r.Some? && r.value.source == s.sync.value.source && r.value.sequence == s.sync.value.sequence
            && r.value.ingress == s.sync.value.ingress
            && r.value.correction == s.sync.value.correction + Corrections(s.sync.value, messages)
  {
    if messages != [] {
      CorrectionsAddUp(s, messages[..|messages| - 1]);
    }
  }

  /** The sum stays inside 64 bits while the Sync and `n` Follow_Ups carry corrections
      below 2^63 / (n + 1) each. */
  lemma CorrectionsFit(s: State, messages: seq<Message>, bound: nat)
    requires s.sync.Some? && Abs(s.sync.value.correction) <= bound
    requires forall i :: 0 <= i < |messages| ==> Abs(messages[i].correction) <= bound
    requires (|messages| + 1) * bound < TWO63
    ensures var r := AfterFollowUps(s, messages).sync; r.Some? && Fits64(r.value.correction)
  {
    CorrectionsAddUp(s, messages);
    CorrectionsBound(s.sync.value, messages, bound);
    assert (|messages| + 1) * bound == |messages| * bound + bound;
  }

  lemma {:induction false} CorrectionsBound(sync: SyncSample, messages: seq<Message>, bound: nat)
    requires forall i :: 0 <= i < |messages| ==> Abs(messages[i].correction) <= bound
    ensures Abs(Corrections(sync, messages)) <= |messages| * bound
  {
    if messages != [] {
      var n := |messages| - 1;
      CorrectionsBound(sync, messages[..n], bound);
      assert Abs(messages[n].correction) <= bound;
      assert (n + 1) * bound == n * bound + bound;
    }
  }

  // ----- One whole exchange -----

  /** The messages of one exchange with the current master; a one-step Sync carries its own
      time, a two-step one leaves it to the Follow_Up. */
  datatype Exchange = Exchange(sync: Message, ingress: i64, followUp: Option<Message>, pass: Pass, response: Message)

  predicate IsExchange(s: State, x: Exchange, local: PortIdentity) {
    && s.master == Some(x.sync.source) == Some(x.response.source)
    && x.sync.kind.Sync? && x.sync.timestamp.Some? && (x.sync.twoStep <==> x.followUp.Some?)
    && (x.followUp.Some? ==>
          var m := x.followUp.value;
          m.kind.FollowUp? && m.timestamp.Some? && m.source == x.sync.source && m.sequence == x.sync.sequence
          && WellFormed(m))
    && x.pass.now >= s.nextDelayRequest && x.pass.sends
    && x.response.kind.DelayResponse? && x.response.timestamp.Some?
    && x.response.requestingPort == Some(local) && x.response.sequence == Next16(s.delaySequence)
    && WellFormed(x.sync) && WellFormed(x.response)
  }

  /** When the Sync left the master. */
  function SyncOrigin(x: Exchange): Option<i64> {
    if x.followUp.Some? then x.followUp.value.timestamp else x.sync.timestamp
  }

  /** The corrections that apply to the Sync. */
  function SyncCorrection(x: Exchange): int {
    x.sync.correction + if x.followUp.Some? then x.followUp.value.correction else 0
  }

  function AfterSynchronised(s: State, x: Exchange, local: PortIdentity, now: int): State
    requires RanksFit(s) && IsExchange(s, x, local)
  {
    var synced := AfterMessage(s, x.sync, x.ingress, now, local);
    if x.followUp.None? then synced else AfterMessage(synced, x.followUp.value, 0, now, local)
  }

  lemma SyncIsComplete(s: State, x: Exchange, local: PortIdentity, now: int)
    requires RanksFit(s) && IsExchange(s, x, local)
    ensures AfterSynchronised(s, x, local, now)
            == s.(sync := Some(SyncSample(x.sync.source, x.sync.sequence, x.ingress, SyncOrigin(x), SyncCorrection(x))),
                  lastSync := now)
  {
    hide AfterAnnounce, AfterResponse;
  }

  function AfterExchange(s: State, x: Exchange, local: PortIdentity, now: int): State
    requires RanksFit(s) && IsExchange(s, x, local)
  {
    SyncIsComplete(s, x, local, now);
    AfterMessage(AfterTick(AfterSynchronised(s, x, local, now), x.pass), x.response, 0, now, local)
  }

  /** A Sync, its Follow_Up if it has one, the request and its answer over a symmetric path
      with whole-nanosecond corrections: what reaches the filter is the true offset and
      delay. */
  lemma ExchangeIsExact(s: State, x: Exchange, local: PortIdentity, now: int, offset: int, delay: int, c1: int, c2: int)
    requires RanksFit(s) && IsExchange(s, x, local) && 0 <= delay <= MAX_DELAY
    requires SyncCorrection(x) == c1 * SCALE && x.response.correction == c2 * SCALE
    requires SyncOrigin(x).Some? && x.ingress == SyncOrigin(x).value + offset + delay + c1
    requires x.response.timestamp.value == x.pass.egress - offset + delay + c2
    ensures var r := AfterExchange(s, x, local, now);
            && r.recent != [] && r.recent[|r.recent| - 1].measurement == Measurement(offset, delay)
            && r.recent[|r.recent| - 1].source == x.sync.source
            && r.filtered == Some(Filter(r.recent[|r.recent| - 1].met, offset))
  {
    SymmetricPathIsExact(SyncOrigin(x).value, x.pass.egress, offset, delay, c1, c2);
    SyncIsComplete(s, x, local, now);
    hide CalculateE2E, Filter, AfterAnnounce, AfterSynchronised;
    var followed := AfterSynchronised(s, x, local, now);
    var asked := AfterTick(followed, x.pass);
    assert asked.sync == followed.sync && asked.master == s.master;
    assert asked.pending == Some(x.response.sequence) && asked.pendingEgress == x.pass.egress;
    assert Answers(asked, x.response, local);
  }
}

/** That a lock is reached and kept (Engine/PTPClient.cpp): the other half of `PtpLock`,
    which says what a lock means. */
module PtpProgress {
  import opened Bytes
  import opened Common
  import opened PtpClients
  import opened PtpCodec
  import opened PtpLock
  import opened PtpMath

  // ----- What a tick clears -----

  /** No Announce for three seconds, or no Sync for two. */
  predicate Late(s: State, now: int) {
    || (s.lastAnnounce != NEVER && now - s.lastAnnounce >= 3_000_000_000)
    || (s.lastSync != NEVER && now - s.lastSync >= 2_000_000_000)
  }

  /** What the receptions left is cleared exactly when one of the limits is reached. */
  lemma TickClearsIffLate(s: State, p: Pass)
    ensures var r := AfterTick(s, p);
            && r.stable == (if Late(s, p.now) then 0 else s.stable)
            && (r.locked <==> s.locked && !Late(s, p.now))
            && r.offset == (if Late(s, p.now) then 0 else s.offset)
            && r.delay == (if Late(s, p.now) then 0 else s.delay)
            && r.recent == (if Late(s, p.now) then [] else s.recent)
            && r.filtered == s.filtered && r.sync == s.sync && r.master == s.master && r.masterRank == s.masterRank
            && r.lastAnnounce == s.lastAnnounce && r.lastSync == s.lastSync && r.lastValid == s.lastValid
            && r.measured == s.measured
  {
  }

  /** A request is due with a master, a complete Sync and 250 ms after the last one; then
      it is numbered, and the next one is due 250 ms later. */
  lemma TickRequestsWhenDue(s: State, p: Pass)
    ensures var r := AfterTick(s, p);
            if s.master.Some? && s.sync.Some? && s.sync.value.origin.Some? && p.now >= s.nextDelayRequest then
              && r.nextDelayRequest == p.now + 250_000_000 && r.delaySequence == Next16(s.delaySequence)
              && (p.sends ==> r.pending == Some(r.delaySequence) && r.pendingEgress == p.egress && r.requests == s.requests + 1)
              && (!p.sends ==> r.pending == s.pending && r.requests == s.requests && r.errors == Inc64(s.errors))
            else
              && r.nextDelayRequest == s.nextDelayRequest && r.delaySequence == s.delaySequence
              && r.pending == s.pending && r.pendingEgress == s.pendingEgress
              && r.requests == s.requests && r.errors == s.errors
  {
  }

  lemma ReceiveAsksNothing(s: State, r: Received, local: PortIdentity, domain: u8)
    requires RanksFit(s)
    ensures AfterReceive(s, r, local, domain).nextDelayRequest == s.nextDelayRequest
  {
    hide CalculateE2E, Filter, Decode, RankBefore, RankOf;
    if r.Datagram? {
      DecodedIsWellFormed(r.bytes, domain);
    }
  }

  lemma PassKeepsOrAsks(s: State, p: Pass, local: PortIdentity, domain: u8)
    requires RanksFit(s)
    ensures var r := AfterPass(s, p, local, domain);
            r.nextDelayRequest == s.nextDelayRequest
            || (r.nextDelayRequest == p.now + 250_000_000 && p.now >= s.nextDelayRequest)
  {
    MessageKeepsRanks(s, p.event, local, domain);
    var t := AfterReceive(s, p.event, local, domain);
    ReceiveAsksNothing(s, p.event, local, domain);
    ReceiveAsksNothing(t, p.general, local, domain);
    MessageKeepsRanks(t, p.general, local, domain);
    hide AfterReceive;
    TickRequestsWhenDue(AfterReceive(t, p.general, local, domain), p);
    hide AfterTick;
  }

  lemma DueMovesOn(s: State, p: Pass)
    requires RequestDue(s, p)
    ensures AfterTick(s, p).nextDelayRequest == p.now + 250_000_000
  {
    TickRequestsWhenDue(s, p);
    hide AfterTick;
  }

  lemma {:induction false} NextIsLater(start: int, passes: seq<Pass>, i: nat, local: PortIdentity, domain: u8)
    requires i < |passes| && RequestDue(AtTick(start, passes, i, local, domain), passes[i])
    ensures Run(start, passes, local, domain).nextDelayRequest >= passes[i].now + 250_000_000
  {
    var n := |passes| - 1;
    var before := passes[..n];
    assert before[..i] == passes[..i];
    hide RequestDue;
    RunOn(start, passes, local, domain);
    if i == n {
      var s := Run(start, before, local, domain);
      MessageKeepsRanks(s, passes[n].event, local, domain);
      hide Run, AfterReceive;
      DueMovesOn(AtTick(start, passes, n, local, domain), passes[n]);
      hide AfterTick;
    } else {
      assert AtTick(start, passes, i, local, domain) == AtTick(start, before, i, local, domain);
      hide *;
      NextIsLater(start, before, i, local, domain);
      PassKeepsOrAsks(Run(start, before, local, domain), passes[n], local, domain);
    }
  }

  /** Along every run two requests are numbered at least 250 ms apart. */
  lemma RequestsAreSpaced(start: int, passes: seq<Pass>, i: nat, j: nat, local: PortIdentity, domain: u8)
    requires i < j < |passes|
    requires RequestDue(AtTick(start, passes, i, local, domain), passes[i])
    requires RequestDue(AtTick(start, passes, j, local, domain), passes[j])
    ensures passes[j].now >= passes[i].now + 250_000_000
  {
    var before := passes[..j];
    assert before[..i] == passes[..i];
    assert AtTick(start, passes, i, local, domain) == AtTick(start, before, i, local, domain);
    var s := Run(start, before, local, domain);
    MessageKeepsRanks(s, passes[j].event, local, domain);
    ReceiveAsksNothing(s, passes[j].event, local, domain);
    ReceiveAsksNothing(AfterReceive(s, passes[j].event, local, domain), passes[j].general, local, domain);
    hide Run, AfterReceive;
    NextIsLater(start, before, i, local, domain);
  }

  /** A datagram of this version and domain is counted once, as a message or as an error;
      one too short is an error, and others are not counted. */
  lemma DatagramsAreCounted(s: State, bytes: seq<u8>, ingress: i64, now: int, local: PortIdentity, domain: u8)
    requires RanksFit(s)
    ensures var r := AfterDatagram(s, bytes, ingress, now, local, domain);
            var ours := |bytes| >= 34 && bytes[1] % 16 == 2 && bytes[4] == domain;
            && r.messages == (if ours && Decode(bytes, domain).Some? then Inc64(s.messages) else s.messages)
            && r.errors == (if |bytes| < 34 || (ours && Decode(bytes, domain).None?) then Inc64(s.errors) else s.errors)
  {
    DecodedIsWellFormed(bytes, domain);
    hide CalculateE2E, Filter, InStep, Decode, RankBefore, RankOf, Inc64;
  }

  // ----- What an answer does -----

  /** A one-step Sync brings its own time. After a two-step one no request is due and no
      answer counts before a Follow_Up has come. */
  lemma TwoStepWaits(s: State, m: Message, ingress: i64, now: int, local: PortIdentity)
    requires RanksFit(s) && WellFormed(m) && s.master == Some(m.source) && m.kind.Sync? && m.timestamp.Some?
    ensures var r := AfterMessage(s, m, ingress, now, local);
            && r.sync.Some? && r.sync.value.ingress == ingress && r.sync.value.sequence == m.sequence && r.lastSync == now
            && r.sync.value.origin == (if m.twoStep then None else m.timestamp)
            && (m.twoStep ==> forall n: Message :: !Answers(r, n, local))
            && (m.twoStep ==> forall p: Pass :: !RequestDue(r, p))
  {
  }

  /** What an answer to the pending request measures. */
  function MeasurementOf(s: State, m: Message): Option<Measurement>
    requires s.sync.Some? && s.sync.value.origin.Some? && m.timestamp.Some?
  {
    var sync := s.sync.value;
    CalculateE2E(sync.origin.value, sync.ingress, s.pendingEgress, m.timestamp.value, sync.correction, m.correction)
  }

  /** A message of the master completes an exchange exactly when it is a Delay_Resp to this
      port that names the pending request, and the Sync has its time; nothing else touches
      the request, the filter or the measurements. */
  lemma OnlyAnswersMeasure(s: State, m: Message, ingress: i64, now: int, local: PortIdentity)
    requires RanksFit(s) && WellFormed(m) && !m.kind.Announce?
    ensures var r := AfterMessage(s, m, ingress, now, local);
            if s.master == Some(m.source) && m.kind.DelayResponse? && m.timestamp.Some? && m.requestingPort == Some(local)
               && s.pending == Some(m.sequence) && s.sync.Some? && s.sync.value.origin.Some?
            then r.measured == s.measured + 1 && r.pending == None
            else r == s.(sync := r.sync, lastSync := r.lastSync)
  {
    hide CalculateE2E, Filter, InStep;
  }

  /** A measurement that exists and stays below 20 ms reaches the filter; any other one
      unlocks exactly when the last good one is two seconds old. */
  lemma AnswerIsTakenIff(s: State, m: Message, now: int, local: PortIdentity)
    requires Answers(s, m, local)
    ensures var r, x := AfterResponse(s, m, now, local), MeasurementOf(s, m);
            if x.Some? && x.value.delay <= 20_000_000 then
              && r.filtered == Some(Filter(s.filtered, x.value.offset)) && r.offset == r.filtered.value
              && r.delay == x.value.delay && r.lastValid == now
              && r.recent == s.recent + [Accepted(m.source, x.value, s.filtered)]
              && r.stable == (if InStep(s.filtered, x.value.offset) then (s.stable + 1) % TWO32 else 1)
              && (r.locked <==> r.stable >= 4 && now - s.lastAnnounce < 3_000_000_000 && now - s.lastSync < 2_000_000_000)
            else if s.lastValid != NEVER && now - s.lastValid >= 2_000_000_000 then
              r == s.(pending := None, measured := s.measured + 1,
                      stable := 0, locked := false, offset := 0, delay := 0, recent := [])
            else r == s.(pending := None, measured := s.measured + 1)
  {
    hide CalculateE2E, Filter, InStep;
  }

  // ----- Runs that go well -----

  /** The message leaves the master alone, and an answer is in time and in step. */
  predicate Steady(s: State, m: Message, now: int, local: PortIdentity)
    requires RanksFit(s) && WellFormed(m)
  {
    if m.kind.Announce? then
      s.master != Some(m.source) ==>
        && s.masterRank.Some? && !RankBefore(RankOf(m), s.masterRank.value)
        && (s.lastAnnounce == NEVER || now - s.lastAnnounce < 3_000_000_000)
    else
      s.master == Some(m.source) && Answers(s, m, local) ==>
        var x := MeasurementOf(s, m);
        && x.Some? && x.value.delay <= 20_000_000
        && (s.stable == 0 || InStep(s.filtered, x.value.offset))
        && now - s.lastAnnounce < 3_000_000_000 && now - s.lastSync < 2_000_000_000
  }

  predicate SteadyReceive(s: State, r: Received, local: PortIdentity, domain: u8)
    requires RanksFit(s)
  {
    r.Datagram? ==>
      var m := Decode(r.bytes, domain);
      DecodedIsWellFormed(r.bytes, domain);
      m.Some? ==> Steady(s.(messages := Inc64(s.messages)), m.value, r.now, local)
  }

  predicate SteadyPass(s: State, p: Pass, local: PortIdentity, domain: u8)
    requires RanksFit(s)
  {
    MessageKeepsRanks(s, p.event, local, domain);
    var t := AfterReceive(s, p.event, local, domain);
    MessageKeepsRanks(t, p.general, local, domain);
    && SteadyReceive(s, p.event, local, domain)
    && SteadyReceive(t, p.general, local, domain)
    && !Late(AfterReceive(t, p.general, local, domain), p.now)
  }

  /** A master is followed, and the lock shows exactly that four measurements count. */
  predicate Counting(s: State) {
    && RanksFit(s) && s.master.Some? && s.masterRank.Some?
    && (s.locked <==> s.stable >= 4)
    && (s.stable > 0 ==> s.filtered == Some(s.offset))
  }

  /** `n` counts on while exchanges complete, and nothing is lost in between. */
  predicate CountsOn(s: State, r: State) {
    Counting(r) && r.measured >= s.measured && r.stable == s.stable + (r.measured - s.measured)
  }

  lemma CountsAnswer(s: State, m: Message, now: int, local: PortIdentity)
    requires Counting(s) && s.stable + 1 < TWO32 && WellFormed(m) && !m.kind.Announce? && s.master == Some(m.source)
    requires Steady(s, m, now, local)
    ensures CountsOn(s, AfterResponse(s, m, now, local))
  {
    if Answers(s, m, local) {
      AnswerIsTakenIff(s, m, now, local);
    }
    hide MeasurementOf, Filter, InStep, CalculateE2E;
  }

  lemma CountsMessage(s: State, m: Message, ingress: i64, now: int, local: PortIdentity)
    requires Counting(s) && s.stable + 1 < TWO32 && WellFormed(m) && Steady(s, m, now, local)
    ensures CountsOn(s, AfterMessage(s, m, ingress, now, local))
  {
    if !m.kind.Announce? && s.master == Some(m.source) {
      CountsAnswer(s, m, now, local);
    }
    hide MeasurementOf, AfterResponse, RankOf, RankBefore, Answers;
  }

  lemma CountsReceive(s: State, r: Received, local: PortIdentity, domain: u8)
    requires Counting(s) && s.stable + 1 < TWO32 && SteadyReceive(s, r, local, domain)
    ensures CountsOn(s, AfterReceive(s, r, local, domain))
  {
    if r.Datagram? {
      DecodedIsWellFormed(r.bytes, domain);
      var m := Decode(r.bytes, domain);
      hide Decode, AfterMessage, Steady;
      if m.Some? {
        CountsMessage(s.(messages := Inc64(s.messages)), m.value, r.ingress, r.now, local);
      }
    }
  }

  lemma CountsTick(s: State, p: Pass)
    requires Counting(s) && !Late(s, p.now)
    ensures CountsOn(s, AfterTick(s, p))
  {
    TickClearsIffLate(s, p);
    hide AfterTick;
  }

  lemma CountsPass(s: State, p: Pass, local: PortIdentity, domain: u8)
    requires Counting(s) && s.stable + 2 < TWO32 && SteadyPass(s, p, local, domain)
    ensures CountsOn(s, AfterPass(s, p, local, domain))
    ensures AfterPass(s, p, local, domain).stable <= s.stable + 2
  {
    MessageKeepsRanks(s, p.event, local, domain);
    var t := AfterReceive(s, p.event, local, domain);
    MessageKeepsRanks(t, p.general, local, domain);
    var u := AfterReceive(t, p.general, local, domain);
    AtMostOne(s, p.event, local, domain);
    AtMostOne(t, p.general, local, domain);
    hide AfterReceive, SteadyReceive, Late, AfterTick;
    CountsReceive(s, p.event, local, domain);
    CountsReceive(t, p.general, local, domain);
    TickMeasuresNothing(u, p);
    CountsTick(u, p);
  }

  lemma TickMeasuresNothing(s: State, p: Pass)
    ensures AfterTick(s, p).measured == s.measured
  {
  }

  lemma AtMostOne(s: State, r: Received, local: PortIdentity, domain: u8)
    requires RanksFit(s)
    ensures AfterReceive(s, r, local, domain).measured <= s.measured + 1
  {
    hide Decode, CalculateE2E, Filter, RankOf, RankBefore;
    if r.Datagram? {
      DecodedIsWellFormed(r.bytes, domain);
    }
  }

  /** From the pass on that chose a master, as long as everything goes well: the lock is on
      at the end of a pass exactly when four exchanges were completed, and what is
      published is the filter's value. */
  lemma {:induction false} LockedIffFourMeasured(start: int, passes: seq<Pass>, chosen: nat, local: PortIdentity, domain: u8)
    requires chosen <= |passes| < 1_000_000_000
    requires var s := Run(start, passes[..chosen], local, domain);
             s.master.Some? && s.masterRank.Some? && s.stable == 0 && !s.locked
    requires forall i :: chosen <= i < |passes| ==> SteadyPass(Run(start, passes[..i], local, domain), passes[i], local, domain)
    ensures var s, r := Run(start, passes[..chosen], local, domain), Run(start, passes, local, domain);
            && CountsOn(s, r) && r.stable <= 2 * |passes|
            && (r.locked <==> r.measured - s.measured >= 4)
            && (r.locked ==> r.filtered == Some(r.offset))
    decreases |passes|
  {
    hide *;
    if chosen == |passes| {
      assert passes[..chosen] == passes;
      CountsFromNothing(Run(start, passes, local, domain));
    } else {
      var n := |passes| - 1;
      var before := passes[..n];
      assert before[..chosen] == passes[..chosen];
      forall i | chosen <= i < n
        ensures before[..i] == passes[..i] && before[i] == passes[i]
      {
      }
      LockedIffFourMeasured(start, before, chosen, local, domain);
      RunOn(start, passes, local, domain);
      var t := Run(start, before, local, domain);
      assert SteadyPass(t, passes[n], local, domain);
      CountsOnSays(Run(start, passes[..chosen], local, domain), t);
      CountsPass(t, passes[n], local, domain);
      CountsOnTwice(Run(start, passes[..chosen], local, domain), t, Run(start, passes, local, domain));
    }
    FourIsLocked(Run(start, passes[..chosen], local, domain), Run(start, passes, local, domain));
  }

  lemma RunOn(start: int, passes: seq<Pass>, local: PortIdentity, domain: u8)
    requires passes != []
    ensures var n := |passes| - 1;
            Run(start, passes, local, domain) == AfterPass(Run(start, passes[..n], local, domain), passes[n], local, domain)
  {
  }

  lemma CountsFromNothing(s: State)
    requires RanksFit(s) && s.master.Some? && s.masterRank.Some? && s.stable == 0 && !s.locked
    ensures CountsOn(s, s) && s.stable == 0
  {
  }

  lemma CountsOnSays(s: State, r: State)
    requires CountsOn(s, r)
    ensures Counting(r) && (r.stable <= 2_000_000_000 ==> r.stable + 2 < TWO32)
  {
  }

  lemma CountsOnTwice(s: State, t: State, r: State)
    requires CountsOn(s, t) && CountsOn(t, r)
    ensures CountsOn(s, r)
  {
  }

  lemma FourIsLocked(s: State, r: State)
    requires CountsOn(s, r) && s.stable == 0
    ensures r.locked <==> r.measured - s.measured >= 4
    ensures r.locked ==> r.filtered == Some(r.offset)
  {
  }

  // ----- Such a run -----

  /** A Delay_Resp of the clock of `ZeroAnnounce` to request `number` of `local`. */
  function ZeroAnswer(domain: u8, number: u8, local: PortIdentity): seq<u8> {
    Zeros(44)[0 := 9][1 := 2][3 := 54][4 := domain][31 := number] + local.clock + BigEndian(local.port, 2)
  }

  lemma ZeroAnswerParts(domain: u8, number: u8, local: PortIdentity)
    requires |local.clock| == 8
    ensures var b := ZeroAnswer(domain, number, local);
            && |b| == 54 && b[0] == 9 && b[1] == 2 && b[2] == 0 && b[3] == 54 && b[4] == domain && b[31] == number
            && b[34..44] == Zeros(10) && IsPort(b[44..54], local)
            && forall i :: 5 <= i < 34 && i != 31 ==> b[i] == 0
  {
    var b := ZeroAnswer(domain, number, local);
    assert b[44..54] == local.clock + BigEndian(local.port, 2);
    assert b[34..44] == Zeros(10);
    hide BigEndian;
  }

  lemma ZeroFields(bytes: seq<u8>, number: u8)
    requires |bytes| >= 34 && bytes[2] == 0 && bytes[31] == number && forall i :: 5 <= i < 34 && i != 31 ==> bytes[i] == 0
    ensures Get16(bytes[2..4]) == bytes[3] && Get64(bytes[8..16]) == 0
    ensures GetPort(bytes[20..30]) == ZERO_PORT && Get16(bytes[30..32]) == number
  {
    ZerosSpellZero(bytes[8..16]);
    ZerosSpellZero(bytes[20..30][8..]);
    ZerosSpellZero(bytes[2..3]);
    ZerosSpellZero(bytes[30..31]);
    assert bytes[2..4][..1] == bytes[2..3] && bytes[30..32][..1] == bytes[30..31];
    assert bytes[20..30][..8] == Zeros(8);
  }

  lemma ZeroTimestamp()
    ensures GetTimestamp(Zeros(10)) == Some(0)
  {
    ZerosSpellZero(Zeros(10)[..6]);
    ZerosSpellZero(Zeros(10)[6..]);
    hide Value;
  }

  lemma ZeroAnswerDecodes(domain: u8, number: u8, local: PortIdentity)
    requires |local.clock| == 8
    ensures |ZeroAnswer(domain, number, local)| == 54
    ensures Decode(ZeroAnswer(domain, number, local), domain)
            == Some(Message(DelayResponse, domain, false, 0, ZERO_PORT, number, Some(0), Some(local), DefaultGrandmaster()))
  {
    var b := ZeroAnswer(domain, number, local);
    ZeroAnswerParts(domain, number, local);
    ZeroFields(b, number);
    ZeroTimestamp();
    PortReadsBack(b[44..54], local);
    hide *;
    DecodesAnswer(b, domain, number, local);
  }

  lemma DecodesAnswer(b: seq<u8>, domain: u8, number: u16, local: PortIdentity)
    requires |b| == 54 && b[0] == 9 && b[1] == 2 && b[4] == domain && b[6] == 0
    requires Get16(b[2..4]) == 54 && Get64(b[8..16]) == 0 && GetPort(b[20..30]) == ZERO_PORT && Get16(b[30..32]) == number
    requires GetTimestamp(b[34..44]) == Some(0) && GetPort(b[44..54]) == local
    ensures Decode(b, domain)
            == Some(Message(DelayResponse, domain, false, 0, ZERO_PORT, number, Some(0), Some(local), DefaultGrandmaster()))
  {
    hide Get16, Get64, GetPort, GetTimestamp;
  }

  /** When request `k + 1` is sent. */
  function At(first: int, k: nat): int {
    first + k * REQUEST_INTERVAL
  }

  lemma AtNext(first: int, k: nat)
    ensures At(first, 0) == first && At(first, k + 1) == At(first, k) + REQUEST_INTERVAL
  {
  }

  /** `k` exchanges with that clock, each measuring `offset`, were completed, and request
      `k + 1` is on its way. */
  predicate Exchanged(s: State, k: u8, offset: i64, first: int, now: int) {
    && RanksFit(s) && s.master == Some(ZERO_PORT) && s.masterRank.Some?
    && s.sync == Some(SyncSample(ZERO_PORT, 0, offset, Some(0), 0))
    && s.delaySequence == k + 1 && s.pending == Some(k + 1) && s.pendingEgress == offset
    && s.nextDelayRequest == now + REQUEST_INTERVAL
    && s.lastAnnounce == first && s.lastSync == now
    && s.filtered == (if k == 0 then None else Some(offset))
    && s.stable == k && s.measured == k && s.offset == (if k == 0 then 0 else offset)
    && (s.locked <==> k >= 4)
  }

  function FirstPass(domain: u8, offset: i64, now: int): Pass {
    Pass(Datagram(ZeroAnnounce(domain), 0, now), Datagram(ZeroSync(domain), offset, now), now, offset, true)
  }

  /** The answer to request `k`, the next Sync, and a quarter of a second gone. */
  function NextPass(domain: u8, k: u8, offset: i64, local: PortIdentity, now: int): Pass {
    Pass(Datagram(ZeroAnswer(domain, k, local), 0, now), Datagram(ZeroSync(domain), offset, now), now, offset, true)
  }

  lemma FirstPassAsks(start: int, now: int, offset: i64, local: PortIdentity, domain: u8)
    requires now > 0 && now >= start
    ensures Exchanged(AfterPass(Initial(start), FirstPass(domain, offset, now), local, domain), 0, offset, now, now)
  {
    var p := FirstPass(domain, offset, now);
    MessageKeepsRanks(Initial(start), p.event, local, domain);
    MessageKeepsRanks(AfterReceive(Initial(start), p.event, local, domain), p.general, local, domain);
    hide AfterReceive, AfterTick, Exchanged;
    var heard := FirstIsTaken(start, now, offset, local, domain);
    FirstIsAsked(heard, p, offset);
  }

  lemma FirstIsTaken(start: int, now: int, offset: i64, local: PortIdentity, domain: u8) returns (heard: State)
    requires now > 0
    ensures var p := FirstPass(domain, offset, now);
            RanksFit(AfterReceive(Initial(start), p.event, local, domain))
            && heard == AfterReceive(AfterReceive(Initial(start), p.event, local, domain), p.general, local, domain)
    ensures RanksFit(heard) && heard.master == Some(ZERO_PORT) && heard.masterRank.Some?
    ensures heard.sync == Some(SyncSample(ZERO_PORT, 0, offset, Some(0), 0)) && heard.delaySequence == 0
    ensures heard.lastAnnounce == heard.lastSync == now && heard.nextDelayRequest == start
    ensures heard.filtered == None && heard.stable == heard.measured == heard.offset == 0 && !heard.locked
  {
    ZeroAnnounceDecodes(domain);
    ZeroSyncDecodes(domain);
    hide Decode, RankOf;
    var p := FirstPass(domain, offset, now);
    MessageKeepsRanks(Initial(start), p.event, local, domain);
    heard := AfterReceive(AfterReceive(Initial(start), p.event, local, domain), p.general, local, domain);
  }

  lemma FirstIsAsked(s: State, p: Pass, offset: i64)
    requires RanksFit(s) && s.master == Some(ZERO_PORT) && s.masterRank.Some?
    requires s.sync == Some(SyncSample(ZERO_PORT, 0, offset, Some(0), 0)) && s.delaySequence == 0
    requires s.lastAnnounce == s.lastSync == p.now && s.nextDelayRequest <= p.now && p.now > 0
    requires s.filtered == None && s.stable == s.measured == s.offset == 0 && !s.locked
    requires p.sends && p.egress == offset
    ensures Exchanged(AfterTick(s, p), 0, offset, p.now, p.now)
  {
  }

  /** The same once answer `k` has come. */
  predicate Answered(s: State, k: u8, offset: i64, first: int, asked: int) {
    && RanksFit(s) && s.master == Some(ZERO_PORT) && s.masterRank.Some?
    && s.sync == Some(SyncSample(ZERO_PORT, 0, offset, Some(0), 0))
    && s.delaySequence == k && s.nextDelayRequest == asked + REQUEST_INTERVAL
    && s.lastAnnounce == first && s.filtered == Some(offset)
    && s.stable == k && s.measured == k && s.offset == offset
    && (s.locked <==> k >= 4)
  }

  lemma AnswerCounts(s: State, k: u8, offset: i64, first: int, before: int, now: int, local: PortIdentity, domain: u8)
    requires Exchanged(s, k, offset, first, before) && k < 10 && |local.clock| == 8
    requires first > 0 && before == At(first, k) && now == before + REQUEST_INTERVAL
    ensures Answered(AfterReceive(s, Datagram(ZeroAnswer(domain, k + 1, local), 0, now), local, domain), k + 1, offset, first, before)
  {
    ZeroAnswerDecodes(domain, k + 1, local);
    ZeroAnswerParts(domain, k + 1, local);
    var bytes := ZeroAnswer(domain, k + 1, local);
    var m := Decode(bytes, domain).value;
    var t := s.(messages := Inc64(s.messages));
    hide Decode, ZeroAnswer;
    AnswerIsHandled(s, bytes, m, now, local, domain);
    assert Exchanged(t, k, offset, first, before);
    hide AfterReceive, AfterResponse, Exchanged, Answered;
    AnswerLands(t, m, k, offset, first, before, now, local);
  }

  lemma AnswerLands(s: State, m: Message, k: u8, offset: i64, first: int, before: int, now: int, local: PortIdentity)
    requires Exchanged(s, k, offset, first, before) && k < 10
    requires first > 0 && before == At(first, k) && now == before + REQUEST_INTERVAL
    requires m == Message(DelayResponse, m.domain, false, 0, ZERO_PORT, k + 1, Some(0), Some(local), DefaultGrandmaster())
    ensures Answered(AfterResponse(s, m, now, local), k + 1, offset, first, before)
  {
    assert MeasurementOf(s, m) == Some(Measurement(offset, 0));
    hide MeasurementOf, CalculateE2E;
    assert now - first < 3_000_000_000 && now - s.lastSync < 2_000_000_000;
    hide At;
    AnswerIsTakenIff(s, m, now, local);
    AnswerKeeps(s, m, now, local);
    hide AfterResponse;
  }

  lemma AnswerIsHandled(s: State, bytes: seq<u8>, m: Message, now: int, local: PortIdentity, domain: u8)
    requires RanksFit(s) && |bytes| >= HEADER && bytes[1] % 16 == 2 && bytes[4] == domain && Decode(bytes, domain) == Some(m)
    requires m.kind.DelayResponse? && s.master == Some(m.source)
    ensures AfterReceive(s, Datagram(bytes, 0, now), local, domain) == AfterResponse(s.(messages := Inc64(s.messages)), m, now, local)
  {
    hide Decode, AfterResponse;
  }

  lemma AnswerKeeps(s: State, m: Message, now: int, local: PortIdentity)
    ensures var r := AfterResponse(s, m, now, local);
            && r.master == s.master && r.masterRank == s.masterRank && r.sync == s.sync && r.lastAnnounce == s.lastAnnounce
            && r.lastSync == s.lastSync && r.delaySequence == s.delaySequence && r.nextDelayRequest == s.nextDelayRequest
            && r.measured == s.measured + if Answers(s, m, local) then 1 else 0
  {
    hide CalculateE2E, Filter, InStep;
  }

  lemma SyncIsTaken(s: State, k: u8, offset: i64, first: int, asked: int, now: int, local: PortIdentity, domain: u8)
    requires Answered(s, k, offset, first, asked)
    ensures var r := AfterReceive(s, Datagram(ZeroSync(domain), offset, now), local, domain);
            Answered(r, k, offset, first, asked) && r.lastSync == now
  {
    ZeroSyncDecodes(domain);
    assert ZeroSync(domain)[1] == 2 && ZeroSync(domain)[4] == domain;
    hide Decode, ZeroSync;
  }

  lemma NextIsAsked(s: State, k: u8, offset: i64, first: int, asked: int, p: Pass)
    requires Answered(s, k, offset, first, asked) && 0 < k <= 10 && s.lastSync == p.now
    requires first > 0 && asked == At(first, k - 1) && p.now == asked + REQUEST_INTERVAL
    requires p.egress == offset && p.sends
    ensures Exchanged(AfterTick(s, p), k, offset, first, p.now)
  {
  }

  lemma NextPassMeasures(s: State, k: u8, offset: i64, first: int, before: int, local: PortIdentity, domain: u8)
    requires Exchanged(s, k, offset, first, before) && k < 10 && |local.clock| == 8
    requires first > 0 && before == At(first, k)
    ensures RanksFit(s)
    ensures var now := before + REQUEST_INTERVAL;
            Exchanged(AfterPass(s, NextPass(domain, k + 1, offset, local, now), local, domain), k + 1, offset, first, now)
  {
    var now := before + REQUEST_INTERVAL;
    var p := NextPass(domain, k + 1, offset, local, now);
    MessageKeepsRanks(s, p.event, local, domain);
    var t := AfterReceive(s, p.event, local, domain);
    MessageKeepsRanks(t, p.general, local, domain);
    hide AfterReceive, AfterTick, Answered, ZeroAnswer, ZeroSync;
    AnswerCounts(s, k, offset, first, before, now, local, domain);
    SyncIsTaken(t, k + 1, offset, first, before, now, local, domain);
    NextIsAsked(AfterReceive(t, p.general, local, domain), k + 1, offset, first, before, p);
  }

  function LockingPasses(n: u8, domain: u8, offset: i64, local: PortIdentity, now: int): (r: seq<Pass>)
    ensures |r| == n + 1
  {
    if n == 0 then [FirstPass(domain, offset, now)]
    else
      LockingPasses(n - 1, domain, offset, local, now)
      + [NextPass(domain, n, offset, local, At(now, n))]
  }

  lemma {:induction false} LockingPassesMeasure(start: int, now: int, n: u8, offset: i64, local: PortIdentity, domain: u8)
    requires now > 0 && now >= start && n <= 10 && |local.clock| == 8
    ensures Exchanged(Run(start, LockingPasses(n, domain, offset, local, now), local, domain), n, offset, now, At(now, n))
  {
    var passes := LockingPasses(n, domain, offset, local, now);
    hide *;
    RunOn(start, passes, local, domain);
    LockingStep(n, domain, offset, local, now);
    if n == 0 {
      AtNext(now, 0);
      NoRun(start, local, domain);
      FirstPassAsks(start, now, offset, local, domain);
    } else {
      AtNext(now, n - 1);
      LockingPassesMeasure(start, now, n - 1, offset, local, domain);
      var s := Run(start, passes[..n], local, domain);
      NextPassMeasures(s, n - 1, offset, now, At(now, n - 1), local, domain);
    }
  }

  lemma NoRun(start: int, local: PortIdentity, domain: u8)
    ensures Run(start, [], local, domain) == Initial(start)
  {
  }

  lemma LockingStep(n: u8, domain: u8, offset: i64, local: PortIdentity, now: int)
    ensures var passes := LockingPasses(n, domain, offset, local, now);
            && |passes| == n + 1
            && if n == 0 then passes[..0] == [] && passes[0] == FirstPass(domain, offset, now)
               else
                 && passes[..n] == LockingPasses(n - 1, domain, offset, local, now)
                 && passes[n] == NextPass(domain, n, offset, local, At(now, n))
  {
    hide FirstPass, NextPass;
  }

  /** From the start: an Announce and four exchanges with its clock, a quarter of a second
      apart, given byte for byte. The client is locked and publishes their offset; one
      exchange fewer and it is not. */
  lemma LocksAfterFour(start: int, now: int, offset: i64, local: PortIdentity, domain: u8) returns (passes: seq<Pass>)
    requires now > 0 && now >= start && |local.clock| == 8
    ensures |passes| == 5 && forall i :: 0 <= i < 5 ==> PassTicks(passes[i])
    ensures var s := Run(start, passes, local, domain); s.locked && s.offset == offset && s.measured == 4
    ensures !Run(start, passes[..4], local, domain).locked
  {
    passes := LockingPasses(4, domain, offset, local, now);
    assert passes[..4] == LockingPasses(3, domain, offset, local, now);
    LockingPassesMeasure(start, now, 4, offset, local, domain);
    LockingPassesMeasure(start, now, 3, offset, local, domain);
    PassesTick(4, domain, offset, local, now);
    hide Run, LockingPasses;
  }

  lemma {:induction false} PassesTick(n: u8, domain: u8, offset: i64, local: PortIdentity, now: int)
    requires now > 0
    ensures forall i :: 0 <= i <= n ==> PassTicks(LockingPasses(n, domain, offset, local, now)[i])
  {
    if n > 0 {
      PassesTick(n - 1, domain, offset, local, now);
    }
    hide ZeroAnswer, ZeroSync, ZeroAnnounce;
  }
}

/** Announcing the banks and keeping the directory of what others announce
    (the SAP loops of Engine/LiveEngine.cpp, without their sockets). */
module Discovery {
  import opened Banks
  import opened Common
  import opened DirectoryMap
  import opened IPv4
  import opened SAP
  import opened SDP
  import opened SdpRoundTrip
  import opened SessionDirectories
  import opened Sessions
  import opened Text

  const OWN_NAME: string := "AES-Bridge-Outputs-"

  /** `validateLXToolProfile` finds nothing wrong. */
  predicate FitsProfile(s: SessionDescription) {
    && s.encoding == "L24"
    && s.sampleRate == 48000
    && SupportedChannelCount(s.channels)
    && s.packetTimeMilliseconds == 1 && s.framesPerPacket == 48
    && s.ptpDomain == 0
    && IsMulticastText(s.multicastAddress)
  }

  // ----- Receiving -----

  datatype Verdict =
    | Malformed
    | Own
    | Announced(messageHash: u16, session: SessionDescription)
    | Withdrawn(messageHash: u16, originAddress: string)

  /** What the discovery loop makes of one datagram. */
  function Interpret(bytes: seq<u8>, own: string): Verdict {
    var message := SAP.Decode(bytes);
    if message.None? || message.value.payloadType != MIME then Malformed
    else
      var session := SDP.Parse(message.value.sdp);
      if session.None? || !FitsProfile(session.value) then Malformed
      else if session.value.originAddress == own && StartsWith(session.value.name, OWN_NAME) then Own
      else if message.value.deletion then Withdrawn(message.value.messageHash, session.value.originAddress)
      else Announced(message.value.messageHash, session.value)
  }

  function OldestAllowed(now: u64, timeoutSeconds: u32): u64 {
    if now > timeoutSeconds * 1000 then now - timeoutSeconds * 1000 else 0
  }

  /** What a verdict asks of the directory. */
  ghost predicate Obeys(t: Table, v: Verdict, now: u64, u: Table) {
    match v
    case Malformed => u == t
    case Own => u == t
    case Announced(h, s) => Step(t, Upserts(h, s, now), u)
    case Withdrawn(h, origin) => Step(t, Erases(h, origin), u)
  }

  /** One turn of the discovery loop: `bytes` is empty when nothing arrived. */
  method Discover(directory: SessionDirectory, bytes: seq<u8>, own: string, now: u64, timeoutSeconds: u32)
    requires directory.Valid()
    modifies directory.slots
    ensures directory.Valid()
    ensures var expired := Younger(old(directory.Records()), OldestAllowed(now, timeoutSeconds));
            if bytes == [] then directory.Records() == expired
            else Obeys(expired, Interpret(bytes, own), now, directory.Records())
  {
    hide SAP.Decode, FitsProfile, StartsWith, SDP.Parse;
    directory.Expire(OldestAllowed(now, timeoutSeconds));
    if bytes == [] {
      return;
    }
    var message := SAP.Decode(bytes);
    if message.None? || message.value.payloadType != MIME {
      return;
    }
    var session := ParseSession(message.value.sdp);
    if session.None? || !FitsProfile(session.value) {
      return;
    }
    if session.value.originAddress == own && StartsWith(session.value.name, OWN_NAME) {
      return;
    }
    if message.value.deletion {
      directory.Erase(message.value.messageHash, session.value.originAddress);
    } else {
      directory.Upsert(message.value.messageHash, session.value, now);
    }
  }

  /** After a turn every record was seen within the timeout. */
  lemma ListedIsRecent(t: Table, v: Verdict, now: u64, timeoutSeconds: u32, u: Table, i: nat)
    requires Obeys(Younger(t, OldestAllowed(now, timeoutSeconds)), v, now, u) && i < |u| && u[i].Some?
    ensures u[i].value.lastSeen + timeoutSeconds * 1000 >= now
  {
    hide Stored;
    if v.Announced? {
      StoredNow(v.messageHash, v.session, now);
    }
  }

  lemma StoredNow(h: u16, s: SessionDescription, now: u64)
    ensures Stored(h, s, now).lastSeen == now
  {
  }

  /** A record of the one supported format. */
  predicate IsSupported(r: Record) {
    && r.sampleRate == 48_000 && r.framesPerPacket == 48 && r.channels in {1, 2, 4, 8} && r.ptpDomain == 0
  }

  ghost predicate AllSupported(t: Table) {
    forall i :: 0 <= i < |t| && t[i].Some? ==> IsSupported(t[i].value)
  }

  /** An announcement is taken up only for a 48 kHz L24 session of 1 ms packets to a
      multicast address, in clock domain 0, that this engine did not make itself. */
  lemma OnlyTheProfileIsAnnounced(bytes: seq<u8>, own: string)
    ensures var v := Interpret(bytes, own);
            && (v.Announced? ==>
                  var s := v.session;
                  && s.encoding == "L24" && s.sampleRate == 48_000 && s.channels in {1, 2, 4, 8}
                  && s.packetTimeMilliseconds == 1 && s.framesPerPacket == 48 && s.ptpDomain == 0
                  && IsMulticastText(s.multicastAddress)
                  && !(s.originAddress == own && StartsWith(s.name, "AES-Bridge-Outputs-")))
            && (v.Announced? || v.Withdrawn? || v.Own? ==> SAP.Decode(bytes).Some?)
            && (v.Announced? ==> !SAP.Decode(bytes).value.deletion && v.messageHash == SAP.Decode(bytes).value.messageHash)
            && (v.Withdrawn? ==> SAP.Decode(bytes).value.deletion && v.messageHash == SAP.Decode(bytes).value.messageHash)
  {
    hide SAP.Decode, SDP.Parse, StartsWith, IsMulticastText;
  }

  /** Whatever arrives, every record listed is of the supported format. */
  lemma ListedIsSupported(t: Table, bytes: seq<u8>, own: string, now: u64, timeoutSeconds: u32, u: Table)
    requires AllSupported(t) && Obeys(Younger(t, OldestAllowed(now, timeoutSeconds)), Interpret(bytes, own), now, u)
    ensures AllSupported(u)
  {
    var expired := Younger(t, OldestAllowed(now, timeoutSeconds));
    assert AllSupported(expired);
    OnlyTheProfileIsAnnounced(bytes, own);
    hide Interpret, Younger, OldestAllowed, StartsWith, IsMulticastText, SAP.Decode;
    match Interpret(bytes, own)
    case Malformed =>
    case Own =>
    case Announced(h, s) => UpsertKeepsSupported(expired, h, s, now, u);
    case Withdrawn(h, origin) =>
      forall i | 0 <= i < |u| && u[i].Some?
        ensures IsSupported(u[i].value)
      {
        assert u[i] == expired[i];
      }
  }

  lemma UpsertKeepsSupported(t: Table, h: u16, s: SessionDescription, now: u64, u: Table)
    requires AllSupported(t) && Step(t, Upserts(h, s, now), u)
    requires s.sampleRate == 48_000 && s.framesPerPacket == 48 && s.channels in {1, 2, 4, 8} && s.ptpDomain == 0
    ensures AllSupported(u)
  {
    assert IsSupported(Stored(h, s, now));
    hide Stored, Matches;
    var k: nat :| IsTarget(t, (h, s.originAddress), k) && u == t[k := Some(Stored(h, s, now))];
    forall i | 0 <= i < |u| && u[i].Some?
      ensures IsSupported(u[i].value)
    {
      assert u[i] == t[i] || u[i] == Some(Stored(h, s, now));
    }
  }

  // ----- Publishing -----

  /** The session `sapPublishLoop` announces for a bank. */
  function PublishedSession(c: EngineConfig, bank: nat): SessionDescription
    requires ChannelsFit(c)
  {
    var first := c.coreAudioStartChannel + bank * c.channelsPerStream;
    Start().session.(
      name := OWN_NAME + Print(first) + "-" + Print(first + c.channelsPerStream - 1),
      originAddress := c.interfaceAddress,
      sourceAddress := c.interfaceAddress,
      multicastAddress := BankAddress(c.txAddress, bank),
      port := BankPort(c.txPort, c.portStride, bank),
      payloadType := c.txPayloadType,
      channels := c.channelsPerStream)
  }

  function Announcement(c: EngineConfig, bank: nat, deletion: bool): SAPMessage
    requires ChannelsFit(c)
  {
    SAPMessage(deletion, 0, c.interfaceAddress, MIME, Generate(PublishedSession(c, bank)))
  }

  /** The bank can be announced: a numeric interface address, a multicast destination and
      a dynamic payload type. */
  predicate Publishable(c: EngineConfig, bank: nat) {
    && ChannelsFit(c) && bank < c.streamCount
    && IsAddress(c.interfaceAddress)
    && IsMulticastText(BankAddress(c.txAddress, bank))
    && c.txPayloadType <= 127
  }

  // ----- Texts are bytes -----

  lemma PrintIsNarrow(n: nat)
    ensures Narrow(Print(n))
  {
  }

  lemma AddressIsNarrow(text: string)
    requires IsAddress(text)
    ensures Narrow(text)
  {
    forall c | c in text
      ensures c as int < 256
    {
      if !IsDigit(c) && c != '.' {
        AddressIsPlain(text, c);
      }
    }
  }

  lemma HeadLinesAreNarrow(s: SessionDescription)
    requires Narrow(s.name) && Narrow(s.originAddress)
    ensures Narrow(OriginLine(s)) && Narrow(NameLine(s))
  {
  }

  lemma AddressLinesAreNarrow(s: SessionDescription)
    requires Narrow(s.multicastAddress) && Narrow(s.sourceAddress)
    ensures Narrow(ConnectionLine(s)) && Narrow(SourceFilterLine(s))
  {
    FilterIsNarrow();
    hide Narrow;
    AddressTailsAreNarrow(s);
    NarrowAppend("c=IN IP4 ", s.multicastAddress + "/32");
    NarrowAppend("a=source-filter: incl IN IP4 ", s.multicastAddress + " " + s.sourceAddress);
    assert ConnectionLine(s) == "c=IN IP4 " + (s.multicastAddress + "/32");
    assert SourceFilterLine(s) == "a=source-filter: incl IN IP4 " + (s.multicastAddress + " " + s.sourceAddress);
  }

  lemma AddressTailsAreNarrow(s: SessionDescription)
    requires Narrow(s.multicastAddress) && Narrow(s.sourceAddress)
    ensures Narrow("c=IN IP4 ") && Narrow(s.multicastAddress + "/32") && Narrow(s.multicastAddress + " " + s.sourceAddress)
  {
  }

  lemma FilterIsNarrow()
    ensures Narrow("a=source-filter: incl IN IP4 ")
  {
    KindIsNarrow();
    InclusionIsNarrow();
    hide Narrow;
    NarrowAppend("a=source-filter:", " incl IN IP4 ");
    assert "a=source-filter:" + " incl IN IP4 " == "a=source-filter: incl IN IP4 ";
  }

  lemma KindIsNarrow()
    ensures Narrow("a=source-filter:")
  {
  }

  lemma InclusionIsNarrow()
    ensures Narrow(" incl IN IP4 ")
  {
  }

  lemma MediaLinesAreNarrow(s: SessionDescription)
    requires Narrow(s.encoding)
    ensures Narrow(MediaLine(s)) && Narrow(RtpMapLine(s))
  {
    hide Print;
    PrintIsNarrow(s.port);
    PrintIsNarrow(s.payloadType);
    PrintIsNarrow(s.sampleRate);
    PrintIsNarrow(s.channels);
  }

  lemma PacketLinesAreNarrow(s: SessionDescription)
    ensures Narrow(PacketTimeLine(s)) && Narrow(FrameCountLine(s))
  {
    hide Print;
    PrintIsNarrow(s.packetTimeMilliseconds);
    PrintIsNarrow(s.framesPerPacket);
  }

  lemma ClockLineIsNarrow(s: SessionDescription)
    ensures Narrow(ReferenceClockLine(s))
  {
    PrintIsNarrow(s.ptpDomain);
    ClockIsNarrow();
    DomainIsNarrow();
    hide Narrow, Print;
    NarrowAppend(CLOCK, DOMAIN);
    NarrowAppend(CLOCK + DOMAIN, Print(s.ptpDomain));
  }

  lemma ClockIsNarrow()
    ensures Narrow(CLOCK)
  {
    var scheme, profile := "a=ts-refclk:ptp=", "IEEE1588-2008:traceable:";
    hide Narrow;
    SchemeIsNarrow();
    ProfileIsNarrow();
    NarrowAppend(scheme, profile);
    assert CLOCK == scheme + profile;
  }

  lemma SchemeIsNarrow()
    ensures Narrow("a=ts-refclk:ptp=")
  {
  }

  lemma ProfileIsNarrow()
    ensures Narrow("IEEE1588-2008:traceable:")
  {
  }

  lemma DomainIsNarrow()
    ensures Narrow(DOMAIN)
  {
  }

  lemma NarrowAppend(a: string, b: string)
    requires Narrow(a) && Narrow(b)
    ensures Narrow(a + b)
  {
  }

  lemma {:induction false} JoinedIsNarrow(lines: seq<string>)
    requires forall i :: 0 <= i < |lines| ==> Narrow(lines[i])
    ensures Narrow(Joined(lines))
  {
    if lines != [] {
      JoinedIsNarrow(lines[1..]);
      assert Narrow(lines[0]);
    }
  }

  lemma GeneratedIsNarrow(s: SessionDescription)
    requires Narrow(s.name) && Narrow(s.originAddress) && Narrow(s.multicastAddress) && Narrow(s.sourceAddress)
    requires Narrow(s.encoding)
    ensures Narrow(Generate(s))
  {
    HeadLinesAreNarrow(s);
    AddressLinesAreNarrow(s);
    MediaLinesAreNarrow(s);
    PacketLinesAreNarrow(s);
    ClockLineIsNarrow(s);
    PlainLinesAreNarrow();
    hide OriginLine, NameLine, ConnectionLine, MediaLine, RtpMapLine, PacketTimeLine, FrameCountLine,
      ReferenceClockLine, SourceFilterLine, Narrow, Joined;
    JoinedIsNarrow(Lines(s));
  }

  lemma PlainLinesAreNarrow()
    ensures Narrow("v=0") && Narrow("t=0 0") && Narrow("a=mediaclk:direct=0") && Narrow("a=sendonly")
  {
  }

  // ----- From one engine to another -----

  lemma PublishedIsWellFormed(c: EngineConfig, bank: nat)
    requires Publishable(c, bank)
    ensures var s := PublishedSession(c, bank);
            WellFormed(s) && FitsProfile(s) && StartsWith(s.name, OWN_NAME) && Narrow(Generate(s))
  {
    hide ChannelsFit, BankAddress, BankPort, Print, IsAddress, IsMulticast, Generate, Narrow, StartsWith;
    var s := PublishedSession(c, bank);
    var first := c.coreAudioStartChannel + bank * c.channelsPerStream;
    AcceptedChannels(c);
    NameIsPlain(first, first + c.channelsPerStream - 1);
    AddressIsPlain(c.interfaceAddress, ' ');
    AddressIsPlain(c.interfaceAddress, '\n');
    AddressIsNarrow(c.interfaceAddress);
    AddressIsNarrow(s.multicastAddress);
    PlainEncoding();
    assert WellFormed(s);
    GeneratedIsNarrow(s);
  }

  lemma AcceptedChannels(c: EngineConfig)
    requires ChannelsFit(c)
    ensures SupportedChannelCount(c.channelsPerStream) && c.channelsPerStream < TWO16 && c.channelsPerStream > 0
  {
  }

  lemma PlainEncoding()
    ensures Narrow("L24")
  {
  }

  lemma NameIsPlain(first: nat, last: nat)
    ensures var name := OWN_NAME + Print(first) + "-" + Print(last);
            '\n' !in name && name != [] && Narrow(name) && StartsWith(name, OWN_NAME)
  {
    hide Print;
    PrintIsPlain(first, '\n');
    PrintIsPlain(last, '\n');
    PrintIsNarrow(first);
    PrintIsNarrow(last);
    var name := OWN_NAME + Print(first) + "-" + Print(last);
    assert name[..|OWN_NAME|] == OWN_NAME;
  }

  lemma GeneratedVersion(s: SessionDescription)
    ensures StartsWith(Generate(s), "v=0")
  {
  }

  /** A well-formed session of the profile goes through both encodings and comes out as it
      went in, whatever address the message itself comes from. */
  lemma Understood(s: SessionDescription, sender: string, deletion: bool, own: string)
    requires WellFormed(s) && FitsProfile(s) && Narrow(Generate(s)) && IPv4.Parse(sender).Some?
    ensures var m := SAPMessage(deletion, 0, sender, MIME, Generate(s));
            Interpret(Encoded(m), own)
            == if s.originAddress == own && StartsWith(s.name, OWN_NAME) then Own
               else if deletion then Withdrawn(Hash(Generate(s)), s.originAddress)
               else Announced(Hash(Generate(s)), s)
  {
    var m := SAPMessage(deletion, 0, sender, MIME, Generate(s));
    assert HashOf(m) == Hash(m.sdp) && MimeOf(m) == MIME;
    hide *;
    GeneratedVersion(s);
    DecodeOfEncoded(m);
    RoundTripIffWellFormed(s);
    ReceivedFields(m, IPv4.Parse(sender).value);
    Interpreted(Encoded(m), own, Received(m, IPv4.Parse(sender).value), s);
  }

  lemma ReceivedFields(m: SAPMessage, origin: Octets)
    ensures var r := Received(m, origin);
            r.deletion == m.deletion && r.messageHash == HashOf(m) && r.payloadType == MimeOf(m) && r.sdp == m.sdp
  {
  }

  lemma Interpreted(bytes: seq<u8>, own: string, m: SAPMessage, s: SessionDescription)
    requires SAP.Decode(bytes) == Some(m) && m.payloadType == MIME && SDP.Parse(m.sdp) == Some(s) && FitsProfile(s)
    ensures Interpret(bytes, own)
            == if s.originAddress == own && StartsWith(s.name, OWN_NAME) then Own
               else if m.deletion then Withdrawn(m.messageHash, s.originAddress)
               else Announced(m.messageHash, s)
  {
    hide SAP.Decode, SDP.Parse, FitsProfile, StartsWith;
  }

  lemma PublishedFacts(c: EngineConfig, bank: nat, deletion: bool)
    requires Publishable(c, bank)
    ensures var s := PublishedSession(c, bank);
            && s.originAddress == c.interfaceAddress && IPv4.Parse(s.originAddress).Some?
            && Announcement(c, bank, deletion) == SAPMessage(deletion, 0, s.originAddress, MIME, Generate(s))
  {
    hide ChannelsFit, BankAddress, Generate, IsAddress, IsMulticast;
  }

  /** What one engine announces, any other engine reads as the same session under one
      fixed key, and its withdrawal names exactly that key. */
  lemma PublishedIsUnderstood(c: EngineConfig, bank: nat, own: string, deletion: bool)
    requires Publishable(c, bank) && own != c.interfaceAddress
    ensures ChannelsFit(c)
    ensures var s := PublishedSession(c, bank);
            Interpret(Encoded(Announcement(c, bank, deletion)), own)
            == if deletion then Withdrawn(Hash(Generate(s)), c.interfaceAddress) else Announced(Hash(Generate(s)), s)
  {
    assert ChannelsFit(c);
    hide *;
    PublishedIsWellFormed(c, bank);
    PublishedFacts(c, bank, deletion);
    Understood(PublishedSession(c, bank), c.interfaceAddress, deletion, own);
  }

  /** An engine ignores its own announcements. */
  lemma OwnIsIgnored(c: EngineConfig, bank: nat, deletion: bool)
    requires Publishable(c, bank)
    ensures ChannelsFit(c)
    ensures Interpret(Encoded(Announcement(c, bank, deletion)), c.interfaceAddress) == Own
  {
    assert ChannelsFit(c);
    hide *;
    PublishedIsWellFormed(c, bank);
    PublishedFacts(c, bank, deletion);
    Understood(PublishedSession(c, bank), c.interfaceAddress, deletion, c.interfaceAddress);
  }

  // ----- In the directory of the other engine -----

  function PublishedKey(c: EngineConfig, bank: nat): Key
    requires ChannelsFit(c)
  {
    (Hash(Generate(PublishedSession(c, bank))), c.interfaceAddress)
  }

  /** The announced fields as a record, none of them clipped. */
  function PublishedRecord(c: EngineConfig, bank: nat, now: u64): Record
    requires ChannelsFit(c)
  {
    var s := PublishedSession(c, bank);
    Record(Hash(Generate(s)), s.name, s.originAddress, s.sourceAddress, s.multicastAddress, s.port, s.channels,
           s.sampleRate, s.framesPerPacket, s.payloadType, s.ptpDomain, now)
  }

  lemma {:induction false} NothingToCut(text: string)
    requires NUL !in text
    ensures UpToNul(text) == text
  {
    if text != [] {
      assert text[0] in text && text == [text[0]] + text[1..];
      NothingToCut(text[1..]);
    }
  }

  lemma ClipKeeps(text: string, capacity: nat)
    requires NUL !in text && |text| < capacity
    ensures Clip(text, capacity) == text
  {
    NothingToCut(text);
    assert text[..|text|] == text;
  }

  lemma ShortPrint(n: nat)
    ensures n < 100 ==> |Print(n)| <= 2
    ensures n < 1000 ==> |Print(n)| <= 3
  {
  }

  lemma AddressTextIsShort(a: Octets)
    ensures |ToText(a)| <= 15
  {
    ShortPrint(a[0]);
    ShortPrint(a[1]);
    ShortPrint(a[2]);
    ShortPrint(a[3]);
    hide Print;
  }

  lemma MulticastBankIsShort(base: string, bank: nat)
    requires IsMulticastText(BankAddress(base, bank))
    ensures |BankAddress(base, bank)| <= 15
  {
    hide ToText, AddressNumber, AddressOf, IPv4.Parse;
    var parsed := IPv4.Parse(base);
    if parsed.Some? && IsMulticast(parsed.value) && bank <= 0xFFFF_FFFF - AddressNumber(parsed.value) {
      AddressTextIsShort(AddressOf(AddressNumber(parsed.value) + bank));
    }
  }

  lemma PublishedFits(c: EngineConfig, bank: nat, now: u64)
    requires Publishable(c, bank) && |c.interfaceAddress| <= 15
    ensures var s := PublishedSession(c, bank);
            Fits(s.originAddress) && Stored(Hash(Generate(s)), s, now) == PublishedRecord(c, bank, now)
  {
    var s := PublishedSession(c, bank);
    var first := c.coreAudioStartChannel + bank * c.channelsPerStream;
    var last := first + c.channelsPerStream - 1;
    BankChannelsAreSmall(c, bank);
    hide ChannelsFit, BankAddress, BankPort, IsAddress, IsMulticast, Generate, Hash, Clip;
    ShortPrint(first);
    ShortPrint(last);
    hide Print;
    PrintIsPlain(first, NUL);
    PrintIsPlain(last, NUL);
    NameHasNoNul(s.name, Print(first), Print(last));
    ClipKeeps(s.name, NAME_CAPACITY);
    AddressIsPlain(c.interfaceAddress, NUL);
    ClipKeeps(c.interfaceAddress, IPV4_CAPACITY);
    AddressIsPlain(s.multicastAddress, NUL);
    MulticastBankIsShort(c.txAddress, bank);
    ClipKeeps(s.multicastAddress, IPV4_CAPACITY);
  }

  lemma NameHasNoNul(name: string, first: string, last: string)
    requires name == OWN_NAME + first + "-" + last && NUL !in first && NUL !in last
    ensures NUL !in name && |name| == 20 + |first| + |last|
  {
  }

  lemma BankChannelsAreSmall(c: EngineConfig, bank: nat)
    requires ChannelsFit(c) && bank < c.streamCount
    ensures 0 < c.coreAudioStartChannel + bank * c.channelsPerStream <= 64
    ensures c.coreAudioStartChannel + bank * c.channelsPerStream + c.channelsPerStream - 1 <= 64
  {
    var n, count, start := c.channelsPerStream, c.streamCount, c.coreAudioStartChannel;
    assert n > 0 && start > 0 && start - 1 + count * n <= 64;
    hide *;
    Grows(bank + 1, count, n);
    Spread(bank, n);
  }

  lemma Grows(a: nat, b: nat, n: nat)
    requires a <= b
    ensures a * n <= b * n
  {
  }

  lemma Spread(a: nat, n: nat)
    ensures (a + 1) * n == a * n + n && a * n >= 0
  {
  }

  lemma ObeysAnnounced(t: Table, h: u16, s: SessionDescription, now: u64, u: Table)
    requires Obeys(t, Announced(h, s), now, u)
    ensures Step(t, Upserts(h, s, now), u)
    ensures Some(Stored(h, s, now)) in u
  {
    hide Stored, Matches;
    var k: nat :| IsTarget(t, (h, s.originAddress), k) && u == t[k := Some(Stored(h, s, now))];
    assert u[k] == Some(Stored(h, s, now));
  }

  lemma InterfaceFitsIff(c: EngineConfig)
    requires IsAddress(c.interfaceAddress)
    ensures Fits(c.interfaceAddress) <==> |c.interfaceAddress| <= 15
  {
    AddressIsPlain(c.interfaceAddress, NUL);
    ClipKeepsIff(c.interfaceAddress, IPV4_CAPACITY);
  }

  lemma PublishedOrigin(c: EngineConfig, bank: nat, now: u64)
    requires ChannelsFit(c)
    ensures PublishedRecord(c, bank, now).originAddress == PublishedSession(c, bank).originAddress == c.interfaceAddress
    ensures PublishedKey(c, bank) == (Hash(Generate(PublishedSession(c, bank))), c.interfaceAddress)
  {
  }

  /** After the announcement another engine lists the bank with every field as announced,
      exactly when the interface address is written in at most fifteen characters; then
      it is listed under one fixed key and nothing else happens to the directory. */
  lemma AnnouncementIsListed(c: EngineConfig, bank: nat, own: string, now: u64, t: Table, u: Table)
    requires Publishable(c, bank) && own != c.interfaceAddress
    requires |t| == SLOTS && Clipped(t)
    requires Obeys(t, Interpret(Encoded(Announcement(c, bank, false)), own), now, u)
    ensures Some(PublishedRecord(c, bank, now)) in u <==> |c.interfaceAddress| <= 15
    ensures |c.interfaceAddress| <= 15 && Unique(t) ==>
      && Unique(u) && MapStep(AsMap(t), Upserts(PublishedKey(c, bank).0, PublishedSession(c, bank), now), AsMap(u))
      && PublishedKey(c, bank) in AsMap(u) && AsMap(u)[PublishedKey(c, bank)] == PublishedRecord(c, bank, now)
  {
    assert ChannelsFit(c) && IsAddress(c.interfaceAddress);
    var s := PublishedSession(c, bank);
    var h := Hash(Generate(s));
    hide *;
    PublishedOrigin(c, bank, now);
    PublishedIsUnderstood(c, bank, own, false);
    ObeysAnnounced(t, h, s, now, u);
    InterfaceFitsIff(c);
    StepKeepsClipped(t, Upserts(h, s, now), u);
    if |c.interfaceAddress| <= 15 {
      PublishedFits(c, bank, now);
      if Unique(t) {
        StepRefinesMap(t, Upserts(h, s, now), u);
        KeyIsMapped(u, PublishedKey(c, bank), PublishedRecord(c, bank, now));
      }
    } else {
      LongOriginIsNotHeld(u, PublishedRecord(c, bank, now));
    }
  }

  lemma KeyIsMapped(u: Table, key: Key, r: Record)
    requires Unique(u) && Some(r) in u && KeyOf(r) == key
    ensures key in AsMap(u) && AsMap(u)[key] == r
  {
    MapHolds(u, key);
    var i :| 0 <= i < |u| && u[i] == Some(r);
    assert Matches(u[i], key);
  }

  lemma LongOriginIsNotHeld(u: Table, r: Record)
    requires Clipped(u) && !Fits(r.originAddress)
    ensures Some(r) !in u
  {
    hide Fits;
  }

  /** The withdrawal removes exactly that key, whatever the directory holds. */
  lemma WithdrawalRemovesOnlyIt(c: EngineConfig, bank: nat, own: string, now: u64, t: Table, u: Table)
    requires Publishable(c, bank) && own != c.interfaceAddress && Unique(t)
    requires Obeys(t, Interpret(Encoded(Announcement(c, bank, true)), own), now, u)
    ensures Unique(u) && AsMap(u) == AsMap(t) - {PublishedKey(c, bank)}
  {
    assert ChannelsFit(c) && PublishedKey(c, bank) == (Hash(Generate(PublishedSession(c, bank))), c.interfaceAddress);
    hide *;
    PublishedIsUnderstood(c, bank, own, true);
    ObeysWithdrawn(t, Hash(Generate(PublishedSession(c, bank))), c.interfaceAddress, now, u);
    WithoutRefinesMap(t, PublishedKey(c, bank));
  }

  lemma ObeysWithdrawn(t: Table, h: u16, origin: string, now: u64, u: Table)
    requires Obeys(t, Withdrawn(h, origin), now, u)
    ensures u == Without(t, (h, origin))
  {
  }

  // ----- A session with a long origin -----

  /** A host name of sixteen characters. */
  const STAGEBOX: string := "stagebox-7.local"

  const STAGEBOX_GROUP: string := "239.69.1.7"

  const STAGEBOX_ADDRESS: string := "10.0.0.7"

  /** A session of another device, announced under its host name. */
  function StageboxSession(): SessionDescription {
    SessionDescription("Stage", STAGEBOX, STAGEBOX_GROUP, 5004, 98, "L24", 48000, 8, 1, 48, 0, "")
  }

  lemma StageboxAddresses()
    ensures IsMulticastText(STAGEBOX_GROUP) && IPv4.Parse(STAGEBOX_ADDRESS).Some?
  {
    assert ToText([239, 69, 1, 7]) == STAGEBOX_GROUP;
    assert ToText([10, 0, 0, 7]) == STAGEBOX_ADDRESS;
    ParseOfText([239, 69, 1, 7]);
    ParseOfText([10, 0, 0, 7]);
    hide IPv4.Parse, ToText;
  }

  lemma StageboxIsNarrow()
    ensures Narrow(STAGEBOX) && NUL !in STAGEBOX && |STAGEBOX| == 16
  {
  }

  lemma StageboxIsWord()
    ensures IsWord(STAGEBOX) && IsWord("")
  {
  }

  lemma StageIsPlain()
    ensures Narrow("Stage") && '\n' !in "Stage" && "Stage" != [] && Narrow("")
  {
  }

  lemma EncodingIsPlain()
    ensures Narrow("L24") && IsWord("L24") && '/' !in "L24"
  {
  }

  lemma StageboxIsWellFormed()
    ensures var s := StageboxSession(); WellFormed(s) && FitsProfile(s) && Narrow(Generate(s)) && !Fits(s.originAddress)
  {
    hide IsMulticastText, IsAddress, IPv4.Parse, Narrow, IsWord, Generate, Clip, STAGEBOX, STAGEBOX_GROUP;
    var s := StageboxSession();
    StageboxIsNarrow();
    StageboxIsWord();
    StageIsPlain();
    EncodingIsPlain();
    StageboxAddresses();
    GroupIsNarrow(s.multicastAddress);
    ClipKeepsIff(s.originAddress, IPV4_CAPACITY);
    assert WellFormed(s);
    GeneratedIsNarrow(s);
  }

  lemma GroupIsNarrow(text: string)
    requires IsMulticastText(text)
    ensures Narrow(text)
  {
    hide Narrow, IsMulticast;
    AddressIsNarrow(text);
  }

  /** Nothing the directory keeps is older than the timeout. */
  lemma NothingExpires(t: Table, now: u64, timeoutSeconds: u32)
    requires forall i :: 0 <= i < |t| && t[i].Some? ==> t[i].value.lastSeen + timeoutSeconds * 1000 >= now
    ensures Younger(t, OldestAllowed(now, timeoutSeconds)) == t
  {
  }

  /** Two turns of the discovery loop of an engine that starts, each with the same
      announcement: the listing has the session once when its origin fits the cells, and
      twice when it does not. */
  lemma HeardTwice(s: SessionDescription, sender: string, own: string, first: u64, second: u64, timeoutSeconds: u32,
                   t: Table, u: Table, v: Table)
    requires WellFormed(s) && FitsProfile(s) && Narrow(Generate(s)) && IPv4.Parse(sender).Some?
    requires s.originAddress != own && first <= second <= first + timeoutSeconds * 1000
    requires Empty(t)
    requires var verdict := Interpret(Encoded(SAPMessage(false, 0, sender, MIME, Generate(s))), own);
             Obeys(Younger(t, OldestAllowed(first, timeoutSeconds)), verdict, first, u)
             && Obeys(Younger(u, OldestAllowed(second, timeoutSeconds)), verdict, second, v)
    ensures Unique(v) <==> Fits(s.originAddress)
    ensures |Present(v)| == if Fits(s.originAddress) then 1 else 2
  {
    var h := Hash(Generate(s));
    NothingExpires(t, first, timeoutSeconds);
    hide *;
    Understood(s, sender, false, own);
    ObeysAnnounced(t, h, s, first, u);
    FirstUpsert(t, h, s, first, u);
    OnlyThatOne(t, Stored(h, s, first), second, timeoutSeconds);
    StoredNow(h, s, first);
    ObeysAnnounced(u, h, s, second, v);
    ListedTwiceUnlessFits(h, s, first, second, t, u, v);
  }

  lemma OnlyThatOne(t: Table, r: Record, now: u64, timeoutSeconds: u32)
    requires Empty(t)
    ensures r.lastSeen + timeoutSeconds * 1000 >= now ==>
      Younger(t[0 := Some(r)], OldestAllowed(now, timeoutSeconds)) == t[0 := Some(r)]
  {
  }

  /** The directory takes every announcement. */
  lemma AnnouncementIsTaken(t: Table, h: u16, s: SessionDescription, now: u64) returns (u: Table)
    requires |t| == SLOTS
    ensures Obeys(t, Announced(h, s), now, u) && |u| == SLOTS
  {
    var k := TargetExists(t, (h, s.originAddress));
    hide Stored, Matches;
    u := t[k := Some(Stored(h, s, now))];
  }

  /** Two turns that hear the session above, given from an empty directory on: it is then
      listed twice under one key. */
  lemma StageboxIsListedTwice(own: string, first: u64, second: u64, timeoutSeconds: u32, t: Table)
    returns (bytes: seq<u8>, u: Table, v: Table)
    requires own != STAGEBOX && first <= second <= first + timeoutSeconds * 1000 && Empty(t)
    ensures Obeys(Younger(t, OldestAllowed(first, timeoutSeconds)), Interpret(bytes, own), first, u)
    ensures Obeys(Younger(u, OldestAllowed(second, timeoutSeconds)), Interpret(bytes, own), second, v)
    ensures !Unique(v) && |Present(v)| == 2
  {
    var s := StageboxSession();
    bytes := Encoded(SAPMessage(false, 0, STAGEBOX_ADDRESS, MIME, Generate(s)));
    assert s.originAddress == STAGEBOX && |t| == SLOTS;
    hide *;
    StageboxIsWellFormed();
    StageboxAddresses();
    Understood(s, STAGEBOX_ADDRESS, false, own);
    u := AnnouncementIsTaken(Younger(t, OldestAllowed(first, timeoutSeconds)), Hash(Generate(s)), s, first);
    v := AnnouncementIsTaken(Younger(u, OldestAllowed(second, timeoutSeconds)), Hash(Generate(s)), s, second);
    HeardTwice(s, STAGEBOX_ADDRESS, own, first, second, timeoutSeconds, t, u, v);
  }
}

/** What the parser makes of each line the printer writes (Core/SDP.cpp). */
module SdpLines {
  import opened Common
  import opened IPv4
  import opened SDP
  import opened Sessions
  import opened Text

  lemma Trimmed(line: string)
    ensures TrimReturn(line + ['\r']) == line
  {
  }

  lemma PrefixChar(line: string, prefix: string, j: nat)
    requires StartsWith(line, prefix) && j < |prefix|
    ensures line[j] == prefix[j]
  {
  }

  /** The third character tells most of the attribute lines apart. */
  lemma AttributeKinds(line: string)
    requires |line| > 3 && line[0] == 'a' && line[1] == '='
    ensures StartsWith(line, "a=rtpmap:") ==> KindOf(line) == RtpMap
    ensures StartsWith(line, "a=ptime:") ==> KindOf(line) == PacketTime
    ensures StartsWith(line, "a=framecount:") ==> KindOf(line) == FrameCount
    ensures StartsWith(line, "a=source-filter:") ==> KindOf(line) == SourceFilter
    ensures StartsWith(line, "a=ts-refclk:") ==> KindOf(line) == ReferenceClock
    ensures line[2] == 'm' || (line[2] == 's' && line[3] == 'e') ==> KindOf(line) == Other
  {
    if StartsWith(line, "a=rtpmap:") {
      PrefixChar(line, "a=rtpmap:", 2);
    }
    if StartsWith(line, "a=ptime:") {
      PrefixChar(line, "a=ptime:", 2);
    }
    if StartsWith(line, "a=framecount:") {
      PrefixChar(line, "a=framecount:", 2);
    }
    if StartsWith(line, "a=source-filter:") {
      PrefixChar(line, "a=source-filter:", 2);
      PrefixChar(line, "a=source-filter:", 3);
    }
    if StartsWith(line, "a=ts-refclk:") {
      PrefixChar(line, "a=ts-refclk:", 2);
    }
    hide StartsWith;
  }

  /** The first character tells the others. */
  lemma LetterKinds(line: string)
    requires |line| >= 2 && line[1] == '='
    ensures line[0] == 's' ==> KindOf(line) == Name
    ensures line[0] == 'o' ==> KindOf(line) == Origin
    ensures line[0] == 'c' ==> KindOf(line) == Connection
    ensures line[0] == 'm' ==> KindOf(line) == Media
    ensures line[0] == 'v' || line[0] == 't' ==> KindOf(line) == Other
  {
  }

  lemma Prefixed(prefix: string, body: string)
    ensures StartsWith(prefix + body, prefix) && (prefix + body)[|prefix|..] == body
  {
  }

  /** A word and the space after it come off the front. */
  lemma SplitWord(word: string, rest: string, text: string)
    requires ' ' !in word
    ensures Split(word + [' '] + rest + text, ' ') == [word] + Split(rest + text, ' ')
  {
    SplitFirst(word, ' ', rest + text);
    assert word + [' '] + rest + text == word + [' '] + (rest + text);
  }

  lemma SplitAddressType(text: string)
    ensures Split("IN IP4 " + text, ' ') == ["IN", "IP4"] + Split(text, ' ')
  {
    hide Split;
    assert "IN IP4 " == "IN" + [' '] + "IP4 ";
    assert "IP4 " == "IP4" + [' '] + "";
    SplitWord("IN", "IP4 ", text);
    SplitWord("IP4", "", text);
    assert "" + text == text;
  }

  lemma SplitOrigin(text: string)
    requires ' ' !in text
    ensures Split("- 1 1 IN IP4 " + text, ' ') == ["-", "1", "1", "IN", "IP4", text]
  {
    hide Split;
    assert "- 1 1 IN IP4 " == "-" + [' '] + "1 1 IN IP4 ";
    assert "1 1 IN IP4 " == "1" + [' '] + "1 IN IP4 ";
    assert "1 IN IP4 " == "1" + [' '] + "IN IP4 ";
    SplitWord("-", "1 1 IN IP4 ", text);
    SplitWord("1", "1 IN IP4 ", text);
    SplitWord("1", "IN IP4 ", text);
    SplitAddressType(text);
    SplitLast(text, ' ');
  }

  lemma Tagged(tag: string, prefix: string, body: string, line: string)
    requires |tag| == 2 && line == tag + prefix + body
    ensures |line| >= 2 && line[0] == tag[0] && line[1] == tag[1] && line[2..] == prefix + body
  {
  }

  lemma ReadsOrigin(p: Progress, s: SessionDescription)
    requires ' ' !in s.originAddress
    ensures AfterLine(p, OriginLine(s) + ['\r']) == Some(p.(session := p.session.(originAddress := s.originAddress)))
  {
    var line := OriginLine(s);
    assert "o=- 1 1 IN IP4 " == "o=" + "- 1 1 IN IP4 ";
    Tagged("o=", "- 1 1 IN IP4 ", s.originAddress, line);
    hide Split, KindOf, TrimReturn, OriginLine;
    Trimmed(line);
    LetterKinds(line);
    SplitOrigin(s.originAddress);
  }

  lemma ReadsName(p: Progress, s: SessionDescription)
    ensures AfterLine(p, NameLine(s) + ['\r']) == Some(p.(session := p.session.(name := s.name)))
  {
  }

  lemma ReadsConnection(p: Progress, s: SessionDescription)
    requires IsAddress(s.multicastAddress)
    ensures AfterLine(p, ConnectionLine(s) + ['\r']) == Some(p.(session := p.session.(multicastAddress := s.multicastAddress)))
  {
    hide Split, IndexOf, KindOf, TrimReturn, IsAddress, ConnectionLine;
    var line, last := ConnectionLine(s), s.multicastAddress + ['/'] + "32";
    ConnectionShape(s);
    Tagged("c=", "IN IP4 ", last, line);
    Trimmed(line);
    LetterKinds(line);
    AddressIsPlain(s.multicastAddress, ' ');
    AddressIsPlain(s.multicastAddress, '/');
    SplitAddressType(last);
    SplitLast(last, ' ');
    IndexOfFirst(s.multicastAddress, '/', "32");
    assert last[..|s.multicastAddress|] == s.multicastAddress;
  }

  lemma ConnectionShape(s: SessionDescription)
    ensures ConnectionLine(s) == "c=" + "IN IP4 " + (s.multicastAddress + ['/'] + "32")
  {
  }

  lemma ReadsMedia(p: Progress, s: SessionDescription)
    requires s.payloadType <= 127
    ensures AfterLine(p, MediaLine(s) + ['\r'])
            == Some(p.(session := p.session.(port := s.port, payloadType := s.payloadType), sawMedia := true))
  {
    hide Split, IndexOf, KindOf, TrimReturn, ParseNumber, MediaLine, Print;
    var line, port, payload := MediaLine(s), Print(s.port), Print(s.payloadType);
    var tail := "RTP/AVP" + [' '] + payload;
    MediaShape(s);
    Tagged("m=", "audio" + [' '], port + [' '] + tail, line);
    Trimmed(line);
    LetterKinds(line);
    PrintIsPlain(s.port, ' ');
    PrintIsPlain(s.payloadType, ' ');
    SplitFirst("audio", ' ', port + [' '] + tail);
    SplitFirst(port, ' ', tail);
    SplitFirst("RTP/AVP", ' ', payload);
    SplitLast(payload, ' ');
    ParseOfPrint(s.port);
    ParseOfPrint(s.payloadType);
  }

  lemma MediaShape(s: SessionDescription)
    ensures MediaLine(s)
            == "m=" + ("audio" + [' ']) + (Print(s.port) + [' '] + ("RTP/AVP" + [' '] + Print(s.payloadType)))
  {
  }

  lemma FormatSplits(encoding: string, rate: string, channels: string)
    requires '/' !in encoding && '/' !in rate && '/' !in channels
    ensures Split(encoding + ['/'] + (rate + ['/'] + channels), '/') == [encoding, rate, channels]
  {
    hide Split, IndexOf;
    SplitLast(channels, '/');
    SplitFirst(rate, '/', channels);
    SplitFirst(encoding, '/', rate + ['/'] + channels);
  }

  lemma ReadsFormat(t: SessionDescription, payloadType: u8, encoding: string, rate: u32, channels: u16)
    requires t.payloadType == payloadType <= 127 && ' ' !in encoding && '/' !in encoding
    ensures AfterRtpMap(t, Print(payloadType) + [' '] + (encoding + ['/'] + (Print(rate) + ['/'] + Print(channels))))
            == Some(t.(encoding := encoding, sampleRate := rate, channels := channels))
  {
    hide Split, IndexOf, Print, ParseNumber;
    var format := encoding + ['/'] + (Print(rate) + ['/'] + Print(channels));
    PrintIsPlain(payloadType, ' ');
    PrintIsPlain(rate, ' ');
    PrintIsPlain(channels, ' ');
    PrintIsPlain(rate, '/');
    PrintIsPlain(channels, '/');
    FormatSplits(encoding, Print(rate), Print(channels));
    SplitLast(format, ' ');
    SplitFirst(Print(payloadType), ' ', format);
    ParseOfPrint(payloadType);
    ParseOfPrint(rate);
    ParseOfPrint(channels);
  }

  lemma ReadsRtpMap(p: Progress, s: SessionDescription)
    requires s.payloadType <= 127 && p.session.payloadType == s.payloadType
    requires ' ' !in s.encoding && '/' !in s.encoding
    ensures AfterLine(p, RtpMapLine(s) + ['\r'])
            == Some(p.(session := p.session.(encoding := s.encoding, sampleRate := s.sampleRate, channels := s.channels),
                       sawRtpMap := true))
  {
    var line := RtpMapLine(s);
    Trimmed(line);
    hide TrimReturn, Print, AfterRtpMap;
    var format := s.encoding + ['/'] + (Print(s.sampleRate) + ['/'] + Print(s.channels));
    var body := Print(s.payloadType) + [' '] + format;
    assert line == "a=rtpmap:" + body;
    Prefixed("a=rtpmap:", body);
    AttributeKinds(line);
    hide KindOf, StartsWith, RtpMapLine;
    ReadsFormat(p.session, s.payloadType, s.encoding, s.sampleRate, s.channels);
  }

  lemma ReadsPacketTime(p: Progress, s: SessionDescription)
    ensures AfterLine(p, PacketTimeLine(s) + ['\r'])
            == Some(p.(session := p.session.(packetTimeMilliseconds := s.packetTimeMilliseconds)))
  {
    var line := PacketTimeLine(s);
    Trimmed(line);
    hide TrimReturn, Print, ParseNumber;
    Prefixed("a=ptime:", Print(s.packetTimeMilliseconds));
    AttributeKinds(line);
    ParseOfPrint(s.packetTimeMilliseconds);
  }

  lemma ReadsFrameCount(p: Progress, s: SessionDescription)
    ensures AfterLine(p, FrameCountLine(s) + ['\r'])
            == Some(p.(session := p.session.(framesPerPacket := s.framesPerPacket)))
  {
    var line := FrameCountLine(s);
    Trimmed(line);
    hide TrimReturn, Print, ParseNumber;
    Prefixed("a=framecount:", Print(s.framesPerPacket));
    AttributeKinds(line);
    ParseOfPrint(s.framesPerPacket);
  }

  lemma ReadsReferenceClock(p: Progress, s: SessionDescription)
    requires s.ptpDomain <= 127
    ensures AfterLine(p, ReferenceClockLine(s) + ['\r']) == Some(p.(session := p.session.(ptpDomain := s.ptpDomain)))
  {
    hide TrimReturn, Find, ParseNumber, ReferenceClockLine, StartsWith, Print;
    var line, domain := ReferenceClockLine(s), Print(s.ptpDomain);
    ReferenceClockShape(s);
    Prefixed("a=ts-refclk:", CLOCK[12..] + DOMAIN + domain);
    Trimmed(line);
    AttributeKinds(line);
    hide KindOf;
    NoDomainBefore();
    FindFirst(CLOCK, DOMAIN, domain);
    Prefixed(CLOCK + DOMAIN, domain);
    ParseOfPrint(s.ptpDomain);
  }

  lemma ReferenceClockShape(s: SessionDescription)
    ensures var line := ReferenceClockLine(s);
            line == "a=ts-refclk:" + (CLOCK[12..] + DOMAIN + Print(s.ptpDomain)) && |line| > 3 && line[0] == 'a' && line[1] == '='
    ensures ReferenceClockLine(s) == CLOCK + DOMAIN + Print(s.ptpDomain)
  {
    hide Print;
    assert CLOCK == "a=ts-refclk:" + CLOCK[12..];
    Regrouped("a=ts-refclk:", CLOCK[12..], DOMAIN, Print(s.ptpDomain));
  }

  lemma Regrouped(a: string, b: string, c: string, d: string)
    ensures (a + b) + c + d == a + (b + c + d)
  {
  }

  lemma NoDomainBefore()
    ensures DOMAIN[0] !in CLOCK
  {
  }

  lemma ReadsSourceFilter(p: Progress, s: SessionDescription)
    requires IsAddress(s.multicastAddress) && ' ' !in s.sourceAddress
    ensures AfterLine(p, SourceFilterLine(s) + ['\r']) == Some(p.(session := p.session.(sourceAddress := s.sourceAddress)))
  {
    hide TrimReturn, Split, IndexOf, IsAddress, StartsWith, SourceFilterLine, KindOf, TrimSpaces;
    var line, tail := SourceFilterLine(s), s.multicastAddress + [' '] + s.sourceAddress;
    SourceFilterShape(s);
    Prefixed("a=source-filter:", " incl IN IP4 " + tail);
    Trimmed(line);
    AttributeKinds(line);
    SplitFilter(tail);
    AddressIsPlain(s.multicastAddress, ' ');
    SplitFirst(s.multicastAddress, ' ', s.sourceAddress);
    SplitLast(s.sourceAddress, ' ');
  }

  lemma SourceFilterShape(s: SessionDescription)
    ensures var line, tail := SourceFilterLine(s), s.multicastAddress + [' '] + s.sourceAddress;
            line == "a=source-filter:" + (" incl IN IP4 " + tail) && |line| > 3 && line[0] == 'a' && line[1] == '='
  {
  }

  lemma SplitFilter(text: string)
    ensures Split(TrimSpaces(" incl IN IP4 " + text), ' ') == ["incl", "IN", "IP4"] + Split(text, ' ')
  {
    hide Split;
    var trimmed := "incl IN IP4 " + text;
    assert (" incl IN IP4 " + text)[1..] == trimmed;
    assert trimmed[0] == 'i';
    assert TrimSpaces(" incl IN IP4 " + text) == trimmed;
    assert "incl IN IP4 " == "incl" + [' '] + "IN IP4 ";
    SplitWord("incl", "IN IP4 ", text);
    SplitAddressType(text);
  }

  lemma ReadsOther(p: Progress)
    ensures AfterLine(p, "v=0" + ['\r']) == Some(p)
    ensures AfterLine(p, "t=0 0" + ['\r']) == Some(p)
    ensures AfterLine(p, "a=mediaclk:direct=0" + ['\r']) == Some(p)
    ensures AfterLine(p, "a=sendonly" + ['\r']) == Some(p)
    ensures AfterLine(p, "") == Some(p)
  {
    hide TrimReturn, StartsWith;
    Trimmed("v=0");
    Trimmed("t=0 0");
    LetterKinds("v=0");
    LetterKinds("t=0 0");
    ReadsOtherAttributes(p);
    ReadsEmpty(p);
  }

  lemma ReadsOtherAttributes(p: Progress)
    ensures AfterLine(p, "a=mediaclk:direct=0" + ['\r']) == Some(p)
    ensures AfterLine(p, "a=sendonly" + ['\r']) == Some(p)
  {
    hide TrimReturn, StartsWith, KindOf;
    Trimmed("a=mediaclk:direct=0");
    Trimmed("a=sendonly");
    AttributeKinds("a=mediaclk:direct=0");
    AttributeKinds("a=sendonly");
  }

  lemma ReadsEmpty(p: Progress)
    ensures AfterLine(p, "") == Some(p)
  {
  }

  // ----- Lines other programs write -----

  /** A line may end with a line feed alone. */
  lemma ReturnIsOptional(p: Progress, line: string)
    requires line == [] || line[|line| - 1] != '\r'
    ensures AfterLine(p, line) == AfterLine(p, line + ['\r'])
  {
    Trimmed(line);
    hide KindOf;
  }

  /** A format line without a channel count means one channel. */
  lemma OneChannelByDefault(t: SessionDescription, payloadType: u8, encoding: string, rate: u32)
    requires t.payloadType == payloadType <= 127 && ' ' !in encoding && '/' !in encoding
    ensures AfterRtpMap(t, Print(payloadType) + [' '] + (encoding + ['/'] + Print(rate)))
            == Some(t.(encoding := encoding, sampleRate := rate, channels := 1))
  {
    hide Split, IndexOf, Print, ParseNumber;
    var format := encoding + ['/'] + Print(rate);
    PrintIsPlain(payloadType, ' ');
    PrintIsPlain(rate, ' ');
    PrintIsPlain(rate, '/');
    SplitLast(Print(rate), '/');
    SplitFirst(encoding, '/', Print(rate));
    SplitLast(format, ' ');
    SplitFirst(Print(payloadType), ' ', format);
    ParseOfPrint(payloadType);
    ParseOfPrint(rate);
  }

  /** A format line for another payload type than that of the media line is an error. */
  lemma FormatOfOtherType(t: SessionDescription, payloadType: u32, format: string)
    requires payloadType != t.payloadType && ' ' !in format
    ensures AfterRtpMap(t, Print(payloadType) + [' '] + format) == None
  {
    hide Split, IndexOf, Print, ParseNumber;
    PrintIsPlain(payloadType, ' ');
    SplitLast(format, ' ');
    SplitFirst(Print(payloadType), ' ', format);
    ParseOfPrint(payloadType);
  }

  /** A connection address without a lifetime is read as it stands. */
  lemma AddressWithoutLifetime(s: SessionDescription, address: string)
    requires ' ' !in address && '/' !in address
    ensures AfterConnection(s, "IN IP4 " + address) == s.(multicastAddress := address)
  {
    SplitAddressType(address);
    SplitLast(address, ' ');
    hide Split;
    IndexOfFirst(address, '/', "");
    assert address[..|address|] == address;
  }

  /** A media line of four words is taken exactly when it is RTP audio with a port and a
      payload type in range. */
  lemma MediaAccepts(s: SessionDescription, kind: string, port: string, profile: string, format: string)
    requires ' ' !in kind && ' ' !in port && ' ' !in profile && ' ' !in format
    ensures var r := AfterMedia(s, kind + [' '] + (port + [' '] + (profile + [' '] + format)));
            var p, t := ParseNumber(port), ParseNumber(format);
            if kind == "audio" && profile == "RTP/AVP" && p.Some? && p.value <= 65535 && t.Some? && t.value <= 127
            then r == Some(s.(port := p.value, payloadType := t.value))
            else r == None
  {
    hide Split, ParseNumber;
    SplitLast(format, ' ');
    SplitFirst(profile, ' ', format);
    SplitFirst(port, ' ', profile + [' '] + format);
    SplitFirst(kind, ' ', port + [' '] + (profile + [' '] + format));
    assert Split(kind + [' '] + (port + [' '] + (profile + [' '] + format)), ' ') == [kind, port, profile, format];
  }

  ghost predicate HasLine(lines: seq<string>, kind: Kind) {
    exists i :: 0 <= i < |lines| && KindOf(TrimReturn(lines[i])) == kind
  }

  lemma HasLineLater(lines: seq<string>, kind: Kind)
    requires lines != [] && HasLine(lines[1..], kind)
    ensures HasLine(lines, kind)
  {
    hide KindOf, TrimReturn;
    var i :| 0 <= i < |lines| - 1 && KindOf(TrimReturn(lines[1..][i])) == kind;
    assert lines[i + 1] == lines[1..][i];
  }

  lemma SawOne(p: Progress, line: string)
    ensures var q := AfterLine(p, line);
            q.Some? ==>
              && (q.value.sawMedia <==> p.sawMedia || KindOf(TrimReturn(line)) == Media)
              && (q.value.sawRtpMap <==> p.sawRtpMap || KindOf(TrimReturn(line)) == RtpMap)
  {
    hide KindOf, TrimReturn, AfterOrigin, AfterConnection, AfterMedia, AfterRtpMap, AfterPacketTime, AfterFrameCount,
      AfterSourceFilter, AfterReferenceClock;
  }

  lemma {:induction false} SawLines(p: Progress, lines: seq<string>)
    ensures var q := AfterLines(p, lines);
            q.Some? ==>
              && (q.value.sawMedia ==> p.sawMedia || HasLine(lines, Media))
              && (q.value.sawRtpMap ==> p.sawRtpMap || HasLine(lines, RtpMap))
    decreases |lines|
  {
    hide AfterLine, KindOf, TrimReturn;
    if lines != [] {
      SawOne(p, lines[0]);
      var q := AfterLine(p, lines[0]);
      if q.Some? {
        SawLines(q.value, lines[1..]);
        if HasLine(lines[1..], Media) {
          HasLineLater(lines, Media);
        }
        if HasLine(lines[1..], RtpMap) {
          HasLineLater(lines, RtpMap);
        }
      }
    }
  }

  /** A text without a media line, or without a format line, is no session. */
  lemma ParsedHasBothLines(text: string)
    requires SDP.Parse(text).Some?
    ensures HasLine(Split(text, '\n'), Media) && HasLine(Split(text, '\n'), RtpMap)
    ensures SDP.Parse(text).value.name != [] && IsMulticastText(SDP.Parse(text).value.multicastAddress)
  {
    SawLines(Start(), Split(text, '\n'));
    hide AfterLines, HasLine, Split, IsMulticastText;
  }
}

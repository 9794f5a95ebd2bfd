/** Which sessions survive printing and parsing (Core/SDP.cpp). */
module SdpRoundTrip {
  import opened Common
  import opened IPv4
  import opened SDP
  import opened SdpLines
  import opened Sessions
  import opened Text

  /** Free of the characters that would end the field early. */
  predicate IsWord(text: string) {
    ' ' !in text && '\n' !in text
  }

  predicate WellFormed(s: SessionDescription) {
    && s.name != [] && '\n' !in s.name
    && IsWord(s.originAddress) && IsWord(s.sourceAddress)
    && IsWord(s.encoding) && '/' !in s.encoding
    && IsMulticastText(s.multicastAddress)
    && s.payloadType <= 127 && s.ptpDomain <= 127
  }

  // ----- Lines in, lines out -----

  /** Parsing printed lines one after the other. */
  function AfterPrinted(p: Progress, lines: seq<string>): Option<Progress>
    decreases |lines|
  {
    if lines == [] then Some(p)
    else
      var q := AfterLine(p, lines[0] + ['\r']);
      if q.None? then None else AfterPrinted(q.value, lines[1..])
  }

  lemma {:induction false} SplitJoined(p: Progress, lines: seq<string>)
    requires forall i :: 0 <= i < |lines| ==> '\n' !in lines[i]
    ensures AfterLines(p, Split(Joined(lines), '\n')) == AfterPrinted(p, lines)
    decreases |lines|
  {
    hide AfterLine, Split;
    if lines == [] {
      SplitLast("", '\n');
      ReadsEmpty(p);
      assert [""][1..] == [];
    } else {
      var line, rest := lines[0] + ['\r'], Joined(lines[1..]);
      assert Joined(lines) == line + ['\n'] + rest;
      SplitFirst(line, '\n', rest);
      var parts := Split(rest, '\n');
      assert ([line] + parts)[1..] == parts;
      var q := AfterLine(p, line);
      if q.Some? {
        SplitJoined(q.value, lines[1..]);
      }
    }
  }

  lemma OnePrinted(p: Progress, line: string, rest: seq<string>, q: Progress)
    requires AfterLine(p, line + ['\r']) == Some(q)
    ensures AfterPrinted(p, [line] + rest) == AfterPrinted(q, rest)
  {
  }

  lemma HeadLinesAreLines(s: SessionDescription)
    requires WellFormed(s)
    ensures '\n' !in OriginLine(s) && '\n' !in NameLine(s) && '\n' !in ConnectionLine(s) && '\n' !in SourceFilterLine(s)
  {
    hide IsAddress;
    AddressIsPlain(s.multicastAddress, '\n');
  }

  lemma MediaLinesAreLines(s: SessionDescription)
    requires WellFormed(s)
    ensures '\n' !in MediaLine(s) && '\n' !in RtpMapLine(s)
  {
  }

  lemma ClockLinesAreLines(s: SessionDescription)
    ensures '\n' !in PacketTimeLine(s) && '\n' !in FrameCountLine(s)
  {
    hide Print;
    PrintIsPlain(s.packetTimeMilliseconds, '\n');
    PrintIsPlain(s.framesPerPacket, '\n');
  }

  lemma ReferenceClockLineIsLine(s: SessionDescription)
    ensures '\n' !in ReferenceClockLine(s)
  {
    PrintIsPlain(s.ptpDomain, '\n');
    ClockIsOneLine();
    hide Print;
  }

  lemma ClockIsOneLine()
    ensures '\n' !in CLOCK && '\n' !in DOMAIN
  {
  }

  lemma LinesAreLines(s: SessionDescription)
    requires WellFormed(s)
    ensures forall i :: 0 <= i < |Lines(s)| ==> '\n' !in Lines(s)[i]
  {
    HeadLinesAreLines(s);
    MediaLinesAreLines(s);
    ClockLinesAreLines(s);
    ReferenceClockLineIsLine(s);
    hide OriginLine, NameLine, ConnectionLine, MediaLine, RtpMapLine, PacketTimeLine, FrameCountLine,
      ReferenceClockLine, SourceFilterLine, WellFormed;
  }

  /** The printed lines, one after the other. */
  function Tail(s: SessionDescription): seq<string> {
    if s.sourceAddress != [] then [SourceFilterLine(s)] + ["a=sendonly"] else ["a=sendonly"]
  }

  lemma LinesInOrder(s: SessionDescription)
    ensures Lines(s) == ["v=0"] + ([OriginLine(s)] + ([NameLine(s)] + ([ConnectionLine(s)] + (["t=0 0"] + MediaLines(s)))))
  {
    hide OriginLine, NameLine, ConnectionLine, MediaLine, RtpMapLine, PacketTimeLine, FrameCountLine,
      ReferenceClockLine, SourceFilterLine;
  }

  function MediaLines(s: SessionDescription): seq<string> {
    [MediaLine(s)] + ([RtpMapLine(s)] + ([PacketTimeLine(s)] + ([FrameCountLine(s)] + ([ReferenceClockLine(s)]
    + (["a=mediaclk:direct=0"] + Tail(s))))))
  }

  lemma ParsesTail(p: Progress, s: SessionDescription)
    requires WellFormed(s)
    requires p.session.sourceAddress == []
    ensures AfterPrinted(p, Tail(s)) == Some(p.(session := p.session.(sourceAddress := s.sourceAddress)))
  {
    hide AfterLine;
    ReadsOther(p);
    if s.sourceAddress != [] {
      hide SourceFilterLine, IsMulticast;
      var q := p.(session := p.session.(sourceAddress := s.sourceAddress));
      ReadsSourceFilter(p, s);
      OnePrinted(p, SourceFilterLine(s), ["a=sendonly"], q);
      ReadsOther(q);
      assert ["a=sendonly"] == ["a=sendonly"] + [];
      OnePrinted(q, "a=sendonly", [], q);
    } else {
      assert ["a=sendonly"] == ["a=sendonly"] + [];
      OnePrinted(p, "a=sendonly", [], p);
    }
  }

  lemma ParsesMediaLines(p: Progress, s: SessionDescription)
    requires WellFormed(s)
    requires p.session == Start().session.(name := s.name, originAddress := s.originAddress, multicastAddress := s.multicastAddress)
    ensures AfterPrinted(p, MediaLines(s)) == Some(Progress(s, true, true))
  {
    var p1 := p.(session := p.session.(port := s.port, payloadType := s.payloadType), sawMedia := true);
    var p2 := p1.(session := p1.session.(encoding := s.encoding, sampleRate := s.sampleRate, channels := s.channels),
                  sawRtpMap := true);
    var p3 := p2.(session := p2.session.(packetTimeMilliseconds := s.packetTimeMilliseconds));
    var p4 := p3.(session := p3.session.(framesPerPacket := s.framesPerPacket));
    var p5 := p4.(session := p4.session.(ptpDomain := s.ptpDomain));
    hide AfterLine, AfterPrinted, MediaLine, RtpMapLine, PacketTimeLine, FrameCountLine, ReferenceClockLine,
      SourceFilterLine, IsMulticastText, Tail;
    var t1 := ["a=mediaclk:direct=0"] + Tail(s);
    var t2 := [ReferenceClockLine(s)] + t1;
    var t3 := [FrameCountLine(s)] + t2;
    var t4 := [PacketTimeLine(s)] + t3;
    var t5 := [RtpMapLine(s)] + t4;
    ReadsMedia(p, s);
    ReadsRtpMap(p1, s);
    ReadsPacketTime(p2, s);
    ReadsFrameCount(p3, s);
    ReadsReferenceClock(p4, s);
    ReadsOther(p5);
    OnePrinted(p, MediaLine(s), t5, p1);
    OnePrinted(p1, RtpMapLine(s), t4, p2);
    OnePrinted(p2, PacketTimeLine(s), t3, p3);
    OnePrinted(p3, FrameCountLine(s), t2, p4);
    OnePrinted(p4, ReferenceClockLine(s), t1, p5);
    OnePrinted(p5, "a=mediaclk:direct=0", Tail(s), p5);
    ParsesTail(p5, s);
  }

  lemma ParsesLines(s: SessionDescription)
    requires WellFormed(s)
    ensures AfterPrinted(Start(), Lines(s)) == Some(Progress(s, true, true))
  {
    var p := Start();
    var p1 := p.(session := p.session.(originAddress := s.originAddress));
    var p2 := p1.(session := p1.session.(name := s.name));
    var p3 := p2.(session := p2.session.(multicastAddress := s.multicastAddress));
    assert p3.session == Start().session.(name := s.name, originAddress := s.originAddress, multicastAddress := s.multicastAddress);
    assert IsAddress(s.multicastAddress);
    hide AfterLine, AfterPrinted, OriginLine, NameLine, ConnectionLine, MediaLines, IsMulticastText, Lines, Start, IsAddress;
    var t1 := ["t=0 0"] + MediaLines(s);
    var t2 := [ConnectionLine(s)] + t1;
    var t3 := [NameLine(s)] + t2;
    LinesInOrder(s);
    ReadsOther(p);
    ReadsOrigin(p, s);
    ReadsName(p1, s);
    ReadsConnection(p2, s);
    ReadsOther(p3);
    OnePrinted(p, "v=0", [OriginLine(s)] + t3, p);
    OnePrinted(p, OriginLine(s), t3, p1);
    OnePrinted(p1, NameLine(s), t2, p2);
    OnePrinted(p2, ConnectionLine(s), t1, p3);
    OnePrinted(p3, "t=0 0", MediaLines(s), p3);
    ParsesMediaLines(p3, s);
  }

  lemma WellFormedRoundTrips(s: SessionDescription)
    requires WellFormed(s)
    ensures SDP.Parse(Generate(s)) == Some(s)
  {
    ParsesLines(s);
    LinesAreLines(s);
    SplitJoined(Start(), Lines(s));
    hide AfterPrinted, Lines, Joined, Start, Split, AfterLines, IsMulticastText;
  }

  // ----- Whatever parses is well formed -----

  /** The fields parsed so far carry no separator. */
  predicate Clean(s: SessionDescription) {
    && '\n' !in s.name
    && IsWord(s.originAddress) && IsWord(s.sourceAddress)
    && IsWord(s.encoding) && '/' !in s.encoding
    && s.payloadType <= 127 && s.ptpDomain <= 127
  }

  lemma PartIsWord(text: string, k: nat)
    requires '\n' !in text && k < |Split(text, ' ')|
    ensures IsWord(Split(text, ' ')[k])
  {
    PartsAreFree(text, ' ', ' ', k);
    PartsAreFree(text, ' ', '\n', k);
  }

  lemma FormatIsWord(text: string, k: nat)
    requires IsWord(text) && k < |Split(text, '/')|
    ensures IsWord(Split(text, '/')[k]) && '/' !in Split(text, '/')[k]
  {
    PartsAreFree(text, '/', ' ', k);
    PartsAreFree(text, '/', '\n', k);
    PartsAreFree(text, '/', '/', k);
  }

  lemma {:induction false} TrimmedSpacesFree(s: string, c: char)
    requires c !in s
    ensures c !in TrimSpaces(s)
  {
    if s != [] && s[0] == ' ' {
      assert c in s[1..] ==> c in s;
      TrimmedSpacesFree(s[1..], c);
    }
  }

  lemma Suffix(s: string, k: nat, c: char)
    requires k <= |s| && c !in s
    ensures c !in s[k..] && c !in s[..k]
  {
  }

  lemma OriginStaysClean(s: SessionDescription, value: string)
    requires Clean(s) && '\n' !in value
    ensures Clean(AfterOrigin(s, value))
  {
    hide Split;
    if |Split(value, ' ')| >= 6 {
      PartIsWord(value, 5);
    }
  }

  lemma SourceStaysClean(s: SessionDescription, body: string)
    requires Clean(s) && '\n' !in body
    ensures Clean(AfterSourceFilter(s, body))
  {
    hide Split, TrimSpaces;
    TrimmedSpacesFree(body, '\n');
    if |Split(TrimSpaces(body), ' ')| >= 5 {
      PartIsWord(TrimSpaces(body), 4);
    }
  }

  lemma RtpMapStaysClean(s: SessionDescription, body: string)
    requires Clean(s) && '\n' !in body
    ensures var r := AfterRtpMap(s, body); r.Some? ==> Clean(r.value)
  {
    hide Split, ParseNumber;
    if |Split(body, ' ')| == 2 {
      PartIsWord(body, 1);
      FormatIsWord(Split(body, ' ')[1], 0);
    }
  }

  lemma LineStaysClean(p: Progress, raw: string)
    requires Clean(p.session) && '\n' !in raw
    ensures var r := AfterLine(p, raw); r.Some? ==> Clean(r.value.session)
  {
    var line := TrimReturn(raw);
    if raw != [] {
      Suffix(raw, |raw| - 1, '\n');
    }
    KindLength(line);
    assert '\n' !in line;
    var kind := KindOf(line);
    hide KindOf, TrimReturn, AfterOrigin, AfterRtpMap, AfterSourceFilter, ParseNumber, Find, Split, IndexOf;
    if kind.Name? || kind.Origin? {
      Suffix(line, 2, '\n');
      OriginStaysClean(p.session, line[2..]);
    } else if kind.RtpMap? {
      Suffix(line, 9, '\n');
      RtpMapStaysClean(p.session, line[9..]);
    } else if kind.SourceFilter? {
      Suffix(line, 16, '\n');
      SourceStaysClean(p.session, line[16..]);
    }
  }

  lemma {:induction false} LinesStayClean(p: Progress, lines: seq<string>)
    requires Clean(p.session) && forall i :: 0 <= i < |lines| ==> '\n' !in lines[i]
    ensures var r := AfterLines(p, lines); r.Some? ==> Clean(r.value.session)
    decreases |lines|
  {
    if lines != [] {
      LineStaysClean(p, lines[0]);
      hide AfterLine, Clean;
      var q := AfterLine(p, lines[0]);
      if q.Some? {
        LinesStayClean(q.value, lines[1..]);
      }
    }
  }

  lemma ParsedIsWellFormed(text: string)
    ensures SDP.Parse(text).Some? ==> WellFormed(SDP.Parse(text).value)
  {
    var lines := Split(text, '\n');
    assert Clean(Start().session);
    hide Split, Start, AfterLines, IsMulticastText;
    forall i | 0 <= i < |lines|
      ensures '\n' !in lines[i]
    {
      PartsAreFree(text, '\n', '\n', i);
    }
    LinesStayClean(Start(), lines);
  }

  /** Printing and parsing gives a session back exactly when it is well formed. */
  lemma RoundTripIffWellFormed(s: SessionDescription)
    ensures SDP.Parse(Generate(s)) == Some(s) <==> WellFormed(s)
  {
    hide SDP.Parse, Generate, WellFormed;
    ParsedIsWellFormed(Generate(s));
    if WellFormed(s) {
      WellFormedRoundTrips(s);
    }
  }
}

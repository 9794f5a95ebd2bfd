/** Parsing and printing session descriptions (Core/SDP.cpp; section 5 of RFC 4566,
    section 3 of RFC 4570). */
module SDP {
  import opened Common
  import opened IPv4
  import opened Sessions
  import opened Text

  /** The locals of `parse`. */
  datatype Progress = Progress(session: SessionDescription, sawMedia: bool, sawRtpMap: bool)

  function Start(): Progress {
    Progress(SessionDescription("", "", "", 5004, 96, "L24", 48000, 8, 1, 48, 0, ""), false, false)
  }

  predicate StartsWith(s: string, prefix: string) {
    |prefix| <= |s| && s[..|prefix|] == prefix
  }

  predicate IsMulticastText(text: string) {
    IsAddress(text) && IsMulticast(IPv4.Parse(text).value)
  }

  function TrimReturn(raw: string): string {
    if raw != [] && raw[|raw| - 1] == '\r' then raw[..|raw| - 1] else raw
  }

  function TrimSpaces(s: string): string {
    if s != [] && s[0] == ' ' then TrimSpaces(s[1..]) else s
  }

  // ----- One kind of line each -----

  function AfterOrigin(s: SessionDescription, value: string): SessionDescription {
    var parts := Split(value, ' ');
    if |parts| >= 6 then s.(originAddress := parts[5]) else s
  }

  function AfterConnection(s: SessionDescription, value: string): SessionDescription {
    var parts := Split(value, ' ');
    if |parts| >= 3 then s.(multicastAddress := parts[2][..IndexOf(parts[2], '/')]) else s
  }

  function AfterMedia(s: SessionDescription, value: string): Option<SessionDescription> {
    var parts := Split(value, ' ');
    if |parts| < 4 || parts[0] != "audio" || parts[2] != "RTP/AVP" then None
    else
      var port, payload := ParseNumber(parts[1]), ParseNumber(parts[3]);
      if port.None? || port.value > 65535 || payload.None? || payload.value > 127 then None
      else Some(s.(port := port.value, payloadType := payload.value))
  }

  function AfterRtpMap(s: SessionDescription, body: string): Option<SessionDescription> {
    var fields := Split(body, ' ');
    if |fields| != 2 then None
    else
      var format := Split(fields[1], '/');
      if |format| < 2 then None
      else
        var payload, rate := ParseNumber(fields[0]), ParseNumber(format[1]);
        var channels := if |format| >= 3 then ParseNumber(format[2]) else Some(1);
        if payload.None? || rate.None? || channels.None? then None
        else if payload.value != s.payloadType || payload.value > 127 || channels.value > 65535 then None
        else Some(s.(encoding := format[0], sampleRate := rate.value, channels := channels.value))
  }

  function AfterPacketTime(s: SessionDescription, text: string): Option<SessionDescription> {
    var ptime := ParseNumber(text);
    if ptime.None? then None else Some(s.(packetTimeMilliseconds := ptime.value))
  }

  function AfterFrameCount(s: SessionDescription, text: string): Option<SessionDescription> {
    var count := ParseNumber(text);
    if count.None? then None else Some(s.(framesPerPacket := count.value))
  }

  function AfterSourceFilter(s: SessionDescription, body: string): SessionDescription {
    var parts := Split(TrimSpaces(body), ' ');
    if |parts| >= 5 then s.(sourceAddress := parts[4]) else s
  }

  const DOMAIN: string := "domain-nmbr="

  function AfterReferenceClock(s: SessionDescription, line: string): Option<SessionDescription> {
    var marker := Find(line, DOMAIN);
    if marker.None? then Some(s)
    else
      var domain := ParseNumber(line[marker.value + 12..]);
      if domain.None? || domain.value > 127 then None else Some(s.(ptpDomain := domain.value))
  }

  datatype Kind =
    | Name | Origin | Connection | Media | RtpMap | PacketTime | FrameCount | SourceFilter | ReferenceClock | Other

  /** The branch of the chain of tests that a line takes. */
  function KindOf(line: string): Kind {
    if |line| < 2 || line[1] != '=' then Other
    else if line[0] == 's' then Name
    else if line[0] == 'o' then Origin
    else if line[0] == 'c' then Connection
    else if line[0] == 'm' then Media
    else if StartsWith(line, "a=rtpmap:") then RtpMap
    else if StartsWith(line, "a=ptime:") then PacketTime
    else if StartsWith(line, "a=framecount:") then FrameCount
    else if StartsWith(line, "a=source-filter:") then SourceFilter
    else if StartsWith(line, "a=ts-refclk:") then ReferenceClock
    else Other
  }

  lemma KindLength(line: string)
    ensures KindOf(line) != Other ==> |line| >= 2
    ensures KindOf(line).RtpMap? ==> |line| >= 9
    ensures KindOf(line).PacketTime? ==> |line| >= 8
    ensures KindOf(line).FrameCount? ==> |line| >= 13
    ensures KindOf(line).SourceFilter? ==> |line| >= 16
  {
  }

  function Keep(p: Progress, s: Option<SessionDescription>): Option<Progress> {
    if s.None? then None else Some(p.(session := s.value))
  }

  function AfterLine(p: Progress, raw: string): Option<Progress> {
    var line := TrimReturn(raw);
    KindLength(line);
    match KindOf(line)
    case Other => Some(p)
    case Name => Some(p.(session := p.session.(name := line[2..])))
    case Origin => Some(p.(session := AfterOrigin(p.session, line[2..])))
    case Connection => Some(p.(session := AfterConnection(p.session, line[2..])))
    case Media => Keep(p.(sawMedia := true), AfterMedia(p.session, line[2..]))
    case RtpMap => Keep(p.(sawRtpMap := true), AfterRtpMap(p.session, line[9..]))
    case PacketTime => Keep(p, AfterPacketTime(p.session, line[8..]))
    case FrameCount => Keep(p, AfterFrameCount(p.session, line[13..]))
    case SourceFilter => Some(p.(session := AfterSourceFilter(p.session, line[16..])))
    case ReferenceClock => Keep(p, AfterReferenceClock(p.session, line))
  }

  function AfterLines(p: Progress, lines: seq<string>): Option<Progress>
    decreases |lines|
  {
    if lines == [] then Some(p)
    else
      var q := AfterLine(p, lines[0]);
      if q.None? then None else AfterLines(q.value, lines[1..])
  }

  function Finish(p: Progress): Option<SessionDescription> {
    if !p.sawMedia || !p.sawRtpMap || p.session.name == [] || !IsMulticastText(p.session.multicastAddress) then None
    else Some(p.session)
  }

  function Parse(text: string): Option<SessionDescription> {
    var p := AfterLines(Start(), Split(text, '\n'));
    if p.None? then None else Finish(p.value)
  }

  method ParseSession(text: string) returns (session: Option<SessionDescription>)
    ensures session == Parse(text)
  {
    var progress := Start();
    hide Start, AfterLine, Finish;
    var lines := SplitText(text, '\n');
    for i := 0 to |lines|
      invariant AfterLines(progress, lines[i..]) == AfterLines(Start(), lines)
    {
      var next := AfterLine(progress, lines[i]);
      assert lines[i..][1..] == lines[i + 1..];
      if next.None? {
        return None;
      }
      progress := next.value;
    }
    return Finish(progress);
  }

  // ----- Printing -----

  const CRLF: string := "\r\n"

  function OriginLine(s: SessionDescription): string {
    "o=- 1 1 IN IP4 " + s.originAddress
  }

  function NameLine(s: SessionDescription): string {
    "s=" + s.name
  }

  function ConnectionLine(s: SessionDescription): string {
    "c=IN IP4 " + s.multicastAddress + "/32"
  }

  function MediaLine(s: SessionDescription): string {
    "m=audio " + Print(s.port) + " RTP/AVP " + Print(s.payloadType)
  }

  function RtpMapLine(s: SessionDescription): string {
    "a=rtpmap:" + Print(s.payloadType) + " " + s.encoding + "/" + Print(s.sampleRate) + "/" + Print(s.channels)
  }

  function PacketTimeLine(s: SessionDescription): string {
    "a=ptime:" + Print(s.packetTimeMilliseconds)
  }

  function FrameCountLine(s: SessionDescription): string {
    "a=framecount:" + Print(s.framesPerPacket)
  }

  const CLOCK: string := "a=ts-refclk:ptp=IEEE1588-2008:traceable:"

  function ReferenceClockLine(s: SessionDescription): string {
    CLOCK + DOMAIN + Print(s.ptpDomain)
  }

  function SourceFilterLine(s: SessionDescription): string {
    "a=source-filter: incl IN IP4 " + s.multicastAddress + " " + s.sourceAddress
  }

  function Lines(s: SessionDescription): seq<string> {
    ["v=0", OriginLine(s), NameLine(s), ConnectionLine(s), "t=0 0", MediaLine(s), RtpMapLine(s), PacketTimeLine(s),
     FrameCountLine(s), ReferenceClockLine(s), "a=mediaclk:direct=0"]
    + (if s.sourceAddress != [] then [SourceFilterLine(s)] else [])
    + ["a=sendonly"]
  }

  /** The lines, each ended by carriage return and newline. */
  function Joined(lines: seq<string>): string {
    if lines == [] then [] else lines[0] + CRLF + Joined(lines[1..])
  }

  function Generate(s: SessionDescription): string {
    Joined(Lines(s))
  }
}

/** The wire form of the messages the clock client exchanges (Core/PTP.cpp). */
module PtpCodec {
  import opened Bytes
  import opened Common

  const HEADER: nat := 34
  const SECOND: int := 1_000_000_000

  datatype MessageType = Sync | DelayRequest | FollowUp | DelayResponse | Announce {
    function Code(): u8 {
      match this
      case Sync => 0
      case DelayRequest => 1
      case FollowUp => 8
      case DelayResponse => 9
      case Announce => 11
    }
  }

  /** `clock` has eight bytes. */
  datatype PortIdentity = PortIdentity(clock: seq<u8>, port: u16)

  datatype Grandmaster = Grandmaster(
    priority1: u8,
    clockClass: u8,
    clockAccuracy: u8,
    offsetScaledLogVariance: u16,
    priority2: u8,
    identity: seq<u8>,
    stepsRemoved: u16)

  datatype Message = Message(
    kind: MessageType,
    domain: u8,
    twoStep: bool,
    correction: i64,
    source: PortIdentity,
    sequence: u16,
    timestamp: Option<i64>,
    requestingPort: Option<PortIdentity>,
    grandmaster: Grandmaster)

  function Zeros(n: nat): (s: seq<u8>) {
    seq(n, _ => 0)
  }

  function DefaultGrandmaster(): Grandmaster {
    Grandmaster(255, 255, 255, 65535, 255, Zeros(8), 65535)
  }

  // ----- Decoding -----

  /** `std::bit_cast` between the signed and the unsigned 64-bit word. */
  function Signed(x: u64): i64 {
    if x < TWO63 then x else x - TWO64
  }

  function Unsigned(x: i64): u64 {
    if x >= 0 then x else x + TWO64
  }

  function GetTimestamp(data: seq<u8>): Option<i64>
    requires |data| == 10
  {
    var seconds, nanos := Value(data[..6]), Value(data[6..]);
    if nanos >= SECOND || seconds > (TWO63 - 1) / SECOND then None
    else if seconds * SECOND + nanos >= TWO63 then None // signed overflow in the code
    else Some(seconds * SECOND + nanos)
  }

  function GetPort(data: seq<u8>): PortIdentity
    requires |data| == 10
  {
    ValueBound(data[8..]);
    PowersOf256();
    PortIdentity(data[..8], Value(data[8..]))
  }

  function Get16(data: seq<u8>): u16
    requires |data| == 2
  {
    ValueBound(data);
    PowersOf256();
    Value(data)
  }

  function Get64(data: seq<u8>): u64
    requires |data| == 8
  {
    ValueBound(data);
    PowersOf256();
    Value(data)
  }

  function KindOf(code: u8): Option<MessageType> {
    if code == 0 then Some(Sync)
    else if code == 1 then Some(DelayRequest)
    else if code == 8 then Some(FollowUp)
    else if code == 9 then Some(DelayResponse)
    else if code == 11 then Some(Announce)
    else None
  }

  function Decode(bytes: seq<u8>, expectedDomain: u8): Option<Message> {
    if |bytes| < HEADER || bytes[1] % 16 != 2 then None
    else
      var length := Get16(bytes[2..4]);
      if length < HEADER || length > |bytes| || bytes[4] != expectedDomain then None
      else
        var kind := KindOf(bytes[0] % 16);
        if kind.None? then None
        else
          var message := Message(kind.value, bytes[4], bytes[6] / 2 % 2 != 0, Signed(Get64(bytes[8..16])),
                                 GetPort(bytes[20..30]), Get16(bytes[30..32]), None, None, DefaultGrandmaster());
          if kind.value.Announce? then
            if length < 64 then None
            else Some(message.(grandmaster :=
                Grandmaster(bytes[47], bytes[48], bytes[49], Get16(bytes[50..52]), bytes[52], bytes[53..61],
                            Get16(bytes[61..63]))))
          else if length < 44 then None
          else
            var timestamp := GetTimestamp(bytes[34..44]);
            if timestamp.None? then None
            else if !kind.value.DelayResponse? then Some(message.(timestamp := timestamp))
            else if length < 54 then None
            else Some(message.(timestamp := timestamp, requestingPort := Some(GetPort(bytes[44..54]))))
  }

  /** Whatever is accepted carries a timestamp, unless it is an Announce. */
  lemma DecodedHasTimestamp(bytes: seq<u8>, domain: u8)
    ensures var m := Decode(bytes, domain);
            m.Some? ==> (m.value.timestamp.None? <==> m.value.kind.Announce?)
                        && (m.value.requestingPort.Some? <==> m.value.kind.DelayResponse?)
                        && |m.value.source.clock| == 8 && m.value.domain == domain
  {
  }

  // ----- Encoding -----

  /** What an encoded timestamp reads back as. */
  function Clamped(nanoseconds: i64): i64 {
    if nanoseconds < 0 then 0 else nanoseconds
  }

  method PutTimestamp(data: array<u8>, at: nat, nanoseconds: i64)
    requires at + 10 <= data.Length
    modifies data
    ensures GetTimestamp(data[at..at + 10]) == Some(Clamped(nanoseconds))
    ensures forall k :: 0 <= k < data.Length && !(at <= k < at + 10) ==> data[k] == old(data[k])
  {
    var ns := if nanoseconds < 0 then 0 else nanoseconds;
    var seconds := ns / SECOND;
    SecondsFit(ns);
    PutParts(data, at, seconds / TWO32 % TWO16, seconds % TWO32, ns % SECOND);
    hide BigEndian, GetTimestamp, Value;
    TimestampReadsBack(seconds, ns % SECOND);
  }

  /** The upper and the lower seconds and the nanoseconds. */
  method PutParts(data: array<u8>, at: nat, high: u16, low: u32, nanos: u32)
    requires at + 10 <= data.Length
    modifies data
    ensures data[at..at + 10] == BigEndian(high, 2) + BigEndian(low, 4) + BigEndian(nanos, 4)
    ensures forall k :: 0 <= k < data.Length && !(at <= k < at + 10) ==> data[k] == old(data[k])
  {
    PowersOf256();
    hide BigEndian, Pow256;
    Put(data, at, 2, high);
    ghost var first := data[..];
    Put(data, at + 2, 4, low);
    ghost var second := data[..];
    Put(data, at + 6, 4, nanos);
    SameField(first, data[..], at, at + 2);
    SameField(second, data[..], at + 2, at + 6);
    ThreeParts(data[..], at);
  }

  lemma ThreeParts(data: seq<u8>, at: nat)
    requires at + 10 <= |data|
    ensures data[at..at + 10] == data[at..at + 2] + data[at + 2..at + 6] + data[at + 6..at + 10]
  {
  }

  /** The 48 bits of the seconds are enough. */
  lemma SecondsFit(ns: nat)
    requires ns < TWO63
    ensures ns / SECOND / TWO32 < TWO16 && ns / SECOND / TWO32 % TWO16 == ns / SECOND / TWO32
    ensures ns / SECOND * SECOND + ns % SECOND == ns
  {
    assert ns < (TWO16 * TWO32) * SECOND;
    assert ns / SECOND < TWO16 * TWO32;
  }

  lemma TimestampReadsBack(seconds: nat, nanos: nat)
    requires nanos < SECOND && seconds * SECOND + nanos < TWO63
    ensures GetTimestamp(BigEndian(seconds / TWO32, 2) + BigEndian(seconds % TWO32, 4) + BigEndian(nanos, 4))
            == Some(seconds * SECOND + nanos)
  {
    PowersOf256();
    var high, low := BigEndian(seconds / TWO32, 2), BigEndian(seconds % TWO32, 4);
    var field := high + low + BigEndian(nanos, 4);
    ValueOfBigEndian(seconds / TWO32, 2);
    ValueOfBigEndian(seconds % TWO32, 4);
    ValueOfBigEndian(nanos, 4);
    ValueAppend(high, low);
    assert field[..6] == high + low && field[6..] == BigEndian(nanos, 4);
    hide BigEndian, Value, Pow256;
    assert Value(field[..6]) == seconds;
  }

  predicate IsPort(data: seq<u8>, port: PortIdentity) {
    |data| == 10 && data[..8] == port.clock && data[8..] == BigEndian(port.port, 2)
  }

  /** The header fields a reader looks at. */
  predicate IsHeader(data: seq<u8>, size: u16, kind: MessageType, source: PortIdentity, sequence: u16, domain: u8,
                     twoStep: bool, correction: i64)
  {
    && |data| == HEADER
    && data[0] == kind.Code() && data[1] == 2
    && data[2..4] == BigEndian(size, 2)
    && data[4] == domain
    && data[6] == (if twoStep then 2 else 0)
    && data[8..16] == BigEndian(Unsigned(correction), 8)
    && IsPort(data[20..30], source)
    && data[30..32] == BigEndian(sequence, 2)
  }

  method PutPort(data: array<u8>, at: nat, port: PortIdentity)
    requires at + 10 <= data.Length && |port.clock| == 8
    modifies data
    ensures IsPort(data[at..at + 10], port)
    ensures forall k :: 0 <= k < data.Length && !(at <= k < at + 10) ==> data[k] == old(data[k])
  {
    for index := 0 to 8
      invariant forall k :: 0 <= k < index ==> data[at + k] == port.clock[k]
      invariant forall k :: 0 <= k < data.Length && !(at <= k < at + 8) ==> data[k] == old(data[k])
    {
      data[at + index] := port.clock[index];
    }
    PowersOf256();
    hide BigEndian, Pow256;
    ghost var clock := data[at..at + 8];
    Put(data, at + 8, 2, port.port);
    assert data[at..at + 10][..8] == clock && data[at..at + 10][8..] == data[at + 8..at + 10];
  }

  /** The control byte of a kind. */
  function ControlFor(kind: MessageType): u8 {
    match kind
    case Sync => 0
    case DelayRequest => 1
    case FollowUp => 2
    case DelayResponse => 3
    case Announce => 5
  }

  method PutHeader(data: array<u8>, kind: MessageType, source: PortIdentity, sequence: u16, domain: u8, twoStep: bool,
                   correction: i64)
    requires HEADER <= data.Length < TWO16 && |source.clock| == 8 && data[6] == 0
    modifies data
    ensures IsHeader(data[..HEADER], data.Length, kind, source, sequence, domain, twoStep, correction)
    ensures data[32] == ControlFor(kind) && data[33] == 0x7F
    ensures forall k :: k == 5 || k == 7 || 16 <= k < 20 || HEADER <= k < data.Length ==> data[k] == old(data[k])
  {
    PowersOf256();
    hide BigEndian, Pow256, IsPort, ControlFor;
    PutScalars(data, kind, domain, twoStep);
    Put(data, 2, 2, data.Length);
    ghost var size := data[..];
    Put(data, 8, 8, Unsigned(correction));
    ghost var scaled := data[..];
    PutPort(data, 20, source);
    ghost var port := data[..];
    Put(data, 30, 2, sequence);
    ghost var h := data[..HEADER];
    SameField(size, data[..], 2, 4);
    SameField(scaled, data[..], 8, 16);
    SameField(port, data[..], 20, 30);
    assert h[2..4] == data[..][2..4] && h[8..16] == data[..][8..16];
    assert h[20..30] == data[..][20..30] && h[30..32] == data[30..32];
  }

  /** The single bytes of the header. */
  method PutScalars(data: array<u8>, kind: MessageType, domain: u8, twoStep: bool)
    requires data.Length >= HEADER && data[6] == 0
    modifies data
    ensures data[0] == kind.Code() && data[1] == 2 && data[4] == domain && data[6] == if twoStep then 2 else 0
    ensures data[32] == ControlFor(kind) && data[33] == 0x7F
    ensures forall k :: 0 <= k < data.Length && k !in {0, 1, 4, 6, 32, 33} ==> data[k] == old(data[k])
  {
    data[0] := kind.Code();
    data[1] := 2;
    data[4] := domain;
    if twoStep {
      data[6] := 2;
    }
    data[32] := ControlFor(kind);
    data[33] := 0x7F;
  }

  /** What a reader makes of a header. */
  lemma HeaderReadsBack(bytes: seq<u8>, size: u16, kind: MessageType, source: PortIdentity, sequence: u16, domain: u8,
                        twoStep: bool, correction: i64)
    requires |bytes| >= HEADER
    requires IsHeader(bytes[..HEADER], size, kind, source, sequence, domain, twoStep, correction)
    ensures bytes[0] == kind.Code() && KindOf(bytes[0] % 16) == Some(kind) && bytes[1] % 16 == 2 && Get16(bytes[2..4]) == size
    ensures bytes[4] == domain && (bytes[6] / 2 % 2 != 0 <==> twoStep) && Signed(Get64(bytes[8..16])) == correction
    ensures GetPort(bytes[20..30]) == source && Get16(bytes[30..32]) == sequence
  {
    PowersOf256();
    var h := bytes[..HEADER];
    assert bytes[2..4] == h[2..4] && bytes[8..16] == h[8..16] && bytes[20..30] == h[20..30] && bytes[30..32] == h[30..32];
    assert h[0] == bytes[0] && h[1] == bytes[1] && h[4] == bytes[4] && h[6] == bytes[6];
    hide BigEndian, Value, Pow256;
    ValueOfBigEndian(size, 2);
    ValueOfBigEndian(Unsigned(correction), 8);
    ValueOfBigEndian(source.port, 2);
    ValueOfBigEndian(sequence, 2);
  }

  /** `encodeTimestampMessage`: decoding gives every field back, negative times as zero. */
  method EncodeTimestampMessage(kind: MessageType, source: PortIdentity, sequence: u16, domain: u8, nanoseconds: i64,
                                twoStep: bool, correction: i64)
    returns (bytes: seq<u8>)
    requires kind.Sync? || kind.DelayRequest? || kind.FollowUp?
    requires |source.clock| == 8
    ensures |bytes| == 44 && bytes[0] == (if kind.Sync? then 0 else if kind.DelayRequest? then 1 else 8)
    ensures bytes[32] == ControlFor(kind) && bytes[33] == 0x7F
    ensures Decode(bytes, domain)
            == Some(Message(kind, domain, twoStep, correction, source, sequence, Some(Clamped(nanoseconds)), None,
                            DefaultGrandmaster()))
  {
    var data := new u8[44](_ => 0);
    PutHeader(data, kind, source, sequence, domain, twoStep, correction);
    ghost var header := data[..HEADER];
    PutTimestamp(data, HEADER, nanoseconds);
    bytes := data[..];
    assert bytes[..HEADER] == header && bytes[34..44] == data[34..44];
    hide IsHeader, GetTimestamp, GetPort, Get16, Get64, Signed;
    HeaderReadsBack(bytes, 44, kind, source, sequence, domain, twoStep, correction);
  }

  method EncodeDelayResponse(source: PortIdentity, requestingPort: PortIdentity, sequence: u16, domain: u8,
                             nanoseconds: i64, correction: i64)
    returns (bytes: seq<u8>)
    requires |source.clock| == 8 && |requestingPort.clock| == 8
    ensures |bytes| == 54 && bytes[0] == 9 && bytes[32] == ControlFor(DelayResponse) && bytes[33] == 0x7F
    ensures Decode(bytes, domain)
            == Some(Message(DelayResponse, domain, false, correction, source, sequence, Some(Clamped(nanoseconds)),
                            Some(requestingPort), DefaultGrandmaster()))
  {
    var data := new u8[54](_ => 0);
    PutHeader(data, DelayResponse, source, sequence, domain, false, correction);
    ghost var header := data[..HEADER];
    PutTimestamp(data, HEADER, nanoseconds);
    ghost var timestamp := data[34..44];
    PutPort(data, 44, requestingPort);
    bytes := data[..];
    assert bytes[..HEADER] == header && bytes[34..44] == timestamp && bytes[44..54] == data[44..54];
    PortReadsBack(bytes[44..54], requestingPort);
    hide IsHeader, IsPort, GetTimestamp, GetPort, Get16, Get64, Signed;
    HeaderReadsBack(bytes, 54, DelayResponse, source, sequence, domain, false, correction);
  }

  lemma PortReadsBack(data: seq<u8>, port: PortIdentity)
    requires IsPort(data, port) && |port.clock| == 8
    ensures GetPort(data) == port
  {
    PowersOf256();
    ValueOfBigEndian(port.port, 2);
  }

  lemma ZeroReadsBack()
    ensures Get16([0, 0]) == 0
  {
  }

  /** `encodeAnnounce`: a clock that is its own grandmaster, on an internal oscillator. */
  method EncodeAnnounce(source: PortIdentity, sequence: u16, domain: u8) returns (bytes: seq<u8>)
    requires |source.clock| == 8
    ensures |bytes| == 64 && bytes[0] == 11 && bytes[32] == ControlFor(Announce) && bytes[33] == 0x7F && bytes[63] == 0xA0
    ensures bytes[47] == 128 && bytes[48] == 248 && bytes[49] == 254 && bytes[52] == 128 && bytes[53..61] == source.clock
    ensures Decode(bytes, domain)
            == Some(Message(Announce, domain, false, 0, source, sequence, None, None,
                            Grandmaster(128, 248, 254, 0, 128, source.clock, 0)))
  {
    hide IsHeader, IsPort, GetTimestamp, GetPort, Get16, Get64, Signed, Unsigned, Value, BigEndian, ControlFor;
    var data := new u8[64](_ => 0);
    PutHeader(data, Announce, source, sequence, domain, false, 0);
    ghost var header := data[..HEADER];
    PutGrandmaster(data, source.clock);
    bytes := data[..];
    SameField(header, data[..HEADER], 0, HEADER);
    assert bytes[..HEADER] == header;
    assert bytes[53..61] == data[53..61] == source.clock && bytes[50..52] == data[50..52] && bytes[61..63] == data[61..63];
    ZeroReadsBack();
    HeaderReadsBack(bytes, 64, Announce, source, sequence, domain, false, 0);
    AnnounceReadsBack(bytes, source, sequence, domain);
  }

  lemma AnnounceReadsBack(bytes: seq<u8>, source: PortIdentity, sequence: u16, domain: u8)
    requires |bytes| == 64 && bytes[0] % 16 == 11 && bytes[1] % 16 == 2 && Get16(bytes[2..4]) == 64
    requires bytes[4] == domain && bytes[6] / 2 % 2 == 0 && Signed(Get64(bytes[8..16])) == 0
    requires GetPort(bytes[20..30]) == source && Get16(bytes[30..32]) == sequence
    requires bytes[47] == 128 && bytes[48] == 248 && bytes[49] == 254 && bytes[52] == 128
    requires Get16(bytes[50..52]) == 0 && Get16(bytes[61..63]) == 0 && bytes[53..61] == source.clock
    ensures Decode(bytes, domain)
            == Some(Message(Announce, domain, false, 0, source, sequence, None, None,
                            Grandmaster(128, 248, 254, 0, 128, source.clock, 0)))
  {
    hide GetTimestamp, GetPort, Get16, Get64, Signed;
  }

  method PutGrandmaster(data: array<u8>, clock: seq<u8>)
    requires data.Length == 64 && |clock| == 8 && data[50] == data[51] == data[61] == data[62] == 0
    modifies data
    ensures data[47] == 128 && data[48] == 248 && data[49] == 254 && data[52] == 128 && data[63] == 0xA0
    ensures data[50..52] == [0, 0] && data[61..63] == [0, 0] && data[53..61] == clock
    ensures forall k :: 0 <= k < 47 ==> data[k] == old(data[k])
  {
    data[47] := 128;
    data[48] := 248;
    data[49] := 0xFE;
    data[52] := 128;
    for index := 0 to 8
      invariant forall k :: 0 <= k < data.Length && !(47 <= k < 50) && k != 52 && !(53 <= k < 61) ==> data[k] == old(data[k])
      invariant data[47] == 128 && data[48] == 248 && data[49] == 254 && data[52] == 128
      invariant data[53..53 + index] == clock[..index]
    {
      data[53 + index] := clock[index];
    }
    data[63] := 0xA0;
  }

  /** Where the reader finds each field of an Announce (table 25 of IEEE 1588-2008), whoever
      sent it. */
  lemma AnnounceFields(bytes: seq<u8>, domain: u8)
    requires Decode(bytes, domain).Some? && Decode(bytes, domain).value.kind.Announce?
    ensures |bytes| >= 64
    ensures var m := Decode(bytes, domain).value;
            && m.grandmaster.priority1 == bytes[47] && m.grandmaster.clockClass == bytes[48]
            && m.grandmaster.clockAccuracy == bytes[49]
            && m.grandmaster.offsetScaledLogVariance == (bytes[50] as int) * 256 + bytes[51]
            && m.grandmaster.priority2 == bytes[52] && m.grandmaster.identity == bytes[53..61]
            && m.grandmaster.stepsRemoved == (bytes[61] as int) * 256 + bytes[62]
            && m.source.clock == bytes[20..28] && m.source.port == (bytes[28] as int) * 256 + bytes[29]
            && m.sequence == (bytes[30] as int) * 256 + bytes[31]
  {
    TwoBytes(bytes[50..52]);
    TwoBytes(bytes[61..63]);
    TwoBytes(bytes[30..32]);
    TwoBytes(bytes[20..30][8..]);
    assert bytes[20..30][..8] == bytes[20..28];
    hide Value, Get64, Signed;
  }

  lemma TwoBytes(s: seq<u8>)
    requires |s| == 2
    ensures Get16(s) == Value(s) == (s[0] as int) * 256 + s[1]
  {
    assert s[..1] == [s[0]] && [s[0]][..0] == [];
    assert Value([s[0]]) == s[0];
  }
}

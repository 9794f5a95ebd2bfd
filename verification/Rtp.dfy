/** RTP packets (Core/RTPPacket.cpp; section 5.1 of RFC 3550). */
module RTP {
  import opened Bytes
  import opened Common

  const FIXED_HEADER: nat := 12

  datatype Packet = Packet(payloadType: u8, marker: bool, sequence: u16, timestamp: u32, ssrc: u32, payload: seq<u8>)

  function Number16(b: seq<u8>): u16
    requires |b| == 2
  {
    ValueBound(b);
    PowersOf256();
    Value(b)
  }

  function Number32(b: seq<u8>): u32
    requires |b| == 4
  {
    ValueBound(b);
    PowersOf256();
    Value(b)
  }

  // ----- Decoding -----

  /** The payload starts after the contributing sources and the extension, if any. */
  function PayloadStart(bytes: seq<u8>): Option<nat>
    requires |bytes| >= FIXED_HEADER
  {
    var offset := FIXED_HEADER + (bytes[0] as int) % 16 * 4;
    if offset > |bytes| then None
    else if bytes[0] / 16 % 2 == 0 then Some(offset)
    else if offset + 4 > |bytes| then None
    else
      var end := offset + 4 + 4 * Number16(bytes[offset + 2..offset + 4]);
      if end > |bytes| then None else Some(end)
  }

  /** The last byte counts the padding, itself included. */
  function PayloadEnd(bytes: seq<u8>, start: nat): Option<nat>
    requires start <= |bytes| && bytes != []
  {
    if bytes[0] / 32 % 2 == 0 then Some(|bytes|)
    else
      var count := bytes[|bytes| - 1];
      if count == 0 || count > |bytes| - start then None else Some(|bytes| - count)
  }

  function Decode(bytes: seq<u8>): Option<Packet> {
    if |bytes| < FIXED_HEADER || bytes[0] / 64 != 2 then None
    else
      var start := PayloadStart(bytes);
      if start.None? then None
      else
        var end := PayloadEnd(bytes, start.value);
        if end.None? then None
        else Some(Packet(bytes[1] % 128, bytes[1] / 128 == 1, Number16(bytes[2..4]), Number32(bytes[4..8]),
                         Number32(bytes[8..12]), bytes[start.value..end.value]))
  }

  // ----- Encoding -----

  /** The fixed header with the given first byte. */
  predicate IsHeader(h: seq<u8>, first: u8, p: Packet) {
    && |h| == FIXED_HEADER
    && h[0] == first
    && h[1] == (if p.marker then 128 else 0) + p.payloadType
    && h[2..4] == BigEndian(p.sequence, 2)
    && h[4..8] == BigEndian(p.timestamp, 4)
    && h[8..12] == BigEndian(p.ssrc, 4)
  }

  predicate IsPlain(bytes: seq<u8>, p: Packet) {
    |bytes| == FIXED_HEADER + |p.payload| && IsHeader(bytes[..12], 128, p) && bytes[12..] == p.payload
  }

  method Encode(p: Packet, bytes: array<u8>) returns (ok: bool, written: nat)
    modifies bytes
    ensures ok <==> p.payloadType <= 127 && FIXED_HEADER + |p.payload| <= bytes.Length
    ensures !ok ==> written == 0 && bytes[..] == old(bytes[..])
    ensures ok ==> written == FIXED_HEADER + |p.payload| && IsPlain(bytes[..written], p)
    ensures ok ==> forall k :: written <= k < bytes.Length ==> bytes[k] == old(bytes[k])
  {
    if p.payloadType > 127 || bytes.Length < FIXED_HEADER + |p.payload| {
      return false, 0;
    }
    PowersOf256();
    assert p.sequence < Pow256(2) && p.timestamp < Pow256(4) && p.ssrc < Pow256(4);
    hide BigEndian, Pow256;
    bytes[0] := 128;
    bytes[1] := (if p.marker then 128 else 0) + p.payloadType;
    PutHeader(p, bytes);
    ghost var header := bytes[..];
    for i := 0 to |p.payload|
      invariant forall k :: 0 <= k < FIXED_HEADER ==> bytes[k] == header[k]
      invariant bytes[12..12 + i] == p.payload[..i]
      invariant forall k :: FIXED_HEADER + |p.payload| <= k < bytes.Length ==> bytes[k] == old(bytes[k])
    {
      bytes[12 + i] := p.payload[i];
    }
    written := FIXED_HEADER + |p.payload|;
    SameField(header, bytes[..], 0, 12);
    assert bytes[..written][..12] == header[..12] && bytes[..written][12..] == p.payload;
    return true, written;
  }

  method PutHeader(p: Packet, bytes: array<u8>)
    requires bytes.Length >= FIXED_HEADER && p.payloadType <= 127
    requires bytes[0] == 128 && bytes[1] == (if p.marker then 128 else 0) + p.payloadType
    modifies bytes
    ensures IsHeader(bytes[..12], 128, p)
    ensures forall k :: FIXED_HEADER <= k < bytes.Length ==> bytes[k] == old(bytes[k])
  {
    PowersOf256();
    assert p.sequence < Pow256(2) && p.timestamp < Pow256(4) && p.ssrc < Pow256(4);
    hide BigEndian, Pow256;
    Put(bytes, 2, 2, p.sequence);
    ghost var numbered := bytes[..];
    Put(bytes, 4, 4, p.timestamp);
    ghost var stamped := bytes[..];
    Put(bytes, 8, 4, p.ssrc);
    SameField(numbered, bytes[..], 2, 4);
    SameField(stamped, bytes[..], 4, 8);
    ghost var h := bytes[..12];
    assert h[2..4] == bytes[..][2..4] && h[4..8] == bytes[..][4..8] && h[8..12] == bytes[8..12];
  }

  lemma HeaderReadsBack(bytes: seq<u8>, first: u8, p: Packet)
    requires |bytes| >= FIXED_HEADER && IsHeader(bytes[..12], first, p) && p.payloadType <= 127
    ensures bytes[0] == first && bytes[1] % 128 == p.payloadType && (bytes[1] / 128 == 1 <==> p.marker)
    ensures Number16(bytes[2..4]) == p.sequence && Number32(bytes[4..8]) == p.timestamp && Number32(bytes[8..12]) == p.ssrc
  {
    PowersOf256();
    var h := bytes[..12];
    assert bytes[2..4] == h[2..4] && bytes[4..8] == h[4..8] && bytes[8..12] == h[8..12];
    assert h[0] == bytes[0] && h[1] == bytes[1];
    hide BigEndian, Value, Pow256;
    ValueOfBigEndian(p.sequence, 2);
    ValueOfBigEndian(p.timestamp, 4);
    ValueOfBigEndian(p.ssrc, 4);
  }

  /** What is encoded decodes to the same packet. */
  lemma PlainRoundTrip(bytes: seq<u8>, p: Packet)
    requires IsPlain(bytes, p) && p.payloadType <= 127
    ensures Decode(bytes) == Some(p)
  {
    HeaderReadsBack(bytes, 128, p);
    hide IsHeader, Number16, Number32;
    assert bytes[12..|bytes|] == p.payload;
  }

  // ----- Packets of other senders -----

  /** What may stand around the payload: contributing sources, a header extension of whole
      words, and padding whose last byte counts it. */
  datatype Extras = Extras(sources: seq<u8>, extension: Option<seq<u8>>, padding: seq<u8>)

  predicate ExtrasAreSound(x: Extras) {
    && |x.sources| % 4 == 0 && |x.sources| < 64
    && (x.extension.Some? ==> |x.extension.value| % 4 == 0 && |x.extension.value| < 4 * TWO16)
    && (x.padding != [] ==> |x.padding| < 256 && x.padding[|x.padding| - 1] == |x.padding|)
  }

  function FirstByte(x: Extras): u8
    requires ExtrasAreSound(x)
  {
    128 + (if x.padding != [] then 32 else 0) + (if x.extension.Some? then 16 else 0) + |x.sources| / 4
  }

  /** The extension with its own header: a profile word and the length in words. */
  function ExtensionBytes(x: Extras, profile: seq<u8>): seq<u8>
    requires ExtrasAreSound(x) && |profile| == 2
  {
    if x.extension.None? then [] else profile + BigEndian(|x.extension.value| / 4, 2) + x.extension.value
  }

  /** The payload is found between whatever optional parts the sender added. */
  lemma DecodeSkipsExtras(header: seq<u8>, x: Extras, profile: seq<u8>, p: Packet)
    requires ExtrasAreSound(x) && |profile| == 2 && p.payloadType <= 127
    requires IsHeader(header, FirstByte(x), p)
    ensures Decode(header + x.sources + ExtensionBytes(x, profile) + p.payload + x.padding) == Some(p)
  {
    var bytes := header + x.sources + ExtensionBytes(x, profile) + p.payload + x.padding;
    var start := 12 + |x.sources| + |ExtensionBytes(x, profile)|;
    assert bytes[..12] == header;
    HeaderReadsBack(bytes, FirstByte(x), p);
    StartsAfterExtras(header, x, profile, p);
    EndsBeforePadding(bytes, x, start);
    hide IsHeader, Number16, Number32, ExtensionBytes, PayloadStart, PayloadEnd;
    assert bytes[start..start + |p.payload|] == p.payload;
  }

  lemma StartsAfterExtras(header: seq<u8>, x: Extras, profile: seq<u8>, p: Packet)
    requires ExtrasAreSound(x) && |profile| == 2 && |header| == 12 && header[0] == FirstByte(x)
    ensures var bytes := header + x.sources + ExtensionBytes(x, profile) + p.payload + x.padding;
            PayloadStart(bytes) == Some(12 + |x.sources| + |ExtensionBytes(x, profile)|)
  {
    hide BigEndian, Number16, FirstByte;
    FirstBits(x);
    var bytes := header + x.sources + ExtensionBytes(x, profile) + p.payload + x.padding;
    assert bytes[0] == header[0];
    if x.extension.Some? {
      var words := |x.extension.value| / 4;
      LengthField(header + x.sources, profile, BigEndian(words, 2), x.extension.value, p.payload, x.padding);
      WordsReadBack(words);
    }
  }

  lemma FirstBits(x: Extras)
    requires ExtrasAreSound(x)
    ensures var first := FirstByte(x);
            first / 64 == 2 && first % 16 * 4 == |x.sources| && (first / 16 % 2 == 0 <==> x.extension.None?)
  {
  }

  lemma WordsReadBack(words: u16)
    ensures Number16(BigEndian(words, 2)) == words
  {
    PowersOf256();
    ValueOfBigEndian(words, 2);
  }

  lemma LengthField(before: seq<u8>, profile: seq<u8>, words: seq<u8>, extension: seq<u8>, payload: seq<u8>, padding: seq<u8>)
    requires |profile| == |words| == 2
    ensures var bytes := before + (profile + words + extension) + payload + padding;
            bytes[|before| + 2..|before| + 4] == words
  {
  }

  lemma EndsBeforePadding(bytes: seq<u8>, x: Extras, start: nat)
    requires ExtrasAreSound(x) && start + |x.padding| <= |bytes| && bytes != [] && bytes[0] == FirstByte(x)
    requires bytes[|bytes| - |x.padding|..] == x.padding
    ensures PayloadEnd(bytes, start) == Some(|bytes| - |x.padding|)
  {
  }

  // ----- What is accepted -----

  /** The parts of a packet and the optional parts around its payload. */
  ghost predicate IsPacket(bytes: seq<u8>, header: seq<u8>, x: Extras, profile: seq<u8>, p: Packet) {
    && ExtrasAreSound(x) && |profile| == 2 && p.payloadType <= 127
    && IsHeader(header, FirstByte(x), p)
    && bytes == header + x.sources + ExtensionBytes(x, profile) + p.payload + x.padding
  }

  lemma HeaderOf(bytes: seq<u8>, p: Packet)
    requires |bytes| >= FIXED_HEADER && bytes[1] % 128 == p.payloadType && (bytes[1] / 128 == 1 <==> p.marker)
    requires Number16(bytes[2..4]) == p.sequence && Number32(bytes[4..8]) == p.timestamp && Number32(bytes[8..12]) == p.ssrc
    ensures IsHeader(bytes[..12], bytes[0], p)
  {
    BigEndianOfValue(bytes[2..4]);
    BigEndianOfValue(bytes[4..8]);
    BigEndianOfValue(bytes[8..12]);
    var h := bytes[..12];
    assert h[2..4] == bytes[2..4] && h[4..8] == bytes[4..8] && h[8..12] == bytes[8..12];
    hide BigEndian, Value;
  }

  lemma Parts(bytes: seq<u8>, a: nat, b: nat, c: nat, d: nat)
    requires a <= b <= c <= d <= |bytes|
    ensures bytes == bytes[..a] + bytes[a..b] + bytes[b..c] + bytes[c..d] + bytes[d..]
  {
  }

  lemma PlainParts(bytes: seq<u8>, start: nat)
    requires |bytes| >= FIXED_HEADER && PayloadStart(bytes) == Some(start) && (bytes[0] as int) / 16 % 2 == 0
    ensures start == FIXED_HEADER + (bytes[0] as int) % 16 * 4 && start <= |bytes|
  {
  }

  lemma ExtendedParts(bytes: seq<u8>, start: nat)
    requires |bytes| >= FIXED_HEADER && PayloadStart(bytes) == Some(start) && (bytes[0] as int) / 16 % 2 == 1
    ensures var at := FIXED_HEADER + (bytes[0] as int) % 16 * 4;
            && at + 4 <= start <= |bytes| && (start - at) % 4 == 0 && (start - at - 4) / 4 < TWO16
            && bytes[at + 2..at + 4] == BigEndian((start - at - 4) / 4, 2)
  {
    var at := FIXED_HEADER + (bytes[0] as int) % 16 * 4;
    BigEndianOfValue(bytes[at + 2..at + 4]);
    hide BigEndian, Value;
  }

  /** The optional parts of an accepted packet. */
  lemma ExtrasOf(bytes: seq<u8>) returns (x: Extras, profile: seq<u8>)
    requires |bytes| >= FIXED_HEADER && bytes[0] / 64 == 2 && PayloadStart(bytes).Some?
    requires PayloadEnd(bytes, PayloadStart(bytes).value).Some?
    ensures |profile| == 2 && ExtrasAreSound(x) && FirstByte(x) == bytes[0]
    ensures var start := PayloadStart(bytes).value;
            var sourcesEnd, end := FIXED_HEADER + |x.sources|, PayloadEnd(bytes, start).value;
            && sourcesEnd <= start <= end <= |bytes| && x.sources == bytes[12..sourcesEnd]
            && ExtensionBytes(x, profile) == bytes[sourcesEnd..start] && x.padding == bytes[end..]
  {
    var start := PayloadStart(bytes).value;
    var at := FIXED_HEADER + (bytes[0] as int) % 16 * 4;
    PaddingIs(bytes, start);
    var padding := bytes[PayloadEnd(bytes, start).value..];
    hide PayloadStart, PayloadEnd, BigEndian, FirstByte;
    if bytes[0] / 16 % 2 == 0 {
      PlainParts(bytes, start);
      x, profile := Extras(bytes[12..at], None, padding), [0, 0];
    } else {
      ExtendedParts(bytes, start);
      x, profile := Extras(bytes[12..at], Some(bytes[at + 4..start]), padding), bytes[at..at + 2];
      ExtensionParts(bytes, at, start);
    }
    FirstByteIs(bytes[0], |x.sources|, x);
  }

  lemma PaddingIs(bytes: seq<u8>, start: nat)
    requires bytes != [] && start <= |bytes| && PayloadEnd(bytes, start).Some?
    ensures var end := PayloadEnd(bytes, start).value;
            && start <= end <= |bytes| && (bytes[end..] == [] <==> bytes[0] / 32 % 2 == 0)
            && (bytes[end..] != [] ==> |bytes[end..]| < 256 && bytes[end..][|bytes| - end - 1] == |bytes| - end)
  {
  }

  /** Everything the decoder accepts is such a packet: nothing else gets through. */
  lemma DecodedIsPacket(bytes: seq<u8>) returns (header: seq<u8>, x: Extras, profile: seq<u8>)
    requires Decode(bytes).Some?
    ensures IsPacket(bytes, header, x, profile, Decode(bytes).value)
  {
    HeaderOf(bytes, Decode(bytes).value);
    hide IsHeader, Number16, Number32, PayloadStart, PayloadEnd, ExtensionBytes, FirstByte, ExtrasAreSound;
    x, profile := ExtrasOf(bytes);
    header := bytes[..12];
    var start := PayloadStart(bytes).value;
    Parts(bytes, 12, 12 + |x.sources|, start, PayloadEnd(bytes, start).value);
  }

  lemma ExtensionParts(bytes: seq<u8>, at: nat, end: nat)
    requires at + 4 <= end <= |bytes|
    ensures bytes[at..end] == bytes[at..at + 2] + bytes[at + 2..at + 4] + bytes[at + 4..end]
  {
  }

  lemma FirstByteIs(first: u8, sources: nat, x: Extras)
    requires ExtrasAreSound(x) && first / 64 == 2 && sources == |x.sources| == first % 16 * 4
    requires (x.padding == [] <==> first / 32 % 2 == 0) && (x.extension.None? <==> first / 16 % 2 == 0)
    ensures first == FirstByte(x)
  {
  }

  /** The decoder accepts exactly the packets of section 5.1 of RFC 3550, and reads them
      as they were put together. */
  lemma DecodeIff(bytes: seq<u8>, p: Packet)
    ensures Decode(bytes) == Some(p) <==> exists header, x, profile :: IsPacket(bytes, header, x, profile, p)
  {
    if Decode(bytes) == Some(p) {
      var header, x, profile := DecodedIsPacket(bytes);
    }
    forall header, x, profile | IsPacket(bytes, header, x, profile, p)
      ensures Decode(bytes) == Some(p)
    {
      DecodeSkipsExtras(header, x, profile, p);
    }
  }
}

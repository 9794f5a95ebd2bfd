/** One millisecond of audio of one bank, from the Core Audio channels of one engine to
    those of another: interleave, 24-bit code, RTP and back (Core/ChannelLayout.hpp and the
    transmit and consume loops of Engine/LiveEngine.cpp). */
module AudioPath {
  import opened Banks
  import opened Common
  import L24
  import RTP

  const FRAMES: nat := 48

  // ----- Interleaving -----

  /** Where frame `frame` of channel `channel` stands among `count` channels. */
  function Cell(frame: nat, count: nat, channel: nat): nat {
    frame * count + channel
  }

  lemma CellsDiffer(frame: nat, channel: nat, frame': nat, channel': nat, count: nat)
    requires channel < count && channel' < count
    ensures Cell(frame, count, channel) == Cell(frame', count, channel') <==> frame == frame' && channel == channel'
  {
    if frame < frame' {
      assert (frame + 1) * count <= frame' * count;
    } else if frame' < frame {
      assert (frame' + 1) * count <= frame * count;
    }
  }

  lemma CellFits(frame: nat, frames: nat, count: nat, channel: nat)
    requires frame < frames && channel < count
    ensures Cell(frame, count, channel) < frames * count
  {
    assert (frame + 1) * count <= frames * count;
  }

  /** The samples of one channel within an interleaved block. */
  ghost predicate HoldsChannel(block: seq<real>, count: nat, channel: nat, source: seq<real>) {
    forall frame: nat :: frame < |source| ==>
      Cell(frame, count, channel) < |block| && block[Cell(frame, count, channel)] == source[frame]
  }

  predicate LayoutFits(frames: nat, channelIndex: nat, channelCount: nat, size: nat) {
    channelCount != 0 && channelIndex < channelCount && frames <= size / channelCount
  }

  lemma FramesFit(frames: nat, count: nat, size: nat)
    requires count > 0 && frames <= size / count
    ensures frames * count <= size
  {
  }

  method InterleaveChannel(source: seq<real>, channelIndex: nat, channelCount: nat, destination: array<real>)
    returns (ok: bool)
    modifies destination
    ensures ok <==> LayoutFits(|source|, channelIndex, channelCount, destination.Length)
    ensures ok ==> HoldsChannel(destination[..], channelCount, channelIndex, source)
    ensures !ok ==> destination[..] == old(destination[..])
    ensures forall frame: nat, channel: nat {:trigger Cell(frame, channelCount, channel)} ::
      channel < channelCount && (channel != channelIndex || frame >= |source|)
      && Cell(frame, channelCount, channel) < destination.Length ==>
        destination[Cell(frame, channelCount, channel)] == old(destination[Cell(frame, channelCount, channel)])
  {
    if channelCount == 0 || channelIndex >= channelCount || |source| > destination.Length / channelCount {
      return false;
    }
    FramesFit(|source|, channelCount, destination.Length);
    hide Cell;
    for frame := 0 to |source|
      invariant forall f: nat :: f < frame ==>
        Cell(f, channelCount, channelIndex) < destination.Length
        && destination[Cell(f, channelCount, channelIndex)] == source[f]
      invariant forall f: nat, channel: nat {:trigger Cell(f, channelCount, channel)} ::
        channel < channelCount && (channel != channelIndex || f >= frame)
        && Cell(f, channelCount, channel) < destination.Length ==>
          destination[Cell(f, channelCount, channel)] == old(destination[Cell(f, channelCount, channel)])
    {
      CellFits(frame, |source|, channelCount, channelIndex);
      forall f: nat, channel: nat | channel < channelCount
        ensures Cell(frame, channelCount, channelIndex) == Cell(f, channelCount, channel)
                <==> frame == f && channelIndex == channel
      {
        CellsDiffer(frame, channelIndex, f, channel, channelCount);
      }
      destination[Cell(frame, channelCount, channelIndex)] := source[frame];
    }
    return true;
  }

  method DeinterleaveChannel(source: seq<real>, channelIndex: nat, channelCount: nat, destination: array<real>)
    returns (ok: bool)
    modifies destination
    ensures ok <==> LayoutFits(destination.Length, channelIndex, channelCount, |source|)
    ensures if ok then HoldsChannel(source, channelCount, channelIndex, destination[..])
            else destination[..] == old(destination[..])
  {
    if channelCount == 0 || channelIndex >= channelCount || destination.Length > |source| / channelCount {
      return false;
    }
    FramesFit(destination.Length, channelCount, |source|);
    hide Cell;
    for frame := 0 to destination.Length
      invariant forall f: nat :: f < frame ==>
        Cell(f, channelCount, channelIndex) < |source| && destination[f] == source[Cell(f, channelCount, channelIndex)]
    {
      CellFits(frame, destination.Length, channelCount, channelIndex);
      destination[frame] := source[Cell(frame, channelCount, channelIndex)];
    }
    return true;
  }

  // ----- Sending one bank -----

  /** What a channel sends when its ring held `block`: silence fills the rest. */
  function Padded(block: seq<real>): (r: seq<real>)
    ensures |r| == 48 && (|block| <= 48 ==> block <= r) && forall frame :: |block| <= frame < 48 ==> r[frame] == 0.0
  {
    seq(FRAMES, frame requires 0 <= frame < FRAMES => if frame < |block| then block[frame] else 0.0)
  }

  method Gather(count: nat, blocks: seq<seq<real>>, interleaved: array<real>)
    requires count > 0 && |blocks| == count && interleaved.Length == FRAMES * count
    modifies interleaved
    ensures forall ch :: 0 <= ch < count ==> HoldsChannel(interleaved[..], count, ch, Padded(blocks[ch]))
  {
    WholeBlockFits(count);
    for ch := 0 to count
      invariant forall k :: 0 <= k < ch ==> HoldsChannel(interleaved[..], count, k, Padded(blocks[k]))
    {
      hide Cell, Padded, LayoutFits;
      ghost var before := interleaved[..];
      var ok := InterleaveChannel(Padded(blocks[ch]), ch, count, interleaved);
      forall k | 0 <= k < ch
        ensures HoldsChannel(interleaved[..], count, k, Padded(blocks[k]))
      {
        assert HoldsChannel(before, count, k, Padded(blocks[k]));
      }
    }
  }

  lemma WholeBlockFits(count: nat)
    requires count > 0
    ensures forall ch: nat :: ch < count ==> LayoutFits(FRAMES, ch, count, FRAMES * count)
  {
  }

  /** The three bytes of a frame of a channel. */
  predicate IsCoded(payload: seq<u8>, count: nat, channel: nat, frame: nat, code: seq<u8>) {
    var at := 3 * Cell(frame, count, channel);
    at + 3 <= |payload| && payload[at..at + 3] == code
  }

  /** The payload carries every sample of every channel, coded in its place. */
  ghost predicate Carries(payload: seq<u8>, count: nat, blocks: seq<seq<real>>)
    requires |blocks| == count
  {
    |payload| == 3 * (FRAMES * count) && forall channel: nat, frame: nat :: channel < count && frame < FRAMES ==>
      IsCoded(payload, count, channel, frame, L24.CodeBytes(L24.EncodeSample(Padded(blocks[channel])[frame])))
  }

  lemma CarriesAll(payload: seq<u8>, count: nat, blocks: seq<seq<real>>, flat: seq<real>)
    requires |flat| == FRAMES * count && |blocks| == count && L24.IsEncoding(flat, payload)
    requires forall ch :: 0 <= ch < count ==> HoldsChannel(flat, count, ch, Padded(blocks[ch]))
    ensures Carries(payload, count, blocks)
  {
    hide Padded, L24.CodeBytes, L24.EncodeSample;
    forall channel: nat, frame: nat | channel < count && frame < FRAMES
      ensures IsCoded(payload, count, channel, frame, L24.CodeBytes(L24.EncodeSample(Padded(blocks[channel])[frame])))
    {
      assert HoldsChannel(flat, count, channel, Padded(blocks[channel]));
      assert flat[Cell(frame, count, channel)] == Padded(blocks[channel])[frame];
    }
  }

  const SSRC_BASE: u32 := 0x4145_5342

  /** One packet of `transmitLoop`. */
  method SendBank(c: EngineConfig, bank: nat, blocks: seq<seq<real>>, sequence: u16, timestamp: u32)
    returns (wire: seq<u8>)
    requires ChannelsFit(c) && bank < c.streamCount && |blocks| == c.channelsPerStream && c.txPayloadType <= 127
    ensures var p := RTP.Decode(wire);
            && p.Some? && Carries(p.value.payload, c.channelsPerStream, blocks)
            && p.value == RTP.Packet(c.txPayloadType, false, sequence, timestamp, 0x4145_5342 + bank, p.value.payload)
  {
    var count := c.channelsPerStream;
    Channels(c);
    hide ChannelsFit, HoldsChannel, L24.IsEncoding, Carries, RTP.Decode;
    var interleaved := new real[FRAMES * count](_ => 0.0);
    Gather(count, blocks, interleaved);
    var coded := new u8[3 * (FRAMES * count)](_ => 0);
    var ok := L24.Encode(interleaved[..], coded);
    CarriesAll(coded[..], count, blocks, interleaved[..]);
    var packet := RTP.Packet(c.txPayloadType, false, sequence, timestamp, SSRC_BASE + bank, coded[..]);
    var buffer := new u8[RTP.FIXED_HEADER + 3 * (FRAMES * count)](_ => 0);
    var sent, written := RTP.Encode(packet, buffer);
    wire := buffer[..written];
    RTP.PlainRoundTrip(wire, packet);
  }

  lemma Channels(c: EngineConfig)
    requires ChannelsFit(c)
    ensures c.channelsPerStream > 0 && c.streamCount <= 8
  {
  }

  // ----- Receiving one bank -----

  /** The Core Audio channels of a bank. */
  predicate InBank(c: EngineConfig, bank: nat, k: int) {
    VirtualChannel(c, bank, 0) <= k < VirtualChannel(c, bank, 0) + c.channelsPerStream
  }

  predicate Delivered(payload: seq<u8>, count: nat, channel: int, block: seq<real>) {
    channel >= 0 && |block| == FRAMES && forall frame: nat :: frame < FRAMES ==>
      var at := 3 * Cell(frame, count, channel);
      at + 3 <= |payload| && block[frame] == L24.DecodeSample(L24.BytesCode(payload[at..at + 3]))
  }

  /** Every channel of the bank has its frames on its own Core Audio channel. */
  ghost predicate IsScattered(c: EngineConfig, bank: nat, payload: seq<u8>, channels: seq<seq<real>>) {
    forall k :: 0 <= k < |channels| && InBank(c, bank, k) ==>
      Delivered(payload, c.channelsPerStream, k - VirtualChannel(c, bank, 0), channels[k])
  }

  /** The checks of `receiveLoop` on a datagram. */
  predicate IsForBank(c: EngineConfig, p: Option<RTP.Packet>) {
    p.Some? && p.value.payloadType == c.rxPayloadType && |p.value.payload| == 3 * (FRAMES * c.channelsPerStream)
  }

  /** One packet through the checks of `receiveLoop` and the mapping of `consumeLoop`; the
      blocks go to their Core Audio channels. */
  method ReceiveBank(c: EngineConfig, bank: nat, wire: seq<u8>, channels: array<seq<real>>) returns (ok: bool)
    requires ChannelsFit(c) && bank < c.streamCount && channels.Length == VIRTUAL_CHANNELS
    modifies channels
    ensures ok <==> IsForBank(c, RTP.Decode(wire))
    ensures ok ==> IsScattered(c, bank, RTP.Decode(wire).value.payload, channels[..])
    ensures forall k :: 0 <= k < VIRTUAL_CHANNELS && !(ok && InBank(c, bank, k)) ==> channels[k] == old(channels[k])
  {
    var count := c.channelsPerStream;
    var p := RTP.Decode(wire);
    if p.None? || p.value.payloadType != c.rxPayloadType || |p.value.payload| != 3 * (FRAMES * count) {
      return false;
    }
    Channels(c);
    hide ChannelsFit, L24.IsDecoding, IsScattered, InBank, RTP.Decode;
    var samples := new real[FRAMES * count](_ => 0.0);
    ok := L24.Decode(p.value.payload, samples);
    Scatter(c, bank, p.value.payload, samples[..], channels);
  }

  lemma BankFits(c: EngineConfig, bank: nat)
    requires ChannelsFit(c) && bank < c.streamCount
    ensures 0 <= VirtualChannel(c, bank, 0) && VirtualChannel(c, bank, 0) + c.channelsPerStream <= VIRTUAL_CHANNELS
  {
    var count := c.channelsPerStream;
    Channels(c);
    hide ChannelsFit;
    VirtualChannelsAreDistinct(c, bank, 0, bank, 0);
    VirtualChannelsAreDistinct(c, bank, count - 1, bank, count - 1);
    assert VirtualChannel(c, bank, 0) + count - 1 == VirtualChannel(c, bank, count - 1);
  }

  method OneChannel(payload: seq<u8>, samples: seq<real>, ch: nat, count: nat) returns (block: seq<real>)
    requires ch < count && |samples| == FRAMES * count && L24.IsDecoding(payload, samples)
    ensures Delivered(payload, count, ch, block)
  {
    WholeBlockFits(count);
    hide LayoutFits, HoldsChannel, Delivered, L24.IsDecoding;
    var channel := new real[FRAMES](_ => 0.0);
    var ok := DeinterleaveChannel(samples, ch, count, channel);
    block := channel[..];
    DeliveredIsHeld(payload, samples, count, ch, block);
  }

  method Scatter(c: EngineConfig, bank: nat, payload: seq<u8>, samples: seq<real>, channels: array<seq<real>>)
    requires ChannelsFit(c) && bank < c.streamCount && channels.Length == VIRTUAL_CHANNELS
    requires |samples| == FRAMES * c.channelsPerStream && L24.IsDecoding(payload, samples)
    modifies channels
    ensures IsScattered(c, bank, payload, channels[..])
    ensures forall k :: 0 <= k < VIRTUAL_CHANNELS && !InBank(c, bank, k) ==> channels[k] == old(channels[k])
  {
    var count, base := c.channelsPerStream, VirtualChannel(c, bank, 0);
    BankFits(c, bank);
    assert forall k :: InBank(c, bank, k) <==> base <= k < base + count;
    hide ChannelsFit, Delivered, VirtualChannel, InBank, IsScattered, L24.IsDecoding;
    ScatterAt(base, count, payload, samples, channels);
    ScatteredAll(c, bank, payload, channels[..], base);
  }

  method ScatterAt(base: nat, count: nat, payload: seq<u8>, samples: seq<real>, channels: array<seq<real>>)
    requires base + count <= channels.Length && |samples| == FRAMES * count && L24.IsDecoding(payload, samples)
    modifies channels
    ensures forall k :: base <= k < base + count ==> Delivered(payload, count, k - base, channels[k])
    ensures forall k :: 0 <= k < channels.Length && !(base <= k < base + count) ==> channels[k] == old(channels[k])
  {
    hide Delivered, L24.IsDecoding;
    for ch := 0 to count
      invariant forall k :: base <= k < base + ch ==> Delivered(payload, count, k - base, channels[k])
      invariant forall k :: 0 <= k < channels.Length && !(base <= k < base + ch) ==> channels[k] == old(channels[k])
    {
      var block := OneChannel(payload, samples, ch, count);
      channels[base + ch] := block;
    }
  }

  lemma ScatteredAll(c: EngineConfig, bank: nat, payload: seq<u8>, channels: seq<seq<real>>, base: int)
    requires base == VirtualChannel(c, bank, 0)
    requires forall k :: 0 <= k < |channels| && base <= k < base + c.channelsPerStream ==>
      Delivered(payload, c.channelsPerStream, k - base, channels[k])
    ensures IsScattered(c, bank, payload, channels)
  {
  }

  lemma DeliveredIsHeld(payload: seq<u8>, samples: seq<real>, count: nat, channel: nat, block: seq<real>)
    requires |block| == FRAMES && HoldsChannel(samples, count, channel, block) && L24.IsDecoding(payload, samples)
    ensures Delivered(payload, count, channel, block)
  {
    hide L24.DecodeSample, L24.BytesCode, Cell;
    forall frame: nat | frame < FRAMES
      ensures var at := 3 * Cell(frame, count, channel);
              at + 3 <= |payload| && block[frame] == L24.DecodeSample(L24.BytesCode(payload[at..at + 3]))
    {
      assert samples[Cell(frame, count, channel)] == block[frame];
    }
  }

  // ----- The whole path -----

  predicate Near(block: seq<real>, frame: nat, sample: real) {
    frame < |block| && -1.5 / 8_388_607.0 <= block[frame] - L24.Clamp(sample) <= 1.5 / 8_388_607.0
  }

  /** Coding and decoding keeps every frame of every channel within 1.5 code steps. */
  lemma ArrivesNear(payload: seq<u8>, count: nat, blocks: seq<seq<real>>, channel: nat, block: seq<real>, frame: nat)
    requires |blocks| == count && Carries(payload, count, blocks) && channel < count && frame < FRAMES
    requires Delivered(payload, count, channel, block)
    ensures Near(block, frame, Padded(blocks[channel])[frame])
  {
    hide L24.CodeBytes, L24.BytesCode, L24.EncodeSample, L24.DecodeSample, L24.Clamp, Padded, Cell;
    var sample := Padded(blocks[channel])[frame];
    assert IsCoded(payload, count, channel, frame, L24.CodeBytes(L24.EncodeSample(sample)));
    L24.CodeRoundTrip(L24.EncodeSample(sample));
    L24.CodecError(sample);
  }

  /** What a Core Audio channel of the bank should receive. */
  function Sent(d: EngineConfig, bank: nat, blocks: seq<seq<real>>, k: int): (r: seq<real>)
    requires InBank(d, bank, k) && |blocks| == d.channelsPerStream
    ensures |r| == FRAMES
  {
    Padded(blocks[k - VirtualChannel(d, bank, 0)])
  }

  ghost predicate BankArrives(d: EngineConfig, bank: nat, blocks: seq<seq<real>>, channels: seq<seq<real>>)
    requires |blocks| == d.channelsPerStream
  {
    forall k, frame: nat :: 0 <= k < |channels| && InBank(d, bank, k) && frame < FRAMES ==>
      Near(channels[k], frame, Sent(d, bank, blocks, k)[frame])
  }

  lemma BankArrivesNear(d: EngineConfig, bank: nat, payload: seq<u8>, blocks: seq<seq<real>>, channels: seq<seq<real>>)
    requires |blocks| == d.channelsPerStream && Carries(payload, d.channelsPerStream, blocks)
    requires IsScattered(d, bank, payload, channels)
    ensures BankArrives(d, bank, blocks, channels)
  {
    forall k, frame: nat | 0 <= k < |channels| && InBank(d, bank, k) && frame < FRAMES
      ensures Near(channels[k], frame, Sent(d, bank, blocks, k)[frame])
    {
      var channel := k - VirtualChannel(d, bank, 0);
      assert Delivered(payload, d.channelsPerStream, channel, channels[k]);
      hide Carries, Delivered, Near, Padded, IsScattered, VirtualChannel;
      ArrivesNear(payload, d.channelsPerStream, blocks, channel, channels[k], frame);
    }
  }

  /** A block arrives on the Core Audio channel of the same place in the bank, every frame
      within 1.5 code steps of the clamped sample, and no other channel is touched. */
  method Carry(c: EngineConfig, d: EngineConfig, bank: nat, blocks: seq<seq<real>>, sequence: u16, timestamp: u32,
               channels: array<seq<real>>)
    requires ChannelsFit(c) && bank < c.streamCount && |blocks| == c.channelsPerStream && c.txPayloadType <= 127
    requires ChannelsFit(d) && bank < d.streamCount && channels.Length == VIRTUAL_CHANNELS
    requires d.channelsPerStream == c.channelsPerStream && d.rxPayloadType == c.txPayloadType
    modifies channels
    ensures BankArrives(d, bank, blocks, channels[..])
    ensures forall k :: 0 <= k < VIRTUAL_CHANNELS && !InBank(d, bank, k) ==> channels[k] == old(channels[k])
  {
    hide ChannelsFit, InBank, IsScattered, BankArrives, RTP.Decode;
    var wire := SendBank(c, bank, blocks, sequence, timestamp);
    var ok := ReceiveBank(d, bank, wire, channels);
    BankArrivesNear(d, bank, RTP.Decode(wire).value.payload, blocks, channels[..]);
  }

  /** What was in the ring arrives on its channel, and silence for what was not. */
  lemma BlocksArrive(d: EngineConfig, bank: nat, blocks: seq<seq<real>>, channels: seq<seq<real>>, ch: nat, frame: nat)
    requires |blocks| == d.channelsPerStream && BankArrives(d, bank, blocks, channels)
    requires ch < d.channelsPerStream && frame < 48 && 0 <= VirtualChannel(d, bank, ch) < |channels|
    ensures Near(channels[VirtualChannel(d, bank, ch)], frame, if frame < |blocks[ch]| then blocks[ch][frame] else 0.0)
  {
    var k := VirtualChannel(d, bank, ch);
    assert InBank(d, bank, k) && k - VirtualChannel(d, bank, 0) == ch;
    assert Near(channels[k], frame, Sent(d, bank, blocks, k)[frame]);
    assert frame < |blocks[ch]| ==> Padded(blocks[ch])[frame] == blocks[ch][frame];
    hide Near;
  }

  /** The samples of one frame stand side by side, channel after channel, and the frames
      follow each other. */
  lemma FramesAreInterleaved(frame: nat, count: nat, channel: nat)
    requires channel < count
    ensures Cell(0, count, 0) == 0
    ensures Cell(frame, count, channel) + 1
            == if channel + 1 < count then Cell(frame, count, channel + 1) else Cell(frame + 1, count, 0)
  {
  }
}

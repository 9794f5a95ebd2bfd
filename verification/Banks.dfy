/** One configuration, several banks: the address, port and channels of each
    (Engine/LiveEngine.cpp). */
module Banks {
  import opened Bytes
  import opened Common
  import opened IPv4

  const VIRTUAL_CHANNELS: nat := 64
  const MAX_STREAMS: nat := 8

  /** The part of `LiveEngineConfig` that places the banks. */
  datatype EngineConfig = EngineConfig(
    interfaceAddress: string,
    rxAddress: string,
    rxSourceAddress: string,
    txAddress: string,
    rxPort: u16,
    txPort: u16,
    rxPayloadType: u8,
    txPayloadType: u8,
    channelsPerStream: nat,
    coreAudioStartChannel: nat,
    streamCount: nat,
    portStride: u16,
    jitterPackets: nat)

  predicate SupportedChannelCount(channels: nat) {
    channels == 1 || channels == 2 || channels == 4 || channels == 8
  }

  function AddressNumber(a: Octets): (n: u32) {
    ValueBound(a);
    PowersOf256();
    Value(a)
  }

  function AddressOf(n: u32): (a: Octets) {
    BigEndian(n, 4)
  }

  lemma AddressOfNumber(a: Octets)
    ensures AddressOf(AddressNumber(a)) == a
  {
    BigEndianOfValue(a);
  }

  lemma NumberOfAddress(n: u32)
    ensures AddressNumber(AddressOf(n)) == n
  {
    PowersOf256();
    ValueOfBigEndian(n, 4);
  }

  /** `bankAddress`: a multicast base is shifted, any other address is kept. */
  function BankAddress(base: string, bank: nat): string {
    var parsed := IPv4.Parse(base);
    if parsed.None? then ""
    else if !IsMulticast(parsed.value) then base
    else
      var value := AddressNumber(parsed.value);
      if bank > 0xFFFF_FFFF - value then "" else ToText(AddressOf(value + bank))
  }

  function BankPort(base: u16, stride: u16, bank: nat): u16 {
    (base + stride * bank) % TWO16
  }

  /** The banks fit the Core Audio channels. */
  predicate ChannelsFit(c: EngineConfig) {
    && 0 < c.streamCount <= MAX_STREAMS
    && SupportedChannelCount(c.channelsPerStream)
    && c.coreAudioStartChannel > 0
    && c.coreAudioStartChannel - 1 + c.streamCount * c.channelsPerStream <= VIRTUAL_CHANNELS
  }

  /** The ports of the last bank exist. */
  predicate PortsFit(c: EngineConfig)
    requires c.streamCount > 0
  {
    && c.portStride * (c.streamCount - 1) <= 65535 - c.rxPort
    && c.portStride * (c.streamCount - 1) <= 65535 - c.txPort
  }

  /** The range checks of `start`, sockets and shared memory aside. */
  predicate EngineAccepts(c: EngineConfig) {
    && ChannelsFit(c)
    && c.interfaceAddress != []
    && PortsFit(c)
    && BankAddress(c.rxAddress, c.streamCount - 1) != []
    && BankAddress(c.txAddress, c.streamCount - 1) != []
  }

  /** The Core Audio channel that channel `ch` of a bank is read from or written to. */
  function VirtualChannel(c: EngineConfig, bank: nat, ch: nat): int {
    c.coreAudioStartChannel - 1 + bank * c.channelsPerStream + ch
  }

  /** Every channel of every bank has its own Core Audio channel. */
  lemma VirtualChannelsAreDistinct(c: EngineConfig, bank: nat, ch: nat, bank': nat, ch': nat)
    requires ChannelsFit(c)
    requires bank < c.streamCount && ch < c.channelsPerStream
    requires bank' < c.streamCount && ch' < c.channelsPerStream
    ensures 0 <= VirtualChannel(c, bank, ch) < VIRTUAL_CHANNELS
    ensures VirtualChannel(c, bank, ch) == VirtualChannel(c, bank', ch') <==> bank == bank' && ch == ch'
  {
    var n := c.channelsPerStream;
    assert (bank + 1) * n <= c.streamCount * n;
    if bank < bank' {
      assert (bank + 1) * n <= bank' * n;
    } else if bank' < bank {
      assert (bank' + 1) * n <= bank * n;
    }
  }

  /** Banks keep their ports apart by the stride, without wrapping. */
  lemma BankPortsDoNotWrap(base: u16, stride: u16, count: nat, bank: nat)
    requires bank < count && stride * (count - 1) <= 65535 - base
    ensures BankPort(base, stride, bank) == base + stride * bank
  {
  }

  /** The shifted address of every bank is a number away from the base. */
  lemma BankAddressIsShifted(base: string, count: nat, bank: nat)
    requires bank < count && IPv4.Parse(base).Some? && IsMulticast(IPv4.Parse(base).value)
    requires BankAddress(base, count - 1) != []
    ensures var shifted := IPv4.Parse(BankAddress(base, bank));
            shifted.Some? && AddressNumber(shifted.value) == AddressNumber(IPv4.Parse(base).value) + bank
  {
    hide IPv4.Parse, AddressNumber, AddressOf, ToText, IsAddress;
    var value := AddressNumber(IPv4.Parse(base).value);
    assert count - 1 <= 0xFFFF_FFFF - value;
    var shifted := AddressOf(value + bank);
    assert BankAddress(base, bank) == ToText(shifted);
    hide *;
    ParseOfText(shifted);
    NumberOfAddress(value + bank);
  }
}

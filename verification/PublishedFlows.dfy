/** What an engine announces, in terms of the flows the user asked for
    (Engine/LiveEngine.cpp on top of src-tauri/src/engine.rs). */
module PublishedFlows {
  import opened Arguments
  import opened Banks
  import opened Bytes
  import opened Common
  import opened Configurations
  import opened Discovery
  import opened IPv4
  import opened SDP
  import opened Sessions
  import opened Text

  /** The session a peer should see for a flow: where it is sent, how, and on which Core
      Audio channels. */
  function SessionOf(f: Flow, interfaceAddress: string): SessionDescription
    requires f.startChannel > 0
  {
    SessionDescription(
      "AES-Bridge-Outputs-" + Print(f.startChannel) + "-" + Print(f.startChannel + f.channels - 1),
      interfaceAddress, f.multicastAddress, f.port, f.payloadType, f.encoding, f.sampleRate, f.channels,
      1, f.framesPerPacket, 0, interfaceAddress)
  }

  lemma SessionFrom(e: EngineConfig, bank: nat, f: Flow)
    requires ChannelsFit(e) && f.startChannel > 0
    requires BankAddress(e.txAddress, bank) == f.multicastAddress && BankPort(e.txPort, e.portStride, bank) == f.port
    requires e.txPayloadType == f.payloadType && e.channelsPerStream == f.channels
    requires e.coreAudioStartChannel + bank * e.channelsPerStream == f.startChannel
    requires f.encoding == "L24" && f.sampleRate == 48000 && f.framesPerPacket == 48
    ensures PublishedSession(e, bank) == SessionOf(f, e.interfaceAddress)
  {
    hide Print, BankAddress, BankPort, ChannelsFit;
  }

  lemma BankFields(e: EngineConfig, base: u16, payloadType: u8, flows: seq<Flow>, bank: nat)
    requires bank < |flows| && BankIsFlow(base, payloadType, e, flows, bank)
    ensures BankPort(base, e.portStride, bank) == flows[bank].port && payloadType == flows[bank].payloadType
    ensures e.channelsPerStream == flows[bank].channels
    ensures e.coreAudioStartChannel + bank * e.channelsPerStream == flows[bank].startChannel
  {
  }

  lemma SoundFields(f: Flow, profileId: string)
    requires FlowIsSound(f, profileId)
    ensures f.encoding == "L24" && f.sampleRate == 48000 && f.framesPerPacket == 48 && f.startChannel > 0
  {
    hide StrictParse, IsBlank;
  }

  lemma TransmitArguments(c: Configuration, resolved: string)
    requires Accepted(c)
    ensures var e, flows := EngineArguments(c, resolved), FlowsOf(c, Transmit);
            && flows != [] && IsValid(c) && e.txAddress == flows[0].multicastAddress && StrictParse(flows[0].multicastAddress).Some?
            && e.interfaceAddress == if c.interfaceAddress != [] then c.interfaceAddress else resolved
  {
    hide IsValid, FlowsOf, PortStride, StrictParse, IsBank;
  }

  lemma PublishableBase(e: EngineConfig, bank: nat)
    requires Publishable(e, bank) && StrictParse(e.txAddress).Some?
    ensures ChannelsFit(e) && IsMulticast(StrictParse(e.txAddress).value)
  {
    hide ChannelsFit;
    if !IsMulticast(StrictParse(e.txAddress).value) {
      KeptText(e.txAddress);
    }
  }

  /** The session announced for a bank is that of the transmit flow in its place. */
  lemma PublishedIsTheFlow(c: Configuration, resolved: string, bank: nat)
    requires Accepted(c) && PortsFit(EngineArguments(c, resolved)) && Publishable(EngineArguments(c, resolved), bank)
    ensures var e, flows := EngineArguments(c, resolved), FlowsOf(c, Transmit);
            && ChannelsFit(e) && bank < |flows| && flows[bank].startChannel > 0
            && e.interfaceAddress == (if c.interfaceAddress != [] then c.interfaceAddress else resolved)
            && PublishedSession(e, bank) == SessionOf(flows[bank], e.interfaceAddress)
  {
    var e, flows := EngineArguments(c, resolved), FlowsOf(c, Transmit);
    assert bank < e.streamCount;
    hide *;
    TransmitArguments(c, resolved);
    PublishableBase(e, bank);
    StreamsAreFlows(c, resolved);
    BanksAreTheFlows(c, resolved, bank);
    TransmitFields(c, resolved);
    BankFields(e, e.txPort, e.txPayloadType, flows, bank);
    ChosenIsSound(c, Transmit, bank);
    SoundFields(flows[bank], c.profileId);
    SessionFrom(e, bank, flows[bank]);
  }

  lemma StreamsAreFlows(c: Configuration, resolved: string)
    requires Accepted(c)
    ensures EngineArguments(c, resolved).streamCount == |FlowsOf(c, Receive)| == |FlowsOf(c, Transmit)|
  {
    hide IsValid, FlowsOf, PortStride, UniformBanks;
  }

  lemma TransmitFields(c: Configuration, resolved: string)
    requires Accepted(c)
    ensures EngineArguments(c, resolved).txAddress == FlowsOf(c, Transmit)[0].multicastAddress
  {
    hide IsValid, FlowsOf, PortStride, UniformBanks;
  }

  // ----- Which banks are announced -----

  lemma FirstOctet(a: Octets)
    ensures (a[0] as int) * 0x100_0000 <= AddressNumber(a) < (a[0] as int) * 0x100_0000 + 0x100_0000
  {
    assert a == a[..1] + a[1..];
    ValueAppend(a[..1], a[1..]);
    ValueBound(a[1..]);
    assert a[..1] == [a[0]] && [a[0]][..0] == [];
    assert Pow256(3) == 0x100_0000;
  }

  /** The bank of a flow that is sent to a multicast address can be announced once the
      interface has an address; the bank of any other flow cannot. */
  lemma PublishableIffMulticast(c: Configuration, resolved: string, bank: nat)
    requires Accepted(c) && bank < |FlowsOf(c, Transmit)|
    ensures var e, f := EngineArguments(c, resolved), FlowsOf(c, Transmit)[bank];
            && StrictParse(f.multicastAddress).Some?
            && (Publishable(e, bank) <==> IsAddress(e.interfaceAddress) && IsMulticast(StrictParse(f.multicastAddress).value))
  {
    var e, flows := EngineArguments(c, resolved), FlowsOf(c, Transmit);
    var base, f := flows[0], flows[bank];
    hide *;
    TransmitArguments(c, resolved);
    TransmitFields(c, resolved);
    StreamsAreFlows(c, resolved);
    TransmitUniform(c, bank);
    ArgumentChannelsFit(c, resolved);
    ChosenIsSound(c, Transmit, 0);
    ChosenIsSound(c, Transmit, bank);
    PayloadFits(c, resolved, c.profileId);
    AddressesFollow(flows);
    if IsMulticast(StrictParse(base.multicastAddress).value) {
      MulticastBank(e, bank, f.multicastAddress);
    } else {
      KeptText(base.multicastAddress);
      LoopbackBase(base, f, bank, c.profileId);
      OtherBank(e, bank);
    }
  }

  lemma TransmitUniform(c: Configuration, bank: nat)
    requires Accepted(c) && bank < |FlowsOf(c, Transmit)|
    ensures var flows := FlowsOf(c, Transmit);
            && UniformBanks(flows) && |flows| <= MAX_STREAMS && StrictParse(flows[bank].multicastAddress).Some?
            && AddressNumber(StrictParse(flows[bank].multicastAddress).value)
               == AddressNumber(StrictParse(flows[0].multicastAddress).value) + bank
  {
    hide IsValid, FlowsOf, PortStride, StrictParse, AddressNumber;
    assert IsBank(FlowsOf(c, Transmit), bank);
  }

  lemma PayloadFits(c: Configuration, resolved: string, profileId: string)
    requires Accepted(c) && FlowIsSound(FlowsOf(c, Transmit)[0], profileId)
    ensures EngineArguments(c, resolved).txPayloadType <= 127
  {
    hide IsValid, FlowsOf, PortStride, UniformBanks, StrictParse, IsBlank;
  }

  lemma MulticastBank(e: EngineConfig, bank: nat, text: string)
    requires ChannelsFit(e) && bank < e.streamCount && e.txPayloadType <= 127
    requires BankAddress(e.txAddress, bank) == text && StrictParse(text).Some?
    ensures Publishable(e, bank) <==> IsAddress(e.interfaceAddress) && IsMulticast(StrictParse(text).value)
  {
    hide ChannelsFit, BankAddress, ToText, IsMulticast;
  }

  lemma OtherBank(e: EngineConfig, bank: nat)
    requires StrictParse(e.txAddress).Some? && !IsMulticast(StrictParse(e.txAddress).value)
    requires BankAddress(e.txAddress, bank) == e.txAddress
    ensures !Publishable(e, bank)
  {
    hide ChannelsFit, BankAddress, ToText, IsMulticast;
  }

  /** Up to seven addresses after a loopback one there is no multicast one. */
  lemma LoopbackBase(base: Flow, f: Flow, bank: nat, profileId: string)
    requires FlowIsSound(base, profileId) && StrictParse(base.multicastAddress).Some? && StrictParse(f.multicastAddress).Some?
    requires !IsMulticast(StrictParse(base.multicastAddress).value) && bank <= MAX_STREAMS
    requires AddressNumber(StrictParse(f.multicastAddress).value)
             == AddressNumber(StrictParse(base.multicastAddress).value) + bank
    ensures !IsMulticast(StrictParse(f.multicastAddress).value)
  {
    FirstOctet(StrictParse(base.multicastAddress).value);
    FirstOctet(StrictParse(f.multicastAddress).value);
    hide StrictParse, AddressNumber, IsBlank;
  }
}

/** From the list of flows to the arguments of the engine (src-tauri/src/engine.rs), and
    back to the flows bank by bank (Engine/LiveEngine.cpp). */
module Arguments {
  import opened Banks
  import opened Common
  import opened Configurations
  import opened IPv4
  import opened Text

  // ----- Choosing and ordering the flows -----

  function EnabledFlows(flows: seq<Flow>, d: Direction): seq<Flow> {
    if flows == [] then []
    else EnabledFlows(flows[..|flows| - 1], d) + if Enabled(flows[|flows| - 1], d) then [flows[|flows| - 1]] else []
  }

  /** Puts a flow after every flow that starts no later. */
  function Place(sorted: seq<Flow>, f: Flow): seq<Flow> {
    if sorted == [] || sorted[|sorted| - 1].startChannel <= f.startChannel then sorted + [f]
    else Place(sorted[..|sorted| - 1], f) + [sorted[|sorted| - 1]]
  }

  /** `sort_by_key` on the start channel, which is stable. */
  function SortByStart(flows: seq<Flow>): seq<Flow> {
    if flows == [] then [] else Place(SortByStart(flows[..|flows| - 1]), flows[|flows| - 1])
  }

  predicate StartsAscend(flows: seq<Flow>) {
    forall i, j :: 0 <= i < j < |flows| ==> flows[i].startChannel <= flows[j].startChannel
  }

  lemma {:induction false} PlaceKeepsFlows(sorted: seq<Flow>, f: Flow)
    ensures multiset(Place(sorted, f)) == multiset(sorted) + multiset{f}
    decreases |sorted|
  {
    if sorted != [] && sorted[|sorted| - 1].startChannel > f.startChannel {
      var init := sorted[..|sorted| - 1];
      assert sorted == init + [sorted[|sorted| - 1]];
      PlaceKeepsFlows(init, f);
    }
  }

  /** Nothing in the list starts after `bound`. */
  predicate StartsBy(flows: seq<Flow>, bound: int) {
    forall f :: f in flows ==> f.startChannel <= bound
  }

  lemma PlaceStartsBy(sorted: seq<Flow>, f: Flow, bound: int)
    requires StartsBy(sorted, bound) && f.startChannel <= bound
    ensures StartsBy(Place(sorted, f), bound)
  {
    PlaceKeepsFlows(sorted, f);
    forall g | g in Place(sorted, f)
      ensures g.startChannel <= bound
    {
      assert g in multiset(Place(sorted, f));
    }
  }

  lemma AscendInit(flows: seq<Flow>)
    requires StartsAscend(flows) && flows != []
    ensures StartsAscend(flows[..|flows| - 1]) && StartsBy(flows[..|flows| - 1], flows[|flows| - 1].startChannel)
  {
  }

  lemma AscendAppend(flows: seq<Flow>, last: Flow)
    requires StartsAscend(flows) && StartsBy(flows, last.startChannel)
    ensures StartsAscend(flows + [last])
  {
    var all := flows + [last];
    forall i, j | 0 <= i < j < |all|
      ensures all[i].startChannel <= all[j].startChannel
    {
      assert all[i] in flows;
    }
  }

  lemma {:induction false} PlaceSorts(sorted: seq<Flow>, f: Flow)
    requires StartsAscend(sorted)
    ensures StartsAscend(Place(sorted, f))
    decreases |sorted|
  {
    if sorted == [] {
      return;
    }
    var init, last := sorted[..|sorted| - 1], sorted[|sorted| - 1];
    AscendInit(sorted);
    hide StartsAscend;
    if last.startChannel <= f.startChannel {
      StartsAllBy(sorted, f.startChannel);
      AscendAppend(sorted, f);
    } else {
      PlaceSorts(init, f);
      PlaceStartsBy(init, f, last.startChannel);
      AscendAppend(Place(init, f), last);
    }
  }

  lemma StartsAllBy(flows: seq<Flow>, bound: int)
    requires flows != [] && flows[|flows| - 1].startChannel <= bound
    requires StartsBy(flows[..|flows| - 1], flows[|flows| - 1].startChannel)
    ensures StartsBy(flows, bound)
  {
    forall f | f in flows
      ensures f.startChannel <= bound
    {
      assert f in flows[..|flows| - 1] || f == flows[|flows| - 1];
    }
  }

  /** The sorted list is an ascending permutation. */
  lemma {:induction false} SortSorts(flows: seq<Flow>)
    ensures StartsAscend(SortByStart(flows)) && multiset(SortByStart(flows)) == multiset(flows)
  {
    if flows != [] {
      var n := |flows| - 1;
      assert flows == flows[..n] + [flows[n]];
      SortSorts(flows[..n]);
      PlaceSorts(SortByStart(flows[..n]), flows[n]);
      PlaceKeepsFlows(SortByStart(flows[..n]), flows[n]);
      hide StartsAscend;
    }
  }

  /** The flows of one direction, by rising start channel. */
  function FlowsOf(c: Configuration, d: Direction): seq<Flow> {
    SortByStart(EnabledFlows(c.flows, d))
  }

  // ----- What the engine can express -----

  /** One width, one payload type, consecutive channels and consecutive addresses. */
  predicate UniformBanks(flows: seq<Flow>) {
    && flows != [] && StrictParse(flows[0].multicastAddress).Some?
    && forall i :: 0 <= i < |flows| ==> IsBank(flows, i)
  }

  predicate IsBank(flows: seq<Flow>, i: int)
    requires 0 <= i < |flows| && StrictParse(flows[0].multicastAddress).Some?
  {
    var address := StrictParse(flows[i].multicastAddress);
    && flows[i].channels == flows[0].channels
    && flows[i].startChannel == flows[0].startChannel + i * flows[0].channels
    && flows[i].payloadType == flows[0].payloadType
    && address.Some?
    && AddressNumber(address.value) == AddressNumber(StrictParse(flows[0].multicastAddress).value) + i
  }

  method ValidateBanks(flows: seq<Flow>) returns (ok: bool)
    requires flows != []
    ensures ok <==> UniformBanks(flows)
  {
    hide StrictParse, AddressNumber;
    var base := StrictParse(flows[0].multicastAddress);
    if base.None? {
      return false;
    }
    for index := 0 to |flows|
      invariant forall i :: 0 <= i < index ==> IsBank(flows, i)
    {
      var flow := flows[index];
      if flow.channels != flows[0].channels || flow.startChannel != flows[0].startChannel + index * flows[0].channels {
        assert !IsBank(flows, index);
        return false;
      }
      if flow.payloadType != flows[0].payloadType {
        assert !IsBank(flows, index);
        return false;
      }
      if AddressNumber(base.value) + index > 0xFFFF_FFFF {
        assert !IsBank(flows, index);
        return false;
      }
      var address := StrictParse(flow.multicastAddress);
      if address.None? || AddressNumber(address.value) != AddressNumber(base.value) + index {
        assert !IsBank(flows, index);
        return false;
      }
    }
    return true;
  }

  /** `saturating_add` and `saturating_mul` on 16 bits. */
  function SaturatingAdd(a: nat, b: nat): u16 {
    if a + b > 65535 then 65535 else a + b
  }

  function SaturatingMul(a: nat, b: nat): u16 {
    if a * b > 65535 then 65535 else a * b
  }

  predicate PortsFollow(flows: seq<Flow>, stride: u16) {
    forall i :: 0 <= i < |flows| ==> flows[i].port == SaturatingAdd(flows[0].port, SaturatingMul(stride, i))
  }

  function PortStride(flows: seq<Flow>): Option<u16>
    requires flows != []
  {
    if |flows| == 1 then Some(0)
    else if flows[1].port < flows[0].port then None
    else
      var stride := flows[1].port - flows[0].port;
      if PortsFollow(flows, stride) then Some(stride) else None
  }

  // ----- The arguments -----

  predicate SharedSettings(receive: seq<Flow>, transmit: seq<Flow>)
    requires receive != [] && transmit != []
  {
    && receive[0].channels == transmit[0].channels
    && receive[0].startChannel == transmit[0].startChannel
    && PortStride(receive).Some? && PortStride(transmit) == PortStride(receive)
    && (forall i :: 0 <= i < |receive| ==>
          receive[i].jitterPackets == receive[0].jitterPackets && receive[i].sourceAddress == receive[0].sourceAddress)
    && (forall i :: 0 <= i < |transmit| ==> transmit[i].jitterPackets == receive[0].jitterPackets)
  }

  ghost predicate Accepted(c: Configuration) {
    var receive, transmit := FlowsOf(c, Receive), FlowsOf(c, Transmit);
    && IsValid(c)
    && (c.interfaceName != [] || c.interfaceAddress != [])
    && receive != [] && |receive| == |transmit| && |receive| <= MAX_STREAMS
    && UniformBanks(receive) && UniformBanks(transmit)
    && SharedSettings(receive, transmit)
  }

  /** The configuration the engine is started with; an interface given by name is
      resolved by the engine. */
  function EngineArguments(c: Configuration, resolved: string): EngineConfig
    requires var r, t := FlowsOf(c, Receive), FlowsOf(c, Transmit); r != [] && t != [] && PortStride(r).Some?
  {
    var receive, transmit := FlowsOf(c, Receive), FlowsOf(c, Transmit);
    EngineConfig(
      if c.interfaceAddress != [] then c.interfaceAddress else resolved,
      receive[0].multicastAddress, receive[0].sourceAddress, transmit[0].multicastAddress,
      receive[0].port, transmit[0].port, receive[0].payloadType, transmit[0].payloadType,
      receive[0].channels, receive[0].startChannel, |receive|, PortStride(receive).value, receive[0].jitterPackets)
  }

  method ArgumentsFor(c: Configuration, resolved: string) returns (arguments: Option<EngineConfig>)
    ensures arguments.Some? <==> Accepted(c)
    ensures arguments.Some? ==> arguments.value == EngineArguments(c, resolved)
  {
    hide IsValid, EnabledFlows, SortByStart, UniformBanks, PortStride;
    var report := Validate(c);
    if !report.valid {
      return None;
    }
    if c.interfaceName == [] && c.interfaceAddress == [] {
      return None;
    }
    var receive := SortByStart(EnabledFlows(c.flows, Receive));
    var transmit := SortByStart(EnabledFlows(c.flows, Transmit));
    if receive == [] || |receive| != |transmit| || |receive| > 8 {
      return None;
    }
    var uniform := ValidateBanks(receive);
    if !uniform {
      return None;
    }
    uniform := ValidateBanks(transmit);
    if !uniform {
      return None;
    }
    if !SharedSettings(receive, transmit) {
      return None;
    }
    return Some(EngineArguments(c, resolved));
  }

  // ----- Bank by bank -----

  /** Everything but the address of a bank is that of the flow in the same place. */
  predicate BankIsFlow(base: u16, payloadType: u8, c: EngineConfig, flows: seq<Flow>, bank: nat)
    requires bank < |flows|
  {
    && BankPort(base, c.portStride, bank) == flows[bank].port
    && payloadType == flows[bank].payloadType
    && c.channelsPerStream == flows[bank].channels
    && VirtualChannel(c, bank, 0) == flows[bank].startChannel - 1
  }

  lemma BankFollows(c: EngineConfig, base: u16, flows: seq<Flow>, bank: nat)
    requires bank < |flows| == c.streamCount && UniformBanks(flows) && PortStride(flows) == Some(c.portStride)
    requires base == flows[0].port && c.portStride * (c.streamCount - 1) <= 65535 - base
    requires c.channelsPerStream == flows[0].channels && c.coreAudioStartChannel == flows[0].startChannel
    ensures BankIsFlow(base, flows[0].payloadType, c, flows, bank)
  {
    hide StrictParse, AddressNumber;
    assert IsBank(flows, bank);
    BankPortsDoNotWrap(base, c.portStride, c.streamCount, bank);
    if |flows| > 1 {
      assert PortsFollow(flows, c.portStride);
      NoSaturation(base, c.portStride, c.streamCount, bank);
    }
  }

  lemma NoSaturation(base: u16, stride: u16, count: nat, bank: nat)
    requires bank < count && stride * (count - 1) <= 65535 - base
    ensures SaturatingAdd(base, SaturatingMul(stride, bank)) == base + stride * bank
  {
  }

  /** The shifted addresses are those of the flows exactly when the first one is multicast
      or there is one bank: any other base is not shifted. */
  lemma AddressesFollow(flows: seq<Flow>)
    requires UniformBanks(flows)
    ensures (forall bank: nat :: bank < |flows| ==> BankAddress(flows[0].multicastAddress, bank) == flows[bank].multicastAddress)
            <==> IsMulticast(StrictParse(flows[0].multicastAddress).value) || |flows| == 1
  {
    var base := flows[0].multicastAddress;
    if IsMulticast(StrictParse(base).value) {
      forall bank: nat | bank < |flows|
        ensures BankAddress(base, bank) == flows[bank].multicastAddress
      {
        assert IsBank(flows, bank);
        ShiftedText(base, flows[bank].multicastAddress, bank);
      }
    } else {
      KeptText(base);
      if |flows| > 1 {
        assert IsBank(flows, 1);
        assert BankAddress(base, 1) == base;
        assert flows[1].multicastAddress != base;
      }
    }
  }

  lemma ShiftedText(base: string, text: string, bank: nat)
    requires StrictParse(base).Some? && IsMulticast(StrictParse(base).value) && StrictParse(text).Some?
    requires AddressNumber(StrictParse(text).value) == AddressNumber(StrictParse(base).value) + bank
    ensures BankAddress(base, bank) == text
  {
    hide IPv4.Parse, ToText, AddressNumber, AddressOf;
    AddressOfNumber(StrictParse(text).value);
  }

  lemma KeptText(base: string)
    requires StrictParse(base).Some? && !IsMulticast(StrictParse(base).value)
    ensures forall bank: nat :: BankAddress(base, bank) == base
  {
  }

  /** A sound flow of one channel for the diagnostic profile. */
  function LoopbackFlow(id: string, d: Direction, address: string, bank: u8): Flow {
    Flow(id, "loopback", true, d, address, "", 5004 + 2 * bank, 97, "L24", 48000, 1, 48, 1000, 1 + bank, 8)
  }

  const LOOPBACK_1: string := "127.0.0.1"
  const LOOPBACK_2: string := "127.0.0.2"

  function LoopbackConfiguration(): Configuration {
    Configuration(1, "loopback", "diagnostic-loopback", "", LOOPBACK_1, false, 0,
                  [LoopbackFlow("a", Receive, LOOPBACK_1, 0), LoopbackFlow("b", Receive, LOOPBACK_2, 1),
                   LoopbackFlow("c", Transmit, LOOPBACK_1, 0), LoopbackFlow("d", Transmit, LOOPBACK_2, 1)])
  }

  lemma LoopbackTexts()
    ensures StrictParse(LOOPBACK_1) == Some([127, 0, 0, 1]) && StrictParse(LOOPBACK_2) == Some([127, 0, 0, 2])
  {
    PrintedLoopback();
    ParseOfText([127, 0, 0, 1]);
    ParseOfText([127, 0, 0, 2]);
    hide ToText, IPv4.Parse;
  }

  lemma PrintedLoopback()
    ensures ToText([127, 0, 0, 1]) == LOOPBACK_1 && ToText([127, 0, 0, 2]) == LOOPBACK_2
  {
    assert Print(127) == "127" && Print(0) == "0" && Print(1) == "1" && Print(2) == "2";
    hide Print;
  }

  lemma LoopbackFlowIsSound(id: string, d: Direction, address: string, bank: u8)
    requires id == "a" || id == "b" || id == "c" || id == "d"
    requires (address == LOOPBACK_1 || address == LOOPBACK_2) && bank <= 1
    ensures FlowIsSound(LoopbackFlow(id, d, address, bank), "diagnostic-loopback")
  {
    LoopbackTexts();
    hide StrictParse;
    var f := LoopbackFlow(id, d, address, bank);
    assert f.name[0] in f.name && id[0] in id;
  }

  lemma OneMoreEnabled(flows: seq<Flow>, f: Flow, d: Direction)
    ensures EnabledFlows(flows + [f], d) == EnabledFlows(flows, d) + if Enabled(f, d) then [f] else []
  {
    assert (flows + [f])[..|flows|] == flows;
  }

  lemma PairIsSorted(low: Flow, high: Flow)
    requires low.startChannel <= high.startChannel
    ensures SortByStart([low, high]) == [low, high]
  {
    assert [low, high][..1] == [low] && [low][..0] == [];
    assert SortByStart([low]) == [low];
  }

  function LoopbackPair(d: Direction): seq<Flow> {
    match d
    case Receive => [LoopbackFlow("a", Receive, LOOPBACK_1, 0), LoopbackFlow("b", Receive, LOOPBACK_2, 1)]
    case Transmit => [LoopbackFlow("c", Transmit, LOOPBACK_1, 0), LoopbackFlow("d", Transmit, LOOPBACK_2, 1)]
  }

  lemma LoopbackFlows(d: Direction)
    ensures FlowsOf(LoopbackConfiguration(), d) == LoopbackPair(d)
  {
    var receive, transmit := LoopbackPair(Receive), LoopbackPair(Transmit);
    var flows := LoopbackConfiguration().flows;
    assert flows == [] + [receive[0]] + [receive[1]] + [transmit[0]] + [transmit[1]];
    hide LoopbackConfiguration, EnabledFlows, SortByStart;
    OneMoreEnabled([], receive[0], d);
    OneMoreEnabled([] + [receive[0]], receive[1], d);
    OneMoreEnabled([] + [receive[0]] + [receive[1]], transmit[0], d);
    OneMoreEnabled([] + [receive[0]] + [receive[1]] + [transmit[0]], transmit[1], d);
    NoneEnabled(d);
    assert EnabledFlows(flows, d) == [LoopbackPair(d)[0], LoopbackPair(d)[1]] == LoopbackPair(d);
    PairIsSorted(LoopbackPair(d)[0], LoopbackPair(d)[1]);
  }

  lemma NoneEnabled(d: Direction)
    ensures EnabledFlows([], d) == []
  {
  }

  lemma LoopbackIsUniform(d: Direction)
    ensures var flows := FlowsOf(LoopbackConfiguration(), d); UniformBanks(flows) && PortStride(flows) == Some(2)
  {
    LoopbackFlows(d);
    LoopbackTexts();
    LoopbackNumbers();
    hide StrictParse, AddressNumber, FlowsOf, LoopbackConfiguration;
  }

  lemma LoopbackNumbers()
    ensures AddressNumber([127, 0, 0, 2]) == AddressNumber([127, 0, 0, 1]) + 1
  {
    var low: Octets, high: Octets := [127, 0, 0, 1], [127, 0, 0, 2];
    assert low[..3] == high[..3];
  }

  lemma FourFlows(a: Flow, b: Flow, c: Flow, d: Flow, profileId: string)
    requires FlowIsSound(a, profileId) && FlowIsSound(b, profileId) && FlowIsSound(c, profileId) && FlowIsSound(d, profileId)
    requires Apart(a, b) && Apart(a, c) && Apart(a, d) && Apart(b, c) && Apart(b, d) && Apart(c, d)
    ensures FlowsAreValid([a, b, c, d], profileId)
  {
    hide FlowIsSound, Apart;
  }

  lemma LoopbackFlowsAreValid()
    ensures FlowsAreValid(LoopbackConfiguration().flows, "diagnostic-loopback")
  {
    var a, b := LoopbackFlow("a", Receive, LOOPBACK_1, 0), LoopbackFlow("b", Receive, LOOPBACK_2, 1);
    var c, d := LoopbackFlow("c", Transmit, LOOPBACK_1, 0), LoopbackFlow("d", Transmit, LOOPBACK_2, 1);
    assert Apart(a, b) && Apart(a, c) && Apart(a, d) && Apart(b, c) && Apart(b, d) && Apart(c, d);
    assert LoopbackConfiguration().flows == [a, b, c, d];
    hide *;
    LoopbackFlowIsSound("a", Receive, LOOPBACK_1, 0);
    LoopbackFlowIsSound("b", Receive, LOOPBACK_2, 1);
    LoopbackFlowIsSound("c", Transmit, LOOPBACK_1, 0);
    LoopbackFlowIsSound("d", Transmit, LOOPBACK_2, 1);
    FourFlows(a, b, c, d, "diagnostic-loopback");
  }

  lemma {:induction false} FewFlows(flows: seq<Flow>, d: Direction)
    ensures CountOf(flows, d) <= |flows|
  {
    if flows != [] {
      FewFlows(flows[..|flows| - 1], d);
    }
  }

  lemma LoopbackIsValid()
    ensures IsValid(LoopbackConfiguration())
  {
    var c := LoopbackConfiguration();
    assert c.name[0] in c.name && |c.flows| == 4;
    assert HeaderIsValid(c) && c.profileId == "diagnostic-loopback";
    LoopbackFlowsAreValid();
    FewFlows(c.flows, Receive);
    FewFlows(c.flows, Transmit);
    hide LoopbackConfiguration, FlowsAreValid, HeaderIsValid, CountOf;
  }

  lemma LoopbackIsShared()
    ensures var receive, transmit := FlowsOf(LoopbackConfiguration(), Receive), FlowsOf(LoopbackConfiguration(), Transmit);
            |receive| == |transmit| == 2 && SharedSettings(receive, transmit)
  {
    LoopbackIsUniform(Receive);
    LoopbackIsUniform(Transmit);
    LoopbackFlows(Receive);
    LoopbackFlows(Transmit);
    hide LoopbackConfiguration, FlowsOf, PortStride, UniformBanks;
  }

  lemma LoopbackIsAccepted()
    ensures Accepted(LoopbackConfiguration())
  {
    var c := LoopbackConfiguration();
    assert c.interfaceAddress == LOOPBACK_1 && LOOPBACK_1 != [];
    hide LoopbackConfiguration, FlowsOf, IsValid, UniformBanks, SharedSettings;
    LoopbackIsValid();
    LoopbackIsUniform(Receive);
    LoopbackIsUniform(Transmit);
    LoopbackIsShared();
  }

  /** An accepted configuration the engine starts with and plays at other addresses than
      the user asked for: two diagnostic flows per direction, at 127.0.0.1 and 127.0.0.2.
      Both banks use the first address. */
  lemma LoopbackIsNotShifted(resolved: string) returns (c: Configuration, receive: seq<Flow>, transmit: seq<Flow>)
    ensures Accepted(c) && receive == FlowsOf(c, Receive) && transmit == FlowsOf(c, Transmit)
    ensures EngineAccepts(EngineArguments(c, resolved))
    ensures |receive| == |transmit| == 2
    ensures BankAddress(receive[0].multicastAddress, 1) == LOOPBACK_1 != receive[1].multicastAddress
    ensures BankAddress(transmit[0].multicastAddress, 1) == LOOPBACK_1 != transmit[1].multicastAddress
  {
    c := LoopbackConfiguration();
    receive, transmit := FlowsOf(c, Receive), FlowsOf(c, Transmit);
    assert c.interfaceAddress == LOOPBACK_1 && LOOPBACK_1 != LOOPBACK_2;
    LoopbackIsAccepted();
    LoopbackIsUniform(Receive);
    LoopbackIsUniform(Transmit);
    LoopbackFlows(Receive);
    LoopbackFlows(Transmit);
    LoopbackTexts();
    KeptText(LOOPBACK_1);
    hide LoopbackConfiguration, StrictParse, BankAddress, FlowsOf, IsValid, UniformBanks, PortStride, ChannelsFit;
    EngineAcceptsIffPortsFit(c, resolved);
  }

  /** An accepted configuration whose ports pass the range check of the engine is what the
      engine plays: every bank has the port, payload type and channels of its flow in both
      directions, and the address too when the addresses are multicast. */
  lemma BanksAreTheFlows(c: Configuration, resolved: string, bank: nat)
    requires Accepted(c) && PortsFit(EngineArguments(c, resolved)) && bank < |FlowsOf(c, Receive)|
    ensures var e, receive, transmit := EngineArguments(c, resolved), FlowsOf(c, Receive), FlowsOf(c, Transmit);
            && e.streamCount == |receive| == |transmit|
            && BankIsFlow(e.rxPort, e.rxPayloadType, e, receive, bank)
            && BankIsFlow(e.txPort, e.txPayloadType, e, transmit, bank)
            && (IsMulticast(StrictParse(receive[0].multicastAddress).value) ==>
                  BankAddress(e.rxAddress, bank) == receive[bank].multicastAddress)
            && (IsMulticast(StrictParse(transmit[0].multicastAddress).value) ==>
                  BankAddress(e.txAddress, bank) == transmit[bank].multicastAddress)
  {
    var e, receive, transmit := EngineArguments(c, resolved), FlowsOf(c, Receive), FlowsOf(c, Transmit);
    hide UniformBanks, PortStride, FlowsOf, IsValid, BankAddress, StrictParse, IsMulticast, BankIsFlow;
    BankFollows(e, e.rxPort, receive, bank);
    BankFollows(e, e.txPort, transmit, bank);
    AddressesFollow(receive);
    AddressesFollow(transmit);
  }

  /** Every flow has the source filter and the jitter buffer the engine is given, and that
      buffer is one the receiver can have. */
  lemma SettingsAreTheFlows(c: Configuration, resolved: string, i: nat)
    requires Accepted(c) && i < |FlowsOf(c, Receive)|
    ensures var e, receive, transmit := EngineArguments(c, resolved), FlowsOf(c, Receive), FlowsOf(c, Transmit);
            && i < |transmit|
            && receive[i].sourceAddress == e.rxSourceAddress
            && receive[i].jitterPackets == transmit[i].jitterPackets == e.jitterPackets
            && 2 <= e.jitterPackets <= 63
            && e.interfaceAddress == (if c.interfaceAddress != [] then c.interfaceAddress else resolved)
            && (e.interfaceAddress == [] ==> c.interfaceName != [])
  {
    ChosenIsSound(c, Receive, 0);
    JitterFits(FlowsOf(c, Receive)[0], c.profileId);
    hide IsValid, FlowsOf, UniformBanks, PortStride, FlowIsSound;
  }

  lemma JitterFits(f: Flow, profileId: string)
    requires FlowIsSound(f, profileId)
    ensures 2 <= f.jitterPackets <= 63
  {
    hide AddressIsValid, IsBlank, RangeIsValid;
  }

  // ----- What the engine does with them -----

  lemma {:induction false} EnabledIsMember(flows: seq<Flow>, d: Direction, f: Flow)
    requires f in EnabledFlows(flows, d)
    ensures f in flows && Enabled(f, d)
  {
    if f in EnabledFlows(flows[..|flows| - 1], d) {
      EnabledIsMember(flows[..|flows| - 1], d, f);
    }
  }

  /** Every flow of a valid configuration that is handed on is sound. */
  lemma ChosenIsSound(c: Configuration, d: Direction, i: nat)
    requires IsValid(c) && i < |FlowsOf(c, d)|
    ensures FlowIsSound(FlowsOf(c, d)[i], c.profileId)
  {
    var f := FlowsOf(c, d)[i];
    SortSorts(EnabledFlows(c.flows, d));
    assert f in multiset(FlowsOf(c, d));
    assert f in EnabledFlows(c.flows, d);
    EnabledIsMember(c.flows, d, f);
    hide FlowIsSound, Apart;
    var k :| 0 <= k < |c.flows| && c.flows[k] == f;
  }

  lemma AddressIsNotEmpty(text: string)
    requires StrictParse(text).Some?
    ensures text != []
  {
    SplitLast("", '.');
  }

  lemma LastAddressExists(flows: seq<Flow>)
    requires UniformBanks(flows)
    ensures BankAddress(flows[0].multicastAddress, |flows| - 1) != []
  {
    var base := flows[0].multicastAddress;
    AddressesFollow(flows);
    assert IsBank(flows, |flows| - 1);
    hide IsMulticast, BankAddress;
    AddressIsNotEmpty(base);
    AddressIsNotEmpty(flows[|flows| - 1].multicastAddress);
    if !IsMulticast(StrictParse(base).value) {
      KeptText(base);
    }
  }

  lemma ArgumentChannelsFit(c: Configuration, resolved: string)
    requires Accepted(c)
    ensures ChannelsFit(EngineArguments(c, resolved))
  {
    var e, receive := EngineArguments(c, resolved), FlowsOf(c, Receive);
    var n := |receive|;
    assert UniformBanks(receive) && e.streamCount == n <= MAX_STREAMS;
    hide *;
    ChosenIsSound(c, Receive, 0);
    ChosenIsSound(c, Receive, n - 1);
    UniformEnds(receive, c.profileId);
    ArgumentFields(c, resolved);
    FitsFrom(e, receive[0].startChannel, receive[0].channels, n);
  }

  lemma UniformEnds(flows: seq<Flow>, profileId: string)
    requires UniformBanks(flows) && FlowIsSound(flows[0], profileId) && FlowIsSound(flows[|flows| - 1], profileId)
    ensures flows[0].startChannel > 0 && SupportedChannelCount(flows[0].channels)
    ensures flows[0].startChannel - 1 + (|flows| - 1) * flows[0].channels + flows[0].channels <= VIRTUAL_CHANNELS
  {
    FlowChannels(flows[0], profileId);
    FlowChannels(flows[|flows| - 1], profileId);
    SoundWidth(flows[0], profileId);
    hide FlowIsSound, StrictParse, AddressNumber, SupportedChannelCount;
    assert IsBank(flows, |flows| - 1);
  }

  lemma ArgumentFields(c: Configuration, resolved: string)
    requires Accepted(c)
    ensures var e, f := EngineArguments(c, resolved), FlowsOf(c, Receive)[0];
            e.channelsPerStream == f.channels && e.coreAudioStartChannel == f.startChannel
  {
    hide IsValid, UniformBanks, FlowsOf, PortStride;
  }

  lemma FitsFrom(e: EngineConfig, start: nat, width: nat, n: nat)
    requires 0 < n <= MAX_STREAMS && start > 0 && SupportedChannelCount(width)
    requires start - 1 + (n - 1) * width + width <= VIRTUAL_CHANNELS
    requires e.streamCount == n && e.channelsPerStream == width && e.coreAudioStartChannel == start
    ensures ChannelsFit(e)
  {
    assert n * width == (n - 1) * width + width;
  }

  lemma SoundWidth(f: Flow, profileId: string)
    requires FlowIsSound(f, profileId)
    ensures SupportedChannelCount(f.channels)
  {
    hide AddressIsValid, StrictParse, IsBlank;
  }

  /** The engine starts with the arguments it is given exactly when the interface has an
      address and the ports of the last bank exist; nothing else is left to refuse. */
  lemma EngineAcceptsIffPortsFit(c: Configuration, resolved: string)
    requires Accepted(c)
    ensures var e := EngineArguments(c, resolved);
            ChannelsFit(e) && (EngineAccepts(e) <==> e.interfaceAddress != [] && PortsFit(e))
  {
    var e := EngineArguments(c, resolved);
    ArgumentChannelsFit(c, resolved);
    hide FlowsOf, IsValid, UniformBanks, PortStride, BankAddress, ChannelsFit;
    LastAddressExists(FlowsOf(c, Receive));
    LastAddressExists(FlowsOf(c, Transmit));
  }

  // ----- What the engine can express -----

  /** The engine's configuration gives every flow of one direction its bank. */
  ghost predicate Expresses(e: EngineConfig, base: u16, payloadType: u8, flows: seq<Flow>) {
    && e.streamCount == |flows| && e.portStride * (e.streamCount - 1) <= 65535 - base
    && forall bank: nat :: bank < |flows| ==> BankIsFlow(base, payloadType, e, flows, bank)
  }

  /** The addresses follow each other. */
  ghost predicate AddressesAscend(flows: seq<Flow>) {
    forall i :: 0 <= i < |flows| ==>
      && StrictParse(flows[0].multicastAddress).Some? && StrictParse(flows[i].multicastAddress).Some?
      && AddressNumber(StrictParse(flows[i].multicastAddress).value)
         == AddressNumber(StrictParse(flows[0].multicastAddress).value) + i
  }

  lemma ExpressedBank(e: EngineConfig, base: u16, payloadType: u8, flows: seq<Flow>, bank: nat)
    requires Expresses(e, base, payloadType, flows) && bank < |flows|
    ensures flows[bank].port == base + e.portStride * bank && flows[bank].payloadType == payloadType
    ensures flows[bank].channels == e.channelsPerStream
    ensures flows[bank].startChannel == e.coreAudioStartChannel + bank * e.channelsPerStream
    ensures SaturatingAdd(base, SaturatingMul(e.portStride, bank)) == base + e.portStride * bank
  {
    assert BankIsFlow(base, payloadType, e, flows, bank);
    BankPortsDoNotWrap(base, e.portStride, e.streamCount, bank);
    NoSaturation(base, e.portStride, e.streamCount, bank);
  }

  lemma ExpressedIsUniform(e: EngineConfig, base: u16, payloadType: u8, flows: seq<Flow>)
    requires Expresses(e, base, payloadType, flows) && AddressesAscend(flows) && flows != []
    ensures UniformBanks(flows) && PortStride(flows) == Some(if |flows| == 1 then 0 else e.portStride)
  {
    hide StrictParse, AddressNumber, BankIsFlow, SaturatingAdd, SaturatingMul;
    ExpressedBank(e, base, payloadType, flows, 0);
    assert base == flows[0].port;
    forall i: nat | i < |flows|
      ensures IsBank(flows, i)
      ensures flows[i].port == SaturatingAdd(flows[0].port, SaturatingMul(e.portStride, i))
      ensures i == 1 ==> flows[i].port == flows[0].port + e.portStride
    {
      ExpressedBank(e, base, payloadType, flows, i);
      assert 0 * e.channelsPerStream == 0;
    }
    assert PortsFollow(flows, e.portStride);
    if |flows| > 1 {
      assert flows[1].port == flows[0].port + e.portStride;
    }
  }

  /** Nothing the engine can express is refused: a valid configuration with an interface,
      as many flows in one direction as in the other, eight at most, all with one jitter
      buffer and one source filter, is accepted once some engine configuration gives every
      flow its bank and the addresses follow each other. */
  lemma ExpressedIsAccepted(c: Configuration, e: EngineConfig)
    requires IsValid(c) && (c.interfaceName != [] || c.interfaceAddress != [])
    requires var receive, transmit := FlowsOf(c, Receive), FlowsOf(c, Transmit);
             && 0 < |receive| == |transmit| <= 8
             && Expresses(e, e.rxPort, e.rxPayloadType, receive) && AddressesAscend(receive)
             && Expresses(e, e.txPort, e.txPayloadType, transmit) && AddressesAscend(transmit)
             && forall i :: 0 <= i < |receive| ==>
                  receive[i].jitterPackets == transmit[i].jitterPackets == e.jitterPackets
                  && receive[i].sourceAddress == e.rxSourceAddress
    ensures Accepted(c)
  {
    var receive, transmit := FlowsOf(c, Receive), FlowsOf(c, Transmit);
    ExpressedIsUniform(e, e.rxPort, e.rxPayloadType, receive);
    ExpressedIsUniform(e, e.txPort, e.txPayloadType, transmit);
    ExpressedIsShared(e, receive, transmit);
    hide IsValid, FlowsOf, Expresses, AddressesAscend, UniformBanks, SharedSettings;
  }

  lemma ExpressedIsShared(e: EngineConfig, receive: seq<Flow>, transmit: seq<Flow>)
    requires 0 < |receive| == |transmit|
    requires Expresses(e, e.rxPort, e.rxPayloadType, receive) && Expresses(e, e.txPort, e.txPayloadType, transmit)
    requires PortStride(receive).Some? && PortStride(transmit) == PortStride(receive)
    requires forall i :: 0 <= i < |receive| ==>
               receive[i].jitterPackets == transmit[i].jitterPackets == e.jitterPackets
               && receive[i].sourceAddress == e.rxSourceAddress
    ensures SharedSettings(receive, transmit)
  {
    ExpressedBank(e, e.rxPort, e.rxPayloadType, receive, 0);
    ExpressedBank(e, e.txPort, e.txPayloadType, transmit, 0);
    hide Expresses, PortStride;
  }
}

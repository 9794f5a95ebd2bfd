/** The list of flows a user edits, and the check it has to pass
    (src-tauri/src/model.rs). */
module Configurations {
  import opened Banks
  import opened Common
  import opened IPv4

  const MAX_FLOWS_PER_DIRECTION: nat := 32

  datatype Direction = Receive | Transmit

  datatype Flow = Flow(
    id: string,
    name: string,
    enabled: bool,
    direction: Direction,
    multicastAddress: string,
    sourceAddress: string,
    port: u16,
    payloadType: u8,
    encoding: string,
    sampleRate: u32,
    channels: u16,
    framesPerPacket: u16,
    packetTimeMicroseconds: u32,
    startChannel: u16,
    jitterPackets: u16)

  datatype Configuration = Configuration(
    schemaVersion: u32,
    name: string,
    profileId: string,
    interfaceName: string,
    interfaceAddress: string,
    ptpEnabled: bool,
    ptpDomain: u8,
    flows: seq<Flow>)

  /** `Ipv4Addr::from_str` takes canonical text only. */
  function StrictParse(text: string): Option<Octets> {
    var parsed := IPv4.Parse(text);
    if parsed.Some? && ToText(parsed.value) == text then parsed else None
  }

  /** `char::is_whitespace`. */
  predicate IsSpace(c: char) {
    var n := c as int;
    9 <= n <= 13 || n == 0x20 || n == 0x85 || n == 0xA0 || n == 0x1680 || 0x2000 <= n <= 0x200A
    || n == 0x2028 || n == 0x2029 || n == 0x202F || n == 0x205F || n == 0x3000
  }

  /** `trim().is_empty()`. */
  predicate IsBlank(text: string) {
    forall c :: c in text ==> IsSpace(c)
  }

  // ----- What a configuration must be -----

  predicate AddressIsValid(f: Flow, profileId: string) {
    var address := StrictParse(f.multicastAddress);
    address.Some? && (IsMulticast(address.value) || (profileId == "diagnostic-loopback" && address.value[0] == 127))
  }

  predicate FieldsAreValid(f: Flow, profileId: string) {
    && !IsBlank(f.name)
    && AddressIsValid(f, profileId)
    && (f.sourceAddress != [] ==> StrictParse(f.sourceAddress).Some?)
    && f.port != 0
    && f.payloadType <= 127
    && f.encoding == "L24"
    && f.sampleRate == 48000
    && SupportedChannelCount(f.channels)
    && f.framesPerPacket == 48 && f.packetTimeMicroseconds == 1000
    && 2 <= f.jitterPackets <= 63
  }

  /** One past the last channel, with the saturation of the code. */
  function LastChannel(f: Flow): u16 {
    Min(0xFFFF, f.startChannel + if f.channels == 0 then 0 else f.channels - 1)
  }

  predicate RangeIsValid(f: Flow) {
    f.startChannel > 0 && LastChannel(f) <= VIRTUAL_CHANNELS
  }

  /** Channel `k` (counted from zero) belongs to the flow. */
  predicate Covers(f: Flow, k: int) {
    f.startChannel - 1 <= k < LastChannel(f)
  }

  predicate Overlap(f: Flow, g: Flow) {
    f.direction == g.direction && f.startChannel - 1 < LastChannel(g) && g.startChannel - 1 < LastChannel(f)
  }

  /** A flow that is sound by itself. */
  predicate FlowIsSound(f: Flow, profileId: string) {
    FieldsAreValid(f, profileId) && !IsBlank(f.id) && RangeIsValid(f)
  }

  /** Two flows that do not get in each other's way. */
  predicate Apart(f: Flow, g: Flow) {
    f.id != g.id && !Overlap(f, g)
  }

  ghost predicate FlowsAreValid(flows: seq<Flow>, profileId: string) {
    && (forall i :: 0 <= i < |flows| && flows[i].enabled ==> FlowIsSound(flows[i], profileId))
    && (forall i, j :: 0 <= i < j < |flows| && flows[i].enabled && flows[j].enabled ==> Apart(flows[i], flows[j]))
  }

  predicate HeaderIsValid(c: Configuration) {
    c.schemaVersion == 1 && !IsBlank(c.name) && (c.ptpEnabled ==> c.ptpDomain == 0)
  }

  predicate Enabled(f: Flow, d: Direction) {
    f.enabled && f.direction == d
  }

  function CountOf(flows: seq<Flow>, d: Direction): nat {
    if flows == [] then 0 else CountOf(flows[..|flows| - 1], d) + if Enabled(flows[|flows| - 1], d) then 1 else 0
  }

  function ChannelsOf(flows: seq<Flow>, d: Direction): nat {
    if flows == [] then 0
    else ChannelsOf(flows[..|flows| - 1], d) + if Enabled(flows[|flows| - 1], d) then flows[|flows| - 1].channels else 0
  }

  ghost predicate IsValid(c: Configuration) {
    && HeaderIsValid(c)
    && FlowsAreValid(c.flows, c.profileId)
    && CountOf(c.flows, Receive) <= MAX_FLOWS_PER_DIRECTION
    && CountOf(c.flows, Transmit) <= MAX_FLOWS_PER_DIRECTION
  }

  // ----- The check -----

  /** The tests of one flow that look at nothing else; counts what is wrong. */
  method CheckFields(f: Flow, profileId: string) returns (issues: nat)
    ensures issues == 0 <==> FieldsAreValid(f, profileId)
  {
    hide IsBlank, StrictParse;
    issues := 0;
    if IsBlank(f.name) {
      issues := issues + 1;
    }
    var address := StrictParse(f.multicastAddress);
    var diagnosticLoopback := profileId == "diagnostic-loopback" && address.Some? && address.value[0] == 127;
    if !diagnosticLoopback && !(address.Some? && IsMulticast(address.value)) {
      issues := issues + 1;
    }
    if f.sourceAddress != [] && StrictParse(f.sourceAddress).None? {
      issues := issues + 1;
    }
    if f.port == 0 {
      issues := issues + 1;
    }
    if f.payloadType > 127 {
      issues := issues + 1;
    }
    if f.encoding != "L24" {
      issues := issues + 1;
    }
    if f.sampleRate != 48000 {
      issues := issues + 1;
    }
    if !SupportedChannelCount(f.channels) {
      issues := issues + 1;
    }
    if f.framesPerPacket != 48 || f.packetTimeMicroseconds != 1000 {
      issues := issues + 1;
    }
    if !(2 <= f.jitterPackets <= 63) {
      issues := issues + 1;
    }
  }

  /** Claims the channels of a flow; stops at the first one that is taken. */
  method Claim(occupied: array<Option<string>>, f: Flow) returns (overlap: bool)
    requires RangeIsValid(f) && occupied.Length == VIRTUAL_CHANNELS
    modifies occupied
    ensures overlap <==> exists k :: 0 <= k < VIRTUAL_CHANNELS && Covers(f, k) && old(occupied[k]).Some?
    ensures !overlap ==> forall k :: 0 <= k < VIRTUAL_CHANNELS ==>
      occupied[k] == if Covers(f, k) then Some(f.id) else old(occupied[k])
  {
    var index: int := f.startChannel - 1;
    while index < LastChannel(f)
      invariant f.startChannel - 1 <= index
      invariant forall k :: 0 <= k < VIRTUAL_CHANNELS ==>
        occupied[k] == if Covers(f, k) && k < index then Some(f.id) else old(occupied[k])
      invariant forall k :: 0 <= k < index && Covers(f, k) ==> old(occupied[k]).None?
    {
      if occupied[index].Some? {
        assert Covers(f, index);
        return true;
      }
      occupied[index] := Some(f.id);
      index := index + 1;
    }
    return false;
  }

  /** Some enabled flow of the list owns channel `k` in direction `d`. */
  ghost predicate Taken(flows: seq<Flow>, d: Direction, k: int) {
    exists j :: 0 <= j < |flows| && Enabled(flows[j], d) && Covers(flows[j], k)
  }

  ghost predicate Shows(occupied: seq<Option<string>>, flows: seq<Flow>, d: Direction) {
    |occupied| == VIRTUAL_CHANNELS && forall k :: 0 <= k < VIRTUAL_CHANNELS ==> (occupied[k].Some? <==> Taken(flows, d, k))
  }

  ghost function IdsOf(flows: seq<Flow>): set<string> {
    set j | 0 <= j < |flows| && flows[j].enabled :: flows[j].id
  }

  lemma ShorterIsValid(flows: seq<Flow>, i: nat, profileId: string)
    requires i < |flows|
    ensures FlowsAreValid(flows[..i + 1], profileId) ==> FlowsAreValid(flows[..i], profileId)
  {
    hide FlowIsSound, Apart;
    var more, less := flows[..i + 1], flows[..i];
    assert forall j :: 0 <= j < i ==> less[j] == more[j];
  }

  lemma DisabledChangesNothing(flows: seq<Flow>, i: nat, profileId: string)
    requires i < |flows| && !flows[i].enabled
    ensures FlowsAreValid(flows[..i + 1], profileId) <==> FlowsAreValid(flows[..i], profileId)
    ensures IdsOf(flows[..i + 1]) == IdsOf(flows[..i])
    ensures forall d, k :: Taken(flows[..i + 1], d, k) <==> Taken(flows[..i], d, k)
  {
    hide FlowIsSound, Apart, Covers;
    var more, less := flows[..i + 1], flows[..i];
    assert forall j :: 0 <= j < i ==> less[j] == more[j];
    ShorterIsValid(flows, i, profileId);
    forall d, k
      ensures Taken(more, d, k) <==> Taken(less, d, k)
    {
      if Taken(less, d, k) {
        var j :| 0 <= j < |less| && Enabled(less[j], d) && Covers(less[j], k);
        assert Enabled(more[j], d) && Covers(more[j], k);
      }
    }
  }

  lemma OverlapIsShared(f: Flow, g: Flow)
    requires RangeIsValid(f) && RangeIsValid(g) && f.channels > 0 && g.channels > 0 && f.direction == g.direction
    ensures Overlap(f, g) <==> exists k :: 0 <= k < VIRTUAL_CHANNELS && Covers(f, k) && Covers(g, k)
  {
    if Overlap(f, g) {
      var k := if f.startChannel < g.startChannel then g.startChannel - 1 else f.startChannel - 1;
      assert Covers(f, k) && Covers(g, k);
    }
  }

  lemma OneMore(flows: seq<Flow>, i: nat, profileId: string)
    requires i < |flows| && flows[i].enabled && FlowsAreValid(flows[..i], profileId)
    ensures FlowsAreValid(flows[..i + 1], profileId) <==>
              FlowIsSound(flows[i], profileId)
              && forall j :: 0 <= j < i && flows[j].enabled ==> Apart(flows[j], flows[i])
  {
    hide FlowIsSound, Apart;
    var more, less := flows[..i + 1], flows[..i];
    assert more[i] == flows[i] && forall j :: 0 <= j < i ==> less[j] == more[j] == flows[j];
  }

  /** One more enabled flow fits exactly when it is sound by itself, its identifier is new
      and none of its channels is taken. */
  lemma OneMoreFlow(flows: seq<Flow>, i: nat, profileId: string)
    requires i < |flows| && flows[i].enabled && FlowsAreValid(flows[..i], profileId)
    ensures var f := flows[i];
            FlowsAreValid(flows[..i + 1], profileId) <==>
              && FlowIsSound(f, profileId)
              && f.id !in IdsOf(flows[..i])
              && !exists k :: 0 <= k < VIRTUAL_CHANNELS && Covers(f, k) && Taken(flows[..i], f.direction, k)
  {
    var f, less := flows[i], flows[..i];
    OneMore(flows, i, profileId);
    assert forall j :: 0 <= j < i ==> less[j] == flows[j];
    hide FieldsAreValid, IsBlank, RangeIsValid, Covers, Taken;
    if FlowIsSound(f, profileId) {
      forall j | 0 <= j < i && less[j].enabled
        ensures less[j].id in IdsOf(less)
        ensures less[j].direction == f.direction ==>
          (Overlap(less[j], f) <==> exists k :: 0 <= k < VIRTUAL_CHANNELS && Covers(less[j], k) && Covers(f, k))
      {
        if less[j].direction == f.direction {
          PositiveChannels(less[j], profileId);
          PositiveChannels(f, profileId);
          OverlapIsShared(less[j], f);
        }
      }
      NoneTaken(less, f);
      hide FlowIsSound, Overlap, FlowsAreValid;
    }
  }

  lemma PositiveChannels(f: Flow, profileId: string)
    requires FieldsAreValid(f, profileId)
    ensures f.channels > 0
  {
  }

  lemma NoneTaken(less: seq<Flow>, f: Flow)
    requires forall j :: 0 <= j < |less| && less[j].enabled && less[j].direction == f.direction ==>
      (Overlap(less[j], f) <==> exists k :: 0 <= k < VIRTUAL_CHANNELS && Covers(less[j], k) && Covers(f, k))
    ensures (exists k :: 0 <= k < VIRTUAL_CHANNELS && Covers(f, k) && Taken(less, f.direction, k))
            <==> exists j :: 0 <= j < |less| && less[j].enabled && Overlap(less[j], f)
  {
  }

  lemma OneMoreTaken(flows: seq<Flow>, i: nat, d: Direction, k: int)
    requires i < |flows|
    ensures Taken(flows[..i + 1], d, k) <==> Taken(flows[..i], d, k) || (Enabled(flows[i], d) && Covers(flows[i], k))
  {
  }

  datatype Report = Report(valid: bool, receiveChannels: nat, transmitChannels: nat, receiveFlows: nat, transmitFlows: nat)

  /** The state of the check after the first `i` flows, as long as nothing is wrong. */
  ghost predicate Tracks(flows: seq<Flow>, i: nat, ids: set<string>, rx: seq<Option<string>>, tx: seq<Option<string>>)
    requires i <= |flows|
  {
    ids == IdsOf(flows[..i]) && Shows(rx, flows[..i], Receive) && Shows(tx, flows[..i], Transmit)
  }

  /** What the arrays show after the flow claimed its channels. */
  lemma Claimed(flows: seq<Flow>, i: nat, d: Direction, before: seq<Option<string>>, after: seq<Option<string>>)
    requires i < |flows| && Shows(before, flows[..i], d) && |after| == VIRTUAL_CHANNELS
    requires forall k :: 0 <= k < VIRTUAL_CHANNELS ==>
      after[k] == if Enabled(flows[i], d) && Covers(flows[i], k) then Some(flows[i].id) else before[k]
    ensures Shows(after, flows[..i + 1], d)
  {
  }

  lemma OneMoreId(flows: seq<Flow>, i: nat)
    requires i < |flows| && flows[i].enabled
    ensures IdsOf(flows[..i + 1]) == IdsOf(flows[..i]) + {flows[i].id}
  {
  }

  lemma OverlapIsTaken(before: seq<Option<string>>, less: seq<Flow>, f: Flow)
    requires Shows(before, less, f.direction)
    ensures (exists k :: 0 <= k < VIRTUAL_CHANNELS && Covers(f, k) && before[k].Some?)
            <==> exists k :: 0 <= k < VIRTUAL_CHANNELS && Covers(f, k) && Taken(less, f.direction, k)
  {
  }

  /** Claims the channels of a flow in the array of its direction. */
  method ClaimFor(flows: seq<Flow>, i: nat, rx: array<Option<string>>, tx: array<Option<string>>) returns (overlap: bool)
    requires i < |flows| && flows[i].enabled && RangeIsValid(flows[i])
    requires rx != tx && rx.Length == tx.Length == VIRTUAL_CHANNELS
    requires Shows(rx[..], flows[..i], Receive) && Shows(tx[..], flows[..i], Transmit)
    modifies rx, tx
    ensures var f := flows[i];
            overlap <==> exists k :: 0 <= k < VIRTUAL_CHANNELS && Covers(f, k) && Taken(flows[..i], f.direction, k)
    ensures !overlap ==> Shows(rx[..], flows[..i + 1], Receive) && Shows(tx[..], flows[..i + 1], Transmit)
  {
    hide Covers, Taken, Shows;
    var f := flows[i];
    var occupied := if f.direction == Receive then rx else tx;
    ghost var before := occupied[..];
    OverlapIsTaken(before, flows[..i], f);
    overlap := Claim(occupied, f);
    if !overlap {
      Claimed(flows, i, Receive, old(rx[..]), rx[..]);
      Claimed(flows, i, Transmit, old(tx[..]), tx[..]);
    }
  }

  /** One enabled flow: true when nothing is wrong with it. */
  method CheckFlow(flows: seq<Flow>, i: nat, profileId: string, ids: set<string>,
                   rx: array<Option<string>>, tx: array<Option<string>>)
    returns (sound: bool, ids': set<string>)
    requires i < |flows| && flows[i].enabled && rx != tx && rx.Length == tx.Length == VIRTUAL_CHANNELS
    requires FlowsAreValid(flows[..i], profileId) && Tracks(flows, i, ids, rx[..], tx[..])
    modifies rx, tx
    ensures sound <==> FlowsAreValid(flows[..i + 1], profileId)
    ensures sound ==> Tracks(flows, i + 1, ids', rx[..], tx[..])
  {
    OneMoreFlow(flows, i, profileId);
    OneMoreId(flows, i);
    hide FieldsAreValid, IsBlank, Covers, FlowsAreValid, Taken, IdsOf, Shows, RangeIsValid;
    var f := flows[i];
    sound, ids' := true, ids;
    if IsBlank(f.id) || f.id in ids {
      sound := false;
    } else {
      ids' := ids' + {f.id};
    }
    var wrong := CheckFields(f, profileId);
    sound := sound && wrong == 0;
    if !RangeIsValid(f) {
      sound := false;
    } else {
      var overlap := ClaimFor(flows, i, rx, tx);
      sound := sound && !overlap;
    }
  }

  lemma NothingTracked(flows: seq<Flow>, profileId: string, rx: seq<Option<string>>, tx: seq<Option<string>>)
    requires |rx| == |tx| == VIRTUAL_CHANNELS
    requires forall k :: 0 <= k < VIRTUAL_CHANNELS ==> rx[k].None? && tx[k].None?
    ensures FlowsAreValid(flows[..0], profileId) && Tracks(flows, 0, {}, rx, tx)
  {
  }

  lemma StillTracks(flows: seq<Flow>, i: nat, ids: set<string>, rx: seq<Option<string>>, tx: seq<Option<string>>)
    requires i < |flows| && !flows[i].enabled
    ensures Tracks(flows, i, ids, rx, tx) ==> Tracks(flows, i + 1, ids, rx, tx)
  {
    DisabledChangesNothing(flows, i, "");
    hide Taken;
  }

  /** `validate`: accepts exactly the valid configurations, and adds up their channels.
      The code goes on collecting issues after the first one; here it only counts. */
  method Validate(c: Configuration) returns (report: Report)
    ensures report.valid <==> IsValid(c)
    ensures report.receiveChannels == ChannelsOf(c.flows, Receive) && report.receiveFlows == CountOf(c.flows, Receive)
    ensures report.transmitChannels == ChannelsOf(c.flows, Transmit) && report.transmitFlows == CountOf(c.flows, Transmit)
  {
    var flows := c.flows;
    var sound := HeaderIsValid(c);
    var ids: set<string> := {};
    var rx, tx := new Option<string>[VIRTUAL_CHANNELS](_ => None), new Option<string>[VIRTUAL_CHANNELS](_ => None);
    var rxChannels, txChannels, rxFlows, txFlows := 0, 0, 0, 0;
    NothingTracked(flows, c.profileId, rx[..], tx[..]);
    hide HeaderIsValid, FlowsAreValid, Tracks;
    for i := 0 to |flows|
      invariant sound <==> HeaderIsValid(c) && FlowsAreValid(flows[..i], c.profileId)
      invariant sound ==> Tracks(flows, i, ids, rx[..], tx[..])
      invariant rxChannels == ChannelsOf(flows[..i], Receive) && rxFlows == CountOf(flows[..i], Receive)
      invariant txChannels == ChannelsOf(flows[..i], Transmit) && txFlows == CountOf(flows[..i], Transmit)
    {
      var flow := flows[i];
      assert flows[..i + 1][..i] == flows[..i];
      ShorterIsValid(flows, i, c.profileId);
      if !flow.enabled {
        DisabledChangesNothing(flows, i, c.profileId);
        StillTracks(flows, i, ids, rx[..], tx[..]);
        continue;
      }
      if sound {
        sound, ids := CheckFlow(flows, i, c.profileId, ids, rx, tx);
      }
      match flow.direction
      case Receive =>
        rxFlows, rxChannels := rxFlows + 1, rxChannels + flow.channels;
      case Transmit =>
        txFlows, txChannels := txFlows + 1, txChannels + flow.channels;
    }
    assert flows[..|flows|] == flows;
    if rxFlows > MAX_FLOWS_PER_DIRECTION || txFlows > MAX_FLOWS_PER_DIRECTION {
      sound := false;
    }
    return Report(sound, rxChannels, txChannels, rxFlows, txFlows);
  }

  // ----- Totals -----

  /** The channels of one flow, counted from zero. */
  function RangeOf(first: nat, count: nat): (r: set<nat>)
    ensures |r| == count && forall k: nat :: k in r <==> first <= k < first + count
  {
    if count == 0 then {} else RangeOf(first, count - 1) + {first + count - 1}
  }

  /** The channels the enabled flows of one direction own together. */
  lemma {:induction false} OwnedChannels(flows: seq<Flow>, d: Direction, profileId: string) returns (owned: set<nat>)
    requires FlowsAreValid(flows, profileId)
    ensures |owned| == ChannelsOf(flows, d)
    ensures forall k: nat :: k in owned <==> Taken(flows, d, k)
    ensures forall k: nat :: k in owned ==> k < VIRTUAL_CHANNELS
  {
    if flows == [] {
      owned := {};
    } else {
      var i := |flows| - 1;
      assert flows[..i + 1] == flows;
      ShorterIsValid(flows, i, profileId);
      owned := OwnedChannels(flows[..i], d, profileId);
      hide *;
      forall k: nat
        ensures Taken(flows, d, k) <==> Taken(flows[..i], d, k) || (Enabled(flows[i], d) && Covers(flows[i], k))
      {
        OneMoreTaken(flows, i, d, k);
      }
      if Enabled(flows[i], d) {
        var own := OwnChannels(flows, i, d, profileId);
        assert owned !! own;
        owned := owned + own;
      }
      LastChannels(flows, i, d);
    }
  }

  lemma LastChannels(flows: seq<Flow>, i: nat, d: Direction)
    requires i + 1 == |flows|
    ensures ChannelsOf(flows, d) == ChannelsOf(flows[..i], d) + if Enabled(flows[i], d) then flows[i].channels else 0
  {
  }

  /** The last flow owns channels no earlier one has. */
  lemma OwnChannels(flows: seq<Flow>, i: nat, d: Direction, profileId: string) returns (own: set<nat>)
    requires i + 1 == |flows| && FlowsAreValid(flows, profileId) && Enabled(flows[i], d)
    ensures |own| == flows[i].channels
    ensures forall k: nat :: k in own <==> Covers(flows[i], k)
    ensures forall k: nat :: k in own ==> k < VIRTUAL_CHANNELS && !Taken(flows[..i], d, k)
  {
    assert flows[..i + 1] == flows;
    ShorterIsValid(flows, i, profileId);
    OneMoreFlow(flows, i, profileId);
    FlowChannels(flows[i], profileId);
    own := RangeOf(flows[i].startChannel - 1, flows[i].channels);
    hide Covers, Taken, FlowIsSound, FlowsAreValid;
  }

  lemma FlowChannels(f: Flow, profileId: string)
    requires FlowIsSound(f, profileId)
    ensures f.startChannel > 0 && f.startChannel - 1 + f.channels <= VIRTUAL_CHANNELS
    ensures forall k :: Covers(f, k) <==> f.startChannel - 1 <= k < f.startChannel - 1 + f.channels
  {
  }

  lemma {:induction false} SmallSet(s: set<nat>, n: nat)
    requires forall k: nat :: k in s ==> k < n
    ensures |s| <= n
    decreases n
  {
    if n > 0 {
      SmallSet(s - {n - 1}, n - 1);
    } else {
      assert s == {};
    }
  }

  /** A valid configuration owns at most 64 channels in each direction. */
  lemma TotalsFit(c: Configuration, d: Direction)
    requires IsValid(c)
    ensures ChannelsOf(c.flows, d) <= VIRTUAL_CHANNELS
  {
    var owned := OwnedChannels(c.flows, d, c.profileId);
    SmallSet(owned, VIRTUAL_CHANNELS);
  }

  // ----- What a sound flow looks like -----

  /** A flow is sound by itself exactly when it has an identifier and a name, a multicast
      address (or a loopback one in the diagnostic profile), a source filter that is empty
      or an address, a port, the one supported format, and channels and jitter buffer in
      range. */
  lemma SoundIff(f: Flow, profileId: string)
    ensures FlowIsSound(f, profileId) <==>
      && (exists c :: c in f.id && !IsSpace(c)) && (exists c :: c in f.name && !IsSpace(c))
      && StrictParse(f.multicastAddress).Some?
      && (var first := StrictParse(f.multicastAddress).value[0];
          224 <= first <= 239 || (profileId == "diagnostic-loopback" && first == 127))
      && (f.sourceAddress == [] || StrictParse(f.sourceAddress).Some?)
      && 1 <= f.port && f.payloadType <= 127 && f.encoding == "L24" && f.sampleRate == 48_000
      && f.channels in {1, 2, 4, 8} && f.framesPerPacket == 48 && f.packetTimeMicroseconds == 1_000
      && 2 <= f.jitterPackets <= 63
      && 1 <= f.startChannel && f.startChannel + f.channels <= 65
  {
    hide StrictParse, IsSpace;
  }

  /** A configuration is valid exactly when its version, name and clock domain are right,
      every enabled flow is sound, no two of them share an identifier or, in one direction,
      a channel, and there are at most 32 per direction. */
  lemma ValidIff(c: Configuration)
    ensures IsValid(c) <==>
      && c.schemaVersion == 1 && (exists ch :: ch in c.name && !IsSpace(ch)) && (c.ptpEnabled ==> c.ptpDomain == 0)
      && (forall i :: 0 <= i < |c.flows| && c.flows[i].enabled ==> FlowIsSound(c.flows[i], c.profileId))
      && (forall i, j :: 0 <= i < j < |c.flows| && c.flows[i].enabled && c.flows[j].enabled ==>
            Separate(c.flows[i], c.flows[j]))
      && CountOf(c.flows, Receive) <= 32 && CountOf(c.flows, Transmit) <= 32
  {
    forall f: Flow, g: Flow | FlowIsSound(f, c.profileId) && FlowIsSound(g, c.profileId)
      ensures Apart(f, g) <==> Separate(f, g)
    {
      SoundIff(f, c.profileId);
      SoundIff(g, c.profileId);
      hide FlowIsSound;
    }
    hide FlowIsSound, Apart, Separate, IsSpace, CountOf;
  }

  /** Different identifiers, and different directions or ranges that do not meet. */
  predicate Separate(f: Flow, g: Flow) {
    && f.id != g.id
    && (f.direction != g.direction
        || f.startChannel + f.channels <= g.startChannel || g.startChannel + g.channels <= f.startChannel)
  }
}

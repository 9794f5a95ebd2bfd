/** Session announcement messages (Core/SAP.cpp; section 6 of RFC 2974). */
module SAP {
  import opened Bytes
  import opened Common
  import opened IPv4
  import opened SDP

  datatype SAPMessage = SAPMessage(deletion: bool, messageHash: u16, originAddress: string, payloadType: string, sdp: string)

  const MIME: string := "application/sdp"

  // ----- Texts as bytes -----

  /** Every character is one byte, as `char` is in the code. */
  predicate Narrow(text: string) {
    forall c :: c in text ==> c as int < 256
  }

  function ToByte(c: char): u8 {
    c as int % 256
  }

  function ToBytes(text: string): (b: seq<u8>)
    ensures |b| == |text|
  {
    seq(|text|, i requires 0 <= i < |text| => ToByte(text[i]))
  }

  function FromBytes(bytes: seq<u8>): (s: string)
    ensures |s| == |bytes|
  {
    seq(|bytes|, i requires 0 <= i < |bytes| => bytes[i] as char)
  }

  lemma TextRoundTrip(text: string)
    requires Narrow(text)
    ensures FromBytes(ToBytes(text)) == text
  {
    forall i | 0 <= i < |text|
      ensures FromBytes(ToBytes(text))[i] == text[i]
    {
      assert text[i] in text;
    }
  }

  // ----- The hash -----

  function Mix(value: bv32, byte: u8): bv32 {
    (value ^ (byte as bv32)) * 16777619
  }

  function HashFrom(value: bv32, bytes: seq<u8>): bv32
    decreases |bytes|
  {
    if bytes == [] then value else HashFrom(Mix(value, bytes[0]), bytes[1..])
  }

  function Folded(value: bv32): u16 {
    ((value >> 16) ^ value) as int % TWO16
  }

  /** `SAP::hash`: 32-bit FNV-1a, folded to 16 bits. */
  function Hash(sdp: string): u16 {
    Folded(HashFrom(2166136261, ToBytes(sdp)))
  }

  method ComputeHash(sdp: string) returns (hash: u16)
    ensures hash == Hash(sdp)
  {
    hide Mix, Folded, ToBytes;
    var value: bv32 := 2166136261;
    var bytes := ToBytes(sdp);
    for i := 0 to |bytes|
      invariant HashFrom(value, bytes[i..]) == HashFrom(2166136261, bytes)
    {
      assert bytes[i..][1..] == bytes[i + 1..];
      value := Mix(value, bytes[i]);
    }
    hash := Folded(value);
  }

  // ----- Encoding -----

  function MimeOf(m: SAPMessage): string {
    if m.payloadType == [] then MIME else m.payloadType
  }

  function HashOf(m: SAPMessage): u16 {
    if m.messageHash != 0 then m.messageHash else Hash(m.sdp)
  }

  /** The wire form: flags, no authentication, hash, origin, type, NUL, description. */
  function Encoded(m: SAPMessage): seq<u8> {
    var origin := IPv4.Parse(m.originAddress);
    if origin.None? then []
    else
      [if m.deletion then 0x24 else 0x20, 0] + BigEndian(HashOf(m), 2) + origin.value
      + ToBytes(MimeOf(m)) + [0] + ToBytes(m.sdp)
  }

  /** `plain` with `4 * words` bytes of authentication added. */
  predicate IsAuthenticated(bytes: seq<u8>, plain: seq<u8>, words: u8) {
    && |plain| >= 9 && |bytes| == |plain| + 4 * words
    && bytes[0] == plain[0] && bytes[1] == words && bytes[2..8] == plain[2..8]
    && bytes[8 + 4 * words..] == plain[8..]
  }

  method Encode(m: SAPMessage) returns (bytes: seq<u8>)
    ensures bytes == Encoded(m)
  {
    var origin := ParseAddress(m.originAddress);
    if origin.None? {
      return [];
    }
    var mime := if m.payloadType == [] then MIME else m.payloadType;
    var hash := m.messageHash;
    if hash == 0 {
      hash := ComputeHash(m.sdp);
    }
    hide Hash, IPv4.Parse, BigEndian, ToBytes;
    bytes := Assemble(0x20 + if m.deletion then 0x04 else 0, hash, origin.value, ToBytes(mime), ToBytes(m.sdp));
  }

  method Assemble(flags: u8, hash: u16, origin: Octets, mime: seq<u8>, sdp: seq<u8>) returns (bytes: seq<u8>)
    ensures bytes == [flags, 0] + BigEndian(hash, 2) + origin + mime + [0] + sdp
  {
    PowersOf256();
    assert hash < Pow256(2);
    hide *;
    var out := new u8[8 + |mime| + 1 + |sdp|](_ => 0);
    out[0] := flags;
    Put(out, 2, 2, hash);
    ghost var numbered := out[..];
    assert numbered[0] == flags && numbered[1] == 0 && numbered[8 + |mime|] == 0;
    Copy(out, 4, origin);
    ghost var addressed := out[..];
    assert addressed[0] == flags && addressed[1] == 0 && addressed[8 + |mime|] == 0;
    SameField(numbered, addressed, 2, 4);
    Copy(out, 8, mime);
    ghost var typed := out[..];
    assert typed[0] == flags && typed[1] == 0 && typed[8 + |mime|] == 0;
    SameField(addressed, typed, 2, 4);
    SameField(addressed, typed, 4, 8);
    Copy(out, 9 + |mime|, sdp);
    bytes := out[..];
    SameField(typed, bytes, 2, 4);
    SameField(typed, bytes, 4, 8);
    SameField(typed, bytes, 8, 8 + |mime|);
    Assembled(bytes, |mime|);
  }

  lemma Assembled(b: seq<u8>, n: nat)
    requires |b| >= 9 + n && b[8 + n] == 0
    ensures b == [b[0], b[1]] + b[2..4] + b[4..8] + b[8..8 + n] + [0] + b[9 + n..]
  {
  }

  /** `std::copy` into a buffer. */
  method Copy(out: array<u8>, at: nat, bytes: seq<u8>)
    requires at + |bytes| <= out.Length
    modifies out
    ensures out[at..at + |bytes|] == bytes
    ensures forall k :: 0 <= k < out.Length && !(at <= k < at + |bytes|) ==> out[k] == old(out[k])
  {
    for i := 0 to |bytes|
      invariant out[at..at + i] == bytes[..i]
      invariant forall k :: 0 <= k < out.Length && !(at <= k < at + |bytes|) ==> out[k] == old(out[k])
    {
      out[at + i] := bytes[i];
    }
  }

  // ----- Decoding -----

  /** Where the first zero byte stands; the length when there is none. */
  function FirstZero(bytes: seq<u8>): (i: nat)
    ensures i <= |bytes| && 0 !in bytes[..i] && (i < |bytes| ==> bytes[i] == 0)
  {
    if bytes == [] then 0
    else if bytes[0] == 0 then 0
    else
      var i := 1 + FirstZero(bytes[1..]);
      assert bytes[..i] == [bytes[0]] + bytes[1..][..i - 1];
      i
  }

  function Decode(bytes: seq<u8>): Option<SAPMessage> {
    if |bytes| < 9 || bytes[0] / 32 != 1 || bytes[0] / 2 % 2 != 0 || bytes[0] % 2 != 0 then None
    else
      var payloadStart: nat := 8 + (bytes[1] as int) * 4;
      if payloadStart >= |bytes| then None
      else
        var rest := bytes[payloadStart..];
        var zero := FirstZero(rest);
        if zero + 1 >= |rest| then None
        else
          var payloadType, sdp := FromBytes(rest[..zero]), FromBytes(rest[zero + 1..]);
          if payloadType != MIME || !StartsWith(sdp, "v=0") then None
          else
            Some(SAPMessage(bytes[0] / 4 % 2 != 0, (bytes[2] as int) * 256 + bytes[3], ToText(bytes[4..8]), payloadType, sdp))
  }

  lemma {:induction false} FirstZeroAfter(text: seq<u8>, rest: seq<u8>)
    requires 0 !in text
    ensures FirstZero(text + [0] + rest) == |text|
  {
    if text != [] {
      assert (text + [0] + rest)[1..] == text[1..] + [0] + rest;
      assert text[0] in text && 0 !in text[1..];
      FirstZeroAfter(text[1..], rest);
    }
  }

  /** What the other side should receive. */
  function Received(m: SAPMessage, origin: Octets): SAPMessage {
    SAPMessage(m.deletion, HashOf(m), ToText(origin), MimeOf(m), m.sdp)
  }

  /** A message arrives whole exactly when it carries a session description of the
      supported version. */
  lemma DecodeOfEncoded(m: SAPMessage)
    requires IPv4.Parse(m.originAddress).Some? && Narrow(m.sdp)
    ensures Decode(Encoded(m)) == Some(Received(m, IPv4.Parse(m.originAddress).value))
            <==> MimeOf(m) == MIME && StartsWith(m.sdp, "v=0")
  {
    if MimeOf(m) == MIME && StartsWith(m.sdp, "v=0") {
      EncodedLayout(m);
      TypeIsFound(m.sdp);
      hide Encoded, IPv4.Parse, ToText, HashOf, ToBytes, FromBytes, FirstZero;
      assert |m.sdp| >= 3;
    }
  }

  /** The type and the description are told apart by the zero byte between them. */
  lemma TypeIsFound(sdp: string)
    requires Narrow(sdp)
    ensures var rest := ToBytes(MIME) + [0] + ToBytes(sdp);
            && FirstZero(rest) == |MIME| && FromBytes(rest[..|MIME|]) == MIME && FromBytes(rest[|MIME| + 1..]) == sdp
  {
    MimeHasNoZero();
    FirstZeroAfter(ToBytes(MIME), ToBytes(sdp));
    TextRoundTrip(sdp);
    MimeRoundTrip();
    var rest := ToBytes(MIME) + [0] + ToBytes(sdp);
    assert rest[..|MIME|] == ToBytes(MIME) && rest[|MIME| + 1..] == ToBytes(sdp);
  }

  lemma EncodedLayout(m: SAPMessage)
    requires IPv4.Parse(m.originAddress).Some?
    ensures var b := Encoded(m);
            && |b| >= 9 && b[0] == (if m.deletion then 0x24 else 0x20) && b[1] == 0
            && (b[2] as int) * 256 + b[3] == HashOf(m)
            && b[4..8] == IPv4.Parse(m.originAddress).value
            && b[8..] == ToBytes(MimeOf(m)) + [0] + ToBytes(m.sdp)
  {
    hide IPv4.Parse, HashOf, ToBytes;
    var h := HashOf(m);
    TwoBytes(h);
    hide BigEndian;
    var b := Encoded(m);
    assert b[2] == BigEndian(h, 2)[0] && b[3] == BigEndian(h, 2)[1];
  }

  lemma TwoBytes(h: u16)
    ensures BigEndian(h, 2) == [h / 256, h % 256]
  {
  }

  lemma MimeHasNoZero()
    ensures 0 !in ToBytes(MIME)
  {
  }

  lemma MimeRoundTrip()
    ensures FromBytes(ToBytes(MIME)) == MIME
  {
  }

  lemma FixedFieldsAgree(bytes: seq<u8>, plain: seq<u8>)
    requires |bytes| >= 8 && |plain| >= 8 && bytes[2..8] == plain[2..8]
    ensures bytes[2] == plain[2] && bytes[3] == plain[3] && bytes[4..8] == plain[4..8]
  {
    assert bytes[2..8][0] == plain[2..8][0] && bytes[2..8][1] == plain[2..8][1];
    assert bytes[4..8] == bytes[2..8][2..] && plain[4..8] == plain[2..8][2..];
  }

  /** Authentication data is skipped, however much there is. */
  lemma AuthenticationIsSkipped(bytes: seq<u8>, plain: seq<u8>, words: u8)
    requires IsAuthenticated(bytes, plain, words) && plain[1] == 0
    ensures Decode(bytes) == Decode(plain)
  {
    FixedFieldsAgree(bytes, plain);
    hide ToText, FirstZero, FromBytes, StartsWith;
  }

  // ----- What is accepted -----

  /** Two known values of 32-bit FNV-1a, 811C9DC5 and E40C292C, folded. */
  lemma KnownHashes()
    ensures Hash("") == 0x1CD9 && Hash("a") == 0xCD20
  {
    assert ToBytes("") == [] && ToBytes("a") == [97] && [97][1..] == [];
    assert HashFrom(2166136261, [97]) == Mix(2166136261, 97);
  }

  lemma {:induction false} FirstZeroIs(bytes: seq<u8>, i: nat)
    requires i < |bytes| && bytes[i] == 0 && 0 !in bytes[..i]
    ensures FirstZero(bytes) == i
  {
    if i > 0 {
      assert bytes[0] in bytes[..i];
      assert bytes[1..][..i - 1] == bytes[..i][1..];
      FirstZeroIs(bytes[1..], i - 1);
    }
  }

  lemma SameText(bytes: seq<u8>, text: string)
    requires Narrow(text)
    ensures FromBytes(bytes) == text <==> bytes == ToBytes(text)
  {
    TextRoundTrip(text);
    if FromBytes(bytes) == text {
      forall i | 0 <= i < |bytes|
        ensures bytes[i] == ToBytes(text)[i]
      {
        assert FromBytes(bytes)[i] == text[i];
      }
    }
  }

  /** What a supported message carries after its header and authentication. */
  function Preamble(): seq<u8> {
    ToBytes(MIME) + [0] + ToBytes("v=0")
  }

  /** The decoder accepts exactly messages of version 1, neither encrypted nor compressed,
      whose payload starts with the supported type and version; the other bits of the first
      byte may be anything, and one of them marks a deletion. */
  lemma DecodeAccepts(bytes: seq<u8>)
    ensures Decode(bytes).Some? <==>
      && |bytes| >= 9 && bytes[0] in {0x20, 0x24, 0x28, 0x2C, 0x30, 0x34, 0x38, 0x3C}
      && 8 + 4 * (bytes[1] as int) <= |bytes| && Preamble() <= bytes[8 + 4 * (bytes[1] as int)..]
    ensures Decode(bytes).Some? ==> (Decode(bytes).value.deletion <==> bytes[0] in {0x24, 0x2C, 0x34, 0x3C})
  {
    if |bytes| >= 9 && 8 + 4 * (bytes[1] as int) <= |bytes| {
      var rest := bytes[8 + 4 * (bytes[1] as int)..];
      FirstByteIs(bytes[0]);
      TypeThenVersion(rest);
      hide FirstZero, FromBytes, StartsWith, Preamble, ToText;
    }
  }

  lemma FirstByteIs(b: u8)
    ensures b / 32 == 1 && b / 2 % 2 == 0 && b % 2 == 0 <==> b in {0x20, 0x24, 0x28, 0x2C, 0x30, 0x34, 0x38, 0x3C}
    ensures b / 32 == 1 && b / 2 % 2 == 0 && b % 2 == 0 ==> (b / 4 % 2 != 0 <==> b in {0x24, 0x2C, 0x34, 0x3C})
  {
  }

  lemma Beginning(rest: seq<u8>, a: seq<u8>, b: seq<u8>)
    ensures a + [0] + b <= rest <==>
      |rest| >= |a| + 1 + |b| && rest[..|a|] == a && rest[|a|] == 0 && rest[|a| + 1..][..|b|] == b
  {
    var n, m := |a|, |b|;
    if a + [0] + b <= rest {
      assert rest[..n + 1 + m] == a + [0] + b;
      assert rest[..n] == rest[..n + 1 + m][..n] && rest[n] == rest[..n + 1 + m][n];
      assert rest[n + 1..][..m] == rest[..n + 1 + m][n + 1..];
    }
    if |rest| >= n + 1 + m {
      assert rest[..n + 1 + m] == rest[..n] + [rest[n]] + rest[n + 1..][..m];
    }
  }

  lemma TextBeginning(bytes: seq<u8>, text: string)
    requires Narrow(text)
    ensures StartsWith(FromBytes(bytes), text) <==> |bytes| >= |text| && bytes[..|text|] == ToBytes(text)
  {
    if |bytes| >= |text| {
      assert FromBytes(bytes)[..|text|] == FromBytes(bytes[..|text|]);
      SameText(bytes[..|text|], text);
    }
  }

  /** The tests on the payload are one test on its beginning. */
  lemma TypeThenVersion(rest: seq<u8>)
    ensures FirstZero(rest) + 1 < |rest| && FromBytes(rest[..FirstZero(rest)]) == MIME
            && StartsWith(FromBytes(rest[FirstZero(rest) + 1..]), "v=0")
            <==> Preamble() <= rest
  {
    MimeIsNarrow();
    MimeHasNoZero();
    VersionIsNarrow();
    PayloadTests(rest, MIME, "v=0");
  }

  lemma PayloadTests(rest: seq<u8>, mime: string, version: string)
    requires Narrow(mime) && 0 !in ToBytes(mime) && Narrow(version) && version != []
    ensures FirstZero(rest) + 1 < |rest| && FromBytes(rest[..FirstZero(rest)]) == mime
            && StartsWith(FromBytes(rest[FirstZero(rest) + 1..]), version)
            <==> ToBytes(mime) + [0] + ToBytes(version) <= rest
  {
    Beginning(rest, ToBytes(mime), ToBytes(version));
    hide ToBytes, FromBytes, StartsWith, Narrow;
    var zero := FirstZero(rest);
    if zero < |rest| {
      SameText(rest[..zero], mime);
      TextBeginning(rest[zero + 1..], version);
    }
    if |mime| < |rest| && rest[..|mime|] == ToBytes(mime) && rest[|mime|] == 0 {
      FirstZeroIs(rest, |mime|);
    }
  }

  lemma MimeIsNarrow()
    ensures Narrow(MIME)
  {
  }

  lemma VersionIsNarrow()
    ensures Narrow("v=0") && |"v=0"| == 3
  {
  }
}

/** IPv4 addresses as text (Core/IPv4Address.hpp). */
module IPv4 {
  import opened Common
  import opened Text

  /** Four octets. */
  type Octets = s: seq<u8> | |s| == 4 witness [0, 0, 0, 0]

  predicate IsMulticast(a: Octets) {
    224 <= a[0] <= 239
  }

  /** `toString`. */
  function ToText(a: Octets): string {
    Print(a[0]) + ['.'] + (Print(a[1]) + ['.'] + (Print(a[2]) + ['.'] + Print(a[3])))
  }

  predicate IsOctet(part: string) {
    ParseNumber(part).Some? && ParseNumber(part).value <= 255
  }

  function OctetOf(part: string): u8
    requires IsOctet(part)
  {
    ParseNumber(part).value
  }

  /** What a text must be to name an address: four octets between dots. */
  predicate IsAddress(text: string) {
    var parts := Split(text, '.');
    |parts| == 4 && IsOctet(parts[0]) && IsOctet(parts[1]) && IsOctet(parts[2]) && IsOctet(parts[3])
  }

  function Parse(text: string): Option<Octets> {
    if !IsAddress(text) then None
    else
      var parts := Split(text, '.');
      Some([OctetOf(parts[0]), OctetOf(parts[1]), OctetOf(parts[2]), OctetOf(parts[3])])
  }

  predicate AllOctets(parts: seq<string>) {
    forall k :: 0 <= k < |parts| ==> IsOctet(parts[k])
  }

  function Values(parts: seq<string>): (r: seq<u8>)
    requires AllOctets(parts)
    ensures |r| == |parts|
  {
    seq(|parts|, k requires 0 <= k < |parts| => OctetOf(parts[k]))
  }

  /** `n` more components, the last one at the end of the text. */
  function Components(text: string, n: nat): (r: Option<seq<u8>>)
    ensures r.Some? ==> |r.value| == n
    decreases n
  {
    if n == 0 then Some([])
    else
      var i := IndexOf(text, '.');
      if !IsOctet(text[..i]) || (i == |text| <==> n > 1) then None
      else
        var first := [OctetOf(text[..i])];
        if n == 1 then Some(first)
        else
          var rest := Components(text[i + 1..], n - 1);
          if rest.None? then None else Some(first + rest.value)
  }

  /** Taking components one by one is splitting at the dots. */
  lemma {:induction false} ComponentsAreParts(text: string, n: nat)
    requires n > 0
    ensures var parts := Split(text, '.');
            Components(text, n) == if |parts| == n && AllOctets(parts) then Some(Values(parts)) else None
    decreases n
  {
    var i := IndexOf(text, '.');
    SplitOnce(text, '.');
    hide IndexOf, OctetOf, Split, IsOctet;
    if i == |text| {
      assert Split(text, '.')[0] == text[..i];
      if n == 1 && IsOctet(text[..i]) {
        assert Values(Split(text, '.')) == [OctetOf(text[..i])];
      }
    } else {
      var tail := Split(text[i + 1..], '.');
      MoreParts(text[..i], tail);
      if n > 1 {
        ComponentsAreParts(text[i + 1..], n - 1);
      }
    }
  }

  lemma MoreParts(first: string, tail: seq<string>)
    ensures AllOctets([first] + tail) <==> IsOctet(first) && AllOctets(tail)
    ensures IsOctet(first) && AllOctets(tail) ==> Values([first] + tail) == [OctetOf(first)] + Values(tail)
  {
    hide IsOctet, OctetOf;
    var parts := [first] + tail;
    if AllOctets(parts) {
      assert IsOctet(parts[0]);
      forall k | 0 <= k < |tail|
        ensures IsOctet(tail[k])
      {
        assert IsOctet(parts[k + 1]);
      }
    }
  }

  lemma ParseIsComponents(text: string)
    ensures Parse(text) == Components(text, 4)
  {
    hide OctetOf, Split, IsOctet, Components;
    ComponentsAreParts(text, 4);
    if IsAddress(text) {
      assert AllOctets(Split(text, '.'));
      assert Parse(text).value == Values(Split(text, '.'));
    }
  }

  predicate Continues(done: seq<u8>, rest: Option<seq<u8>>, all: Option<seq<u8>>) {
    if rest.None? then all.None? else all == Some(done + rest.value)
  }

  /** One turn of the loop of `parse`. */
  lemma NextComponent(done: seq<u8>, text: string, n: nat, all: Option<seq<u8>>)
    requires n > 0 && Continues(done, Components(text, n), all)
    ensures var i := IndexOf(text, '.');
            if !IsOctet(text[..i]) || (i == |text| <==> n > 1) then all.None?
            else Continues(done + [OctetOf(text[..i])], Components(if n == 1 then text else text[i + 1..], n - 1), all)
  {
    hide IndexOf, IsOctet, OctetOf;
    var i := IndexOf(text, '.');
    if IsOctet(text[..i]) {
      var first := [OctetOf(text[..i])];
      if n == 1 {
        assert done + first + [] == done + first;
      } else if i < |text| {
        var rest := Components(text[i + 1..], n - 1);
        assert rest.Some? ==> done + first + rest.value == done + (first + rest.value);
      }
    }
  }

  lemma OctetTest(part: string)
    ensures var value := ParseNumber(part);
            (IsOctet(part) <==> value.Some? && value.value <= 255) && (IsOctet(part) ==> OctetOf(part) == value.value)
  {
  }

  /** `parse` as the code does it, one component at a time. */
  method ParseAddress(address: string) returns (result: Option<Octets>)
    ensures result == Parse(address)
  {
    hide *;
    AllComponents(address);
    var text: string, octets: seq<u8> := address, [];
    ghost var all := Parse(address);
    for index := 0 to 4
      invariant |octets| == index
      invariant Continues(octets, Components(text, 4 - index), all)
    {
      var separator := IndexOf(text, '.');
      NextComponent(octets, text, 4 - index, all);
      var value := ParseNumber(text[..separator]);
      OctetTest(text[..separator]);
      if value.None? || value.value > 255 {
        return None;
      }
      octets := octets + [value.value];
      if index + 1 < 4 {
        if separator == |text| {
          return None;
        }
        text := text[separator + 1..];
      } else if separator != |text| {
        return None;
      }
    }
    NoMoreComponents(octets, text, all);
    return Some(octets);
  }

  lemma AllComponents(text: string)
    ensures Continues([], Components(text, 4), Parse(text))
  {
    ParseIsComponents(text);
    hide Components, Parse;
    var all := Parse(text);
    assert all.Some? ==> [] + all.value == all.value;
  }

  lemma NoMoreComponents(done: seq<u8>, text: string, all: Option<seq<u8>>)
    requires Continues(done, Components(text, 0), all)
    ensures all == Some(done)
  {
    assert done + [] == done;
  }

  /** Printing and parsing gives the address back. */
  lemma ParseOfText(a: Octets)
    ensures Parse(ToText(a)) == Some(a)
  {
    hide Print, ParseNumber, Split, IndexOf, Number, Digit, DigitValue;
    forall n: u8, c: char | !IsDigit(c)
      ensures c !in Print(n)
    {
      PrintIsPlain(n, c);
    }
    ParseOfPrint(a[0]);
    ParseOfPrint(a[1]);
    ParseOfPrint(a[2]);
    ParseOfPrint(a[3]);
    SplitLast(Print(a[3]), '.');
    SplitFirst(Print(a[2]), '.', Print(a[3]));
    var low := Print(a[2]) + ['.'] + Print(a[3]);
    SplitFirst(Print(a[1]), '.', low);
    SplitFirst(Print(a[0]), '.', Print(a[1]) + ['.'] + low);
    assert Split(ToText(a), '.') == [Print(a[0]), Print(a[1]), Print(a[2]), Print(a[3])];
    assert a == [a[0], a[1], a[2], a[3]];
  }

  /** An address consists of digits and dots. */
  lemma AddressIsPlain(text: string, c: char)
    requires IsAddress(text) && !IsDigit(c) && c != '.'
    ensures c !in text
  {
    var parts := Split(text, '.');
    hide Split;
    forall k | 0 <= k < |parts|
      ensures c !in parts[k]
    {
      assert IsOctet(parts[k]);
      assert forall i :: 0 <= i < |parts[k]| ==> IsDigit(parts[k][i]);
    }
    FreeParts(text, '.', c);
  }

  /** A character no part has and that is not the delimiter is nowhere. */
  lemma {:induction false} FreeParts(s: string, delimiter: char, c: char)
    requires c != delimiter && forall k :: 0 <= k < |Split(s, delimiter)| ==> c !in Split(s, delimiter)[k]
    ensures c !in s
    decreases |s|
  {
    var i := IndexOf(s, delimiter);
    SplitOnce(s, delimiter);
    hide Split, IndexOf;
    var parts := Split(s, delimiter);
    if i == |s| {
      assert s[..i] == s && parts[0] == s;
    } else {
      assert parts[0] == s[..i];
    }
    if i < |s| {
      var tail := Split(s[i + 1..], delimiter);
      assert forall k :: 0 <= k < |tail| ==> tail[k] == parts[k + 1];
      FreeParts(s[i + 1..], delimiter, c);
      assert s == s[..i] + [s[i]] + s[i + 1..];
    }
  }
}

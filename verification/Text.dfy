/** Splitting, searching and decimal numbers, as `std::string_view` and `std::from_chars`
    give them to Core/SDP.cpp and Core/IPv4Address.hpp. */
module Text {
  import opened Common

  /** Where `c` first stands in `s`; the length when it does not. */
  function IndexOf(s: string, c: char): (i: nat)
    ensures i <= |s| && c !in s[..i] && (i < |s| ==> s[i] == c)
  {
    if s == [] then 0
    else if s[0] == c then 0
    else
      var i := 1 + IndexOf(s[1..], c);
      assert s[..i] == [s[0]] + s[1..][..i - 1];
      i
  }

  lemma {:induction false} IndexOfFirst(a: string, c: char, rest: string)
    requires c !in a
    ensures IndexOf(a + [c] + rest, c) == |a|
    ensures IndexOf(a, c) == |a|
  {
    if a != [] {
      assert (a + [c] + rest)[1..] == a[1..] + [c] + rest;
      assert c !in a[1..];
      IndexOfFirst(a[1..], c, rest);
    }
  }

  function Split(s: string, delimiter: char): (parts: seq<string>)
    ensures |parts| > 0
    decreases |s|
  {
    var i := IndexOf(s, delimiter);
    if i == |s| then [s] else [s[..i]] + Split(s[i + 1..], delimiter)
  }

  method SplitText(value: string, delimiter: char) returns (parts: seq<string>)
    ensures parts == Split(value, delimiter)
  {
    hide *;
    var rest := value;
    parts := [];
    while true
      invariant parts + Split(rest, delimiter) == Split(value, delimiter)
      decreases |rest|
    {
      var position := IndexOf(rest, delimiter);
      ghost var before := parts;
      SplitOnce(rest, delimiter);
      parts := parts + [rest[..position]];
      if position == |rest| {
        return;
      }
      rest := rest[position + 1..];
      Reassociate(before, parts[|before|], Split(rest, delimiter));
    }
  }

  lemma Reassociate(a: seq<string>, x: string, b: seq<string>)
    ensures a + [x] + b == a + ([x] + b)
  {
  }

  lemma SplitOnce(s: string, delimiter: char)
    ensures var i := IndexOf(s, delimiter);
            Split(s, delimiter) == if i == |s| then [s[..i]] else [s[..i]] + Split(s[i + 1..], delimiter)
  {
    assert s[..|s|] == s;
  }

  lemma SplitFirst(a: string, delimiter: char, rest: string)
    requires delimiter !in a
    ensures Split(a + [delimiter] + rest, delimiter) == [a] + Split(rest, delimiter)
  {
    var s := a + [delimiter] + rest;
    IndexOfFirst(a, delimiter, rest);
    assert s[..|a|] == a && s[|a| + 1..] == rest;
  }

  lemma SplitLast(a: string, delimiter: char)
    requires delimiter !in a
    ensures Split(a, delimiter) == [a]
  {
  }

  /** Parts are free of the delimiter and of every character the whole is free of. */
  lemma {:induction false} PartsAreFree(s: string, delimiter: char, c: char, k: nat)
    requires k < |Split(s, delimiter)|
    requires c == delimiter || c !in s
    ensures c !in Split(s, delimiter)[k]
    decreases |s|
  {
    var i := IndexOf(s, delimiter);
    if i < |s| && k > 0 {
      assert c in s[i + 1..] ==> c in s;
      PartsAreFree(s[i + 1..], delimiter, c, k - 1);
    } else {
      assert i == |s| ==> s[..i] == s;
      assert c in s[..i] ==> c in s;
    }
  }

  /** Where `marker` first stands in `s`, if anywhere. */
  function Find(s: string, marker: string): (i: Option<nat>)
    ensures i.Some? ==> i.value + |marker| <= |s|
  {
    if |s| < |marker| then None
    else if s[..|marker|] == marker then Some(0)
    else if s == [] then None
    else
      var rest := Find(s[1..], marker);
      if rest.None? then None else Some(rest.value + 1)
  }

  lemma {:induction false} FindFirst(a: string, marker: string, rest: string)
    requires marker != [] && marker[0] !in a
    ensures Find(a + marker + rest, marker) == Some(|a|)
  {
    var s := a + marker + rest;
    if a == [] {
      assert s[..|marker|] == marker;
    } else {
      assert s[0] != marker[0];
      assert s[..|marker|] != marker;
      assert s[1..] == a[1..] + marker + rest;
      FindFirst(a[1..], marker, rest);
    }
  }

  // ----- Decimal numbers -----

  predicate IsDigit(c: char) {
    '0' <= c <= '9'
  }

  function Digit(n: nat): (c: char)
    requires n < 10
    ensures IsDigit(c) && c as int == n + '0' as int
  {
    n as char + '0'
  }

  function DigitValue(c: char): nat
    requires IsDigit(c)
  {
    c as int - '0' as int
  }

  function Print(n: nat): (s: string)
    ensures s != [] && forall i :: 0 <= i < |s| ==> IsDigit(s[i])
  {
    if n < 10 then [Digit(n)] else Print(n / 10) + [Digit(n % 10)]
  }

  function Number(s: string): nat
    requires forall i :: 0 <= i < |s| ==> IsDigit(s[i])
  {
    if s == [] then 0 else 10 * Number(s[..|s| - 1]) + DigitValue(s[|s| - 1])
  }

  lemma {:induction false} NumberOfPrint(n: nat)
    ensures Number(Print(n)) == n
  {
    if n >= 10 {
      var s := Print(n);
      assert s[..|s| - 1] == Print(n / 10);
      NumberOfPrint(n / 10);
    } else {
      assert [Digit(n)][..0] == [];
    }
  }

  /** `parseNumber` on an unsigned 32-bit target: digits only, all of them, in range. */
  function ParseNumber(text: string): Option<u32> {
    if text == [] || (exists i :: 0 <= i < |text| && !IsDigit(text[i])) then None
    else if Number(text) >= TWO32 then None
    else Some(Number(text))
  }

  lemma ParseOfPrint(n: u32)
    ensures ParseNumber(Print(n)) == Some(n)
  {
    NumberOfPrint(n);
  }

  /** Digits contain nothing else. */
  lemma PrintIsPlain(n: nat, c: char)
    requires !IsDigit(c)
    ensures c !in Print(n)
  {
  }
}

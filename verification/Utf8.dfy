// UTF-8 (section 3 of RFC 3629), which both sides encode a text with before
// hashing it.
module Utf8 {
  import opened Words

  type Bytes = seq<Byte>

  function OfChar(c: char): (r: Bytes)
    ensures 1 <= |r| <= 4
  {
    var n := c as int;
    if n < 0x80 then [n]
    else if n < 0x800 then [0xC0 + n / 0x40, 0x80 + n % 0x40]
    else if n < 0x1_0000 then [0xE0 + n / 0x1000, 0x80 + n / 0x40 % 0x40, 0x80 + n % 0x40]
    else [0xF0 + n / 0x4_0000, 0x80 + n / 0x1000 % 0x40, 0x80 + n / 0x40 % 0x40, 0x80 + n % 0x40]
  }

  function Encode(s: string): Bytes {
    if s == [] then [] else OfChar(s[0]) + Encode(s[1..])
  }

  lemma {:induction false} EncodeAppend(s: string, t: string)
    ensures Encode(s + t) == Encode(s) + Encode(t)
    decreases |s|
  {
    if s == [] {
      assert s + t == t;
    } else {
      assert (s + t)[1..] == s[1..] + t;
      EncodeAppend(s[1..], t);
    }
  }

  // The first byte tells how many follow, and they tell the character.
  function Width(first: Byte): (n: nat)
    ensures 1 <= n <= 4
  {
    if first < 0x80 then 1 else if first < 0xE0 then 2 else if first < 0xF0 then 3 else 4
  }

  lemma WidthOfChar(c: char)
    ensures |OfChar(c)| == Width(OfChar(c)[0])
  {
  }

  lemma SameCharFromSameBytes(c: char, d: char)
    requires OfChar(c) == OfChar(d)
    ensures c == d
  {
    var m, n := c as int, d as int;
    var a, b := OfChar(c), OfChar(d);
    assert |a| == |b| && forall i :: 0 <= i < |a| ==> a[i] == b[i];
    if |a| == 2 {
      assert m / 0x40 == n / 0x40 && m % 0x40 == n % 0x40;
    } else if |a| == 3 {
      ThreeDigits(m, n);
    } else if |a| == 4 {
      FourDigits(m, n);
    }
  }

  lemma ThreeDigits(m: nat, n: nat)
    requires m / 0x1000 == n / 0x1000 && m / 0x40 % 0x40 == n / 0x40 % 0x40 && m % 0x40 == n % 0x40
    ensures m == n
  {
    assert m / 0x1000 == m / 0x40 / 0x40 && n / 0x1000 == n / 0x40 / 0x40;
    assert m / 0x40 == n / 0x40;
  }

  lemma FourDigits(m: nat, n: nat)
    requires m / 0x4_0000 == n / 0x4_0000 && m / 0x1000 % 0x40 == n / 0x1000 % 0x40
    requires m / 0x40 % 0x40 == n / 0x40 % 0x40 && m % 0x40 == n % 0x40
    ensures m == n
  {
    assert m / 0x4_0000 == m / 0x1000 / 0x40 && n / 0x4_0000 == n / 0x1000 / 0x40;
    assert m / 0x1000 == n / 0x1000;
    ThreeDigits(m, n);
  }

  // Different texts encode differently.
  lemma {:induction false} EncodeIsInjective(s: string, t: string)
    requires Encode(s) == Encode(t)
    ensures s == t
    decreases |s|
  {
    if s == [] || t == [] {
    } else {
      var a, b := OfChar(s[0]), OfChar(t[0]);
      assert Encode(s)[0] == a[0] && Encode(t)[0] == b[0];
      WidthOfChar(s[0]);
      WidthOfChar(t[0]);
      assert Encode(s)[..|a|] == a && Encode(t)[..|b|] == b;
      SameCharFromSameBytes(s[0], t[0]);
      assert Encode(s)[|a|..] == Encode(s[1..]) && Encode(t)[|b|..] == Encode(t[1..]);
      EncodeIsInjective(s[1..], t[1..]);
      assert s == [s[0]] + s[1..] && t == [t[0]] + t[1..];
    }
  }

  // TextEncoder.encode
  method EncodeText(s: string) returns (out: array<Byte>)
    ensures fresh(out) && out[..] == Encode(s)
  {
    var bytes := Encode(s);
    out := new Byte[|bytes|](i requires 0 <= i < |bytes| => bytes[i]);
  }
}
